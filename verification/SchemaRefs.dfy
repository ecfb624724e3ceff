/** Collecting the external references of one schema document, and the graph they make. */
module SchemaRefs {
  import opened Results
  import opened SchemaGraph

  /** The `$ref` entry of an object: absent, text, or something that is not text. */
  datatype Reference = Absent | To(text: string) | Malformed

  /** An object is its `$ref` entry and its member values in document order. */
  datatype Json = Object(ref: Reference, members: seq<Json>) | Array(items: seq<Json>) | Scalar

  /** The reference without its fragment; empty for one that stays inside the document. */
  type Defrag = string -> string

  function Own(ref: Reference, external: Defrag): seq<string> {
    if ref.To? && external(ref.text) != "" then [external(ref.text)] else []
  }

  /** `_collect_external_refs`; None where it raises. */
  function Refs(v: Json, external: Defrag): Option<seq<string>>
    decreases v, 0
  {
    match v
    case Object(ref, members) =>
      if ref.Malformed? then None
      else
        var rest := RefsOfAll(members, external);
        if rest.None? then None else Some(Own(ref, external) + rest.value)
    case Array(items) => RefsOfAll(items, external)
    case Scalar => Some([])
  }

  function RefsOfAll(vs: seq<Json>, external: Defrag): Option<seq<string>>
    decreases vs
  {
    if vs == [] then Some([])
    else
      var first, rest := Refs(vs[0], external), RefsOfAll(vs[1..], external);
      if first.None? || rest.None? then None else Some(first.value + rest.value)
  }

  lemma {:induction false} RefsOfMore(vs: seq<Json>, v: Json, external: Defrag)
    ensures RefsOfAll(vs + [v], external)
         == (if RefsOfAll(vs, external).None? || Refs(v, external).None? then None
             else Some(RefsOfAll(vs, external).value + Refs(v, external).value))
  {
    if vs == [] {
      assert vs + [v] == [v];
      assert RefsOfAll([v][1..], external) == Some([]);
      if Refs(v, external).Some? {
        assert Refs(v, external).value + [] == Refs(v, external).value == [] + Refs(v, external).value;
      }
    } else {
      assert (vs + [v])[1..] == vs[1..] + [v];
      RefsOfMore(vs[1..], v, external);
      var first, rest, last := Refs(vs[0], external), RefsOfAll(vs[1..], external), Refs(v, external);
      if first.Some? && rest.Some? && last.Some? {
        assert first.value + (rest.value + last.value) == (first.value + rest.value) + last.value;
      }
    }
  }

  method CollectExternalRefs(value: Json, external: Defrag) returns (r: Option<seq<string>>)
    ensures r == Refs(value, external)
    decreases value, 0
  {
    match value
    case Scalar => return Some([]);
    case Array(items) => r := CollectAll(items, external);
    case Object(ref, members) =>
      if ref.Malformed? {
        return None;
      }
      var more := CollectAll(members, external);
      return if more.None? then None else Some(Own(ref, external) + more.value);
  }

  /** The loops over members and items. */
  method CollectAll(members: seq<Json>, external: Defrag) returns (r: Option<seq<string>>)
    ensures r == RefsOfAll(members, external)
    decreases members, 1
  {
    var refs: seq<string> := [];
    for i := 0 to |members|
      invariant RefsOfAll(members[..i], external) == Some(refs)
    {
      assert members[..i + 1] == members[..i] + [members[i]];
      RefsOfMore(members[..i], members[i], external);
      var more := CollectExternalRefs(members[i], external);
      if more.None? {
        FailsAll(members, i, external);
        return None;
      }
      refs := refs + more.value;
    }
    assert members[..|members|] == members;
    return Some(refs);
  }

  lemma {:induction false} FailsAll(vs: seq<Json>, i: nat, external: Defrag)
    requires i < |vs| && Refs(vs[i], external).None?
    ensures RefsOfAll(vs, external).None?
  {
    if i > 0 {
      FailsAll(vs[1..], i - 1, external);
    }
  }

  // ---- What is collected, by position -----------------------------------------------------

  function Children(v: Json): seq<Json> {
    match v
    case Object(_, members) => members
    case Array(items) => items
    case Scalar => []
  }

  /** The value at a position, a position being the child indices that lead to it. */
  function At(v: Json, position: seq<nat>): Option<Json>
    decreases |position|
  {
    if position == [] then Some(v)
    else if position[0] < |Children(v)| then At(Children(v)[position[0]], position[1..])
    else None
  }

  predicate RefAt(v: Json, position: seq<nat>, external: Defrag, x: string) {
    At(v, position).Some? && At(v, position).value.Object? && x in Own(At(v, position).value.ref, external)
  }

  predicate MalformedAt(v: Json, position: seq<nat>) {
    At(v, position).Some? && At(v, position).value.Object? && At(v, position).value.ref.Malformed?
  }

  /** The collection succeeds exactly if no object anywhere has a malformed `$ref`. */
  lemma {:induction false} RefsFailExactly(v: Json, external: Defrag)
    ensures Refs(v, external).None? <==> exists position :: MalformedAt(v, position)
    decreases v, 0
  {
    if v.Object? || v.Array? {
      var vs := Children(v);
      AllFailExactly(vs, external);
      if v.Object? && v.ref.Malformed? {
        assert MalformedAt(v, []);
      } else if i: nat, position :| i < |vs| && MalformedAt(vs[i], position) {
        var deeper := [i] + position;
        assert deeper[1..] == position;
        assert MalformedAt(v, deeper);
      }
      forall position | MalformedAt(v, position) ensures Refs(v, external).None? {
        if position != [] {
          assert MalformedAt(vs[position[0]], position[1..]);
        }
      }
    } else {
      forall position ensures !MalformedAt(v, position) {
      }
    }
  }

  lemma {:induction false} AllFailExactly(vs: seq<Json>, external: Defrag)
    ensures RefsOfAll(vs, external).None? <==> exists i: nat, position :: i < |vs| && MalformedAt(vs[i], position)
    decreases vs
  {
    if vs != [] {
      RefsFailExactly(vs[0], external);
      AllFailExactly(vs[1..], external);
      var rest := vs[1..];
      if i: nat, position :| i < |rest| && MalformedAt(rest[i], position) {
        assert MalformedAt(vs[i + 1], position);
      }
      forall i: nat, position | i < |vs| && MalformedAt(vs[i], position) ensures RefsOfAll(vs, external).None? {
        if i > 0 {
          assert MalformedAt(rest[i - 1], position);
        }
      }
    }
  }

  /** Exactly the external references at some position are collected. */
  lemma {:induction false} RefsExact(v: Json, external: Defrag, x: string)
    requires Refs(v, external).Some?
    ensures x in Refs(v, external).value <==> exists position :: RefAt(v, position, external, x)
    decreases v, 0
  {
    if v.Object? || v.Array? {
      var vs := Children(v);
      AllExact(vs, external, x);
      if v.Object? && x in Own(v.ref, external) {
        assert RefAt(v, [], external, x);
      } else if i: nat, position :| i < |vs| && RefAt(vs[i], position, external, x) {
        var deeper := [i] + position;
        assert deeper[1..] == position;
        assert RefAt(v, deeper, external, x);
      }
      forall position | RefAt(v, position, external, x) ensures x in Refs(v, external).value {
        if position != [] {
          assert RefAt(vs[position[0]], position[1..], external, x);
        }
      }
    } else {
      forall position ensures !RefAt(v, position, external, x) {
      }
    }
  }

  lemma {:induction false} AllExact(vs: seq<Json>, external: Defrag, x: string)
    requires RefsOfAll(vs, external).Some?
    ensures x in RefsOfAll(vs, external).value
            <==> exists i: nat, position :: i < |vs| && RefAt(vs[i], position, external, x)
    decreases vs
  {
    if vs != [] {
      RefsExact(vs[0], external, x);
      AllExact(vs[1..], external, x);
      var rest := vs[1..];
      if i: nat, position :| i < |rest| && RefAt(rest[i], position, external, x) {
        assert RefAt(vs[i + 1], position, external, x);
      }
      forall i: nat, position | i < |vs| && RefAt(vs[i], position, external, x)
        ensures x in RefsOfAll(vs, external).value
      {
        if i > 0 {
          assert RefAt(rest[i - 1], position, external, x);
        }
      }
    }
  }

  // ---- The graph of all documents -----------------------------------------------------------

  /** `resolve_ref(source, target)`; None where it raises. */
  type Resolver = (Path, string) -> Option<Path>

  function LinksOf(schemas: map<Path, Json>, external: Defrag, resolve: Resolver): Links {
    map p | p in schemas ::
      var refs := Refs(schemas[p], external);
      if refs.None? then [None] else seq(|refs.value|, i requires 0 <= i < |refs.value| => resolve(p, refs.value[i]))
  }

  /** An edge of the traversed graph is a reference at some position of the source document. */
  lemma EdgeIsReference(schemas: map<Path, Json>, external: Defrag, resolve: Resolver, a: Path, b: Path)
    requires a in schemas && Refs(schemas[a], external).Some?
    ensures Edge(LinksOf(schemas, external, resolve), a, b)
       <==> exists position, x :: RefAt(schemas[a], position, external, x) && resolve(a, x) == Some(b)
  {
    var refs := Refs(schemas[a], external).value;
    var links := LinksOf(schemas, external, resolve)[a];
    if Some(b) in links {
      var i :| 0 <= i < |links| && links[i] == Some(b);
      RefsExact(schemas[a], external, refs[i]);
      var position :| RefAt(schemas[a], position, external, refs[i]);
    }
    forall position, x | RefAt(schemas[a], position, external, x) && resolve(a, x) == Some(b) ensures Some(b) in links {
      RefsExact(schemas[a], external, x);
      var i :| 0 <= i < |refs| && refs[i] == x;
      assert links[i] == Some(b);
    }
  }
}
