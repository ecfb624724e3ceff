/** JSON values with their members in order, and the key-sorted form of a value. */
module JsonValues {
  import opened Results
  import opened TextSort

  datatype Number = Whole(i: int) | Float(f: real) | NonFinite

  datatype Json =
    | Null
    | Bool(b: bool)
    | Num(n: Number)
    | Text(t: string)
    | Array(items: seq<Json>)
    | Object(members: seq<Member>)

  datatype Member = Member(name: string, value: Json)

  predicate DistinctNames(members: seq<Member>) {
    forall i, j :: 0 <= i < j < |members| ==> members[i].name != members[j].name
  }

  /** No object has a key twice, at any depth. */
  predicate WellFormed(v: Json)
    decreases v
  {
    match v
    case Array(items) => forall i :: 0 <= i < |items| ==> WellFormed(items[i])
    case Object(members) => DistinctNames(members) && forall i :: 0 <= i < |members| ==> WellFormed(members[i].value)
    case _ => true
  }

  /** `dict.get`. */
  function Get(members: seq<Member>, name: string): (r: Option<Json>)
    ensures r.Some? <==> exists i :: 0 <= i < |members| && members[i].name == name
    ensures r.Some? ==> Member(name, r.value) in members
  {
    if members == [] then None
    else if members[0].name == name then Some(members[0].value)
    else Get(members[1..], name)
  }

  lemma {:induction false} GetAt(members: seq<Member>, i: nat)
    requires DistinctNames(members) && i < |members|
    ensures Get(members, members[i].name) == Some(members[i].value)
  {
    if i > 0 {
      assert members[0].name != members[i].name;
      GetAt(members[1..], i - 1);
    }
  }

  const NAME_BELOW := (x: Member, y: Member) => Below(x.name, y.name)

  /** `_sorted_json_value`. */
  function SortedValue(v: Json): Json
    decreases v
  {
    match v
    case Array(items) => Array(SortedItems(items))
    case Object(members) => Object(Sort(SortedMembers(members), NAME_BELOW))
    case _ => v
  }

  function SortedItems(items: seq<Json>): (r: seq<Json>)
    ensures |r| == |items|
    decreases items
  {
    if items == [] then [] else [SortedValue(items[0])] + SortedItems(items[1..])
  }

  function SortedMembers(members: seq<Member>): (r: seq<Member>)
    ensures |r| == |members| && forall i :: 0 <= i < |r| ==> r[i].name == members[i].name
    decreases members
  {
    if members == [] then []
    else [Member(members[0].name, SortedValue(members[0].value))] + SortedMembers(members[1..])
  }

  /** The same value but for the order of the keys, at any depth: what `==` means for dictionaries. */
  predicate Reordered(v: Json, w: Json)
    decreases v
  {
    match v
    case Array(items) => w.Array? && ReorderedItems(items, w.items)
    case Object(members) => w.Object? && |members| == |w.members| && Covered(members, w.members)
    case _ => v == w
  }

  predicate ReorderedItems(items: seq<Json>, others: seq<Json>)
    decreases items
  {
    |items| == |others| && (items == [] || (Reordered(items[0], others[0]) && ReorderedItems(items[1..], others[1..])))
  }

  /** Every member has its counterpart among the others. */
  predicate Covered(members: seq<Member>, others: seq<Member>)
    decreases members
  {
    members == []
    || (var other := Get(others, members[0].name);
        && other.Some? && Reordered(members[0].value, other.value) && Covered(members[1..], others))
  }

  // ---- The sorted form is canonical ---------------------------------------------------------

  lemma NamePreorder()
    ensures Preorder(NAME_BELOW)
  {
    forall x: Member, y: Member ensures NAME_BELOW(x, y) || NAME_BELOW(y, x) {
      BelowTotal(x.name, y.name);
    }
    forall x: Member, y: Member, z: Member | NAME_BELOW(x, y) && NAME_BELOW(y, z) ensures NAME_BELOW(x, z) {
      BelowTransitive(x.name, y.name, z.name);
    }
  }

  /** Names never descend, at any depth. */
  predicate NamesAscend(v: Json)
    decreases v
  {
    match v
    case Array(items) => forall i :: 0 <= i < |items| ==> NamesAscend(items[i])
    case Object(members) =>
      && (forall i, j :: 0 <= i < j < |members| ==> Below(members[i].name, members[j].name))
      && forall i :: 0 <= i < |members| ==> NamesAscend(members[i].value)
    case _ => true
  }

  /** The sorted form lists every object's members by name. */
  lemma {:induction false} SortedAscends(v: Json)
    ensures NamesAscend(SortedValue(v))
    decreases v, 0
  {
    match v
    case Array(items) => ItemsAscend(items);
    case Object(members) =>
      MembersAscend(members);
      hide SortedMembers, Sort;
      MembersSorted(SortedMembers(members));
    case _ =>
  }

  lemma MembersSorted(members: seq<Member>)
    requires forall x <- members :: NamesAscend(x.value)
    ensures NamesAscend(Object(Sort(members, NAME_BELOW)))
  {
    NamePreorder();
    SortPermutes(members, NAME_BELOW);
    SortSorts(members, NAME_BELOW);
    var sorted := Sort(members, NAME_BELOW);
    hide Sort, Below;
    forall i | 0 <= i < |sorted| ensures NamesAscend(sorted[i].value) {
      assert sorted[i] in multiset(members);
    }
    forall i, j | 0 <= i < j < |sorted| ensures Below(sorted[i].name, sorted[j].name) {
      assert NAME_BELOW(sorted[i], sorted[j]);
    }
  }

  lemma {:induction false} ItemsAscend(items: seq<Json>)
    ensures forall x <- SortedItems(items) :: NamesAscend(x)
    decreases items
  {
    if items != [] {
      SortedAscends(items[0]);
      ItemsAscend(items[1..]);
    }
  }

  lemma {:induction false} MembersAscend(members: seq<Member>)
    ensures forall x <- SortedMembers(members) :: NamesAscend(x.value)
    decreases members
  {
    if members != [] {
      SortedAscends(members[0].value);
      MembersAscend(members[1..]);
    }
  }

  lemma DistinctUnambiguous(members: seq<Member>)
    requires DistinctNames(members)
    ensures Unambiguous(members, NAME_BELOW)
  {
    forall i, j | 0 <= i < |members| && 0 <= j < |members|
                  && NAME_BELOW(members[i], members[j]) && NAME_BELOW(members[j], members[i])
      ensures members[i] == members[j]
    {
      BelowAntisymmetric(members[i].name, members[j].name);
    }
  }

  lemma {:induction false} DistinctOnce(members: seq<Member>, x: Member)
    requires DistinctNames(members)
    ensures multiset(members)[x] <= 1
  {
    if members != [] {
      DistinctOnce(members[1..], x);
      assert members == [members[0]] + members[1..];
      forall k | 0 <= k < |members[1..]| ensures members[1..][k] != members[0] {
        assert members[0].name != members[k + 1].name;
      }
    }
  }

  /** Without repetitions, a list that holds as many elements, all of them in the other, is a permutation of it. */
  lemma CoveredPermutes(members: seq<Member>, others: seq<Member>)
    requires DistinctNames(members) && |members| == |others|
    requires forall x <- members :: x in others
    ensures multiset(members) == multiset(others)
  {
    var m, n := multiset(members), multiset(others);
    forall x ensures m[x] <= n[x] {
      DistinctOnce(members, x);
      if x in m {
        assert x in members;
      }
    }
    assert n == m + (n - m);
  }

  lemma SortedMembersDistinct(members: seq<Member>)
    requires DistinctNames(members)
    ensures DistinctNames(SortedMembers(members))
  {
  }

  lemma {:induction false} SortedMemberAt(members: seq<Member>, i: nat)
    requires i < |members|
    ensures SortedMembers(members)[i] == Member(members[i].name, SortedValue(members[i].value))
  {
    if i > 0 {
      SortedMemberAt(members[1..], i - 1);
    }
  }

  /** A sorted member is among the sorted others exactly if its counterpart sorts to the same value. */
  lemma SortedMemberIn(name: string, value: Json, others: seq<Member>)
    requires DistinctNames(others)
    ensures Member(name, SortedValue(value)) in SortedMembers(others)
       <==> Get(others, name).Some? && SortedValue(Get(others, name).value) == SortedValue(value)
  {
    var sorted := SortedMembers(others);
    if Member(name, SortedValue(value)) in sorted {
      var i :| 0 <= i < |sorted| && sorted[i] == Member(name, SortedValue(value));
      SortedMemberAt(others, i);
      GetAt(others, i);
    }
    if Get(others, name).Some? && SortedValue(Get(others, name).value) == SortedValue(value) {
      var i :| 0 <= i < |others| && others[i].name == name;
      GetAt(others, i);
      SortedMemberAt(others, i);
    }
  }

  /** Two values have the same sorted form exactly if they differ in the order of keys only. */
  lemma {:induction false} SortedIffReordered(v: Json, w: Json)
    requires WellFormed(v) && WellFormed(w)
    ensures SortedValue(v) == SortedValue(w) <==> Reordered(v, w)
    decreases v
  {
    match v
    case Array(items) =>
      if w.Array? {
        SortedItemsIff(items, w.items);
      }
    case Object(members) =>
      if w.Object? {
        CoveredIff(members, w.members);
        SameSorted(members, w.members);
      }
    case _ =>
  }

  lemma {:induction false} SortedItemsIff(items: seq<Json>, others: seq<Json>)
    requires forall i :: 0 <= i < |items| ==> WellFormed(items[i])
    requires forall i :: 0 <= i < |others| ==> WellFormed(others[i])
    ensures SortedItems(items) == SortedItems(others) <==> ReorderedItems(items, others)
    decreases items
  {
    if items != [] && |items| == |others| {
      SortedIffReordered(items[0], others[0]);
      SortedItemsIff(items[1..], others[1..]);
      var s, t := SortedItems(items), SortedItems(others);
      assert s == [s[0]] + s[1..] && t == [t[0]] + t[1..];
      assert s[1..] == SortedItems(items[1..]) && t[1..] == SortedItems(others[1..]);
    }
  }

  lemma {:induction false} CoveredIff(members: seq<Member>, others: seq<Member>)
    requires DistinctNames(others)
    requires forall i :: 0 <= i < |members| ==> WellFormed(members[i].value)
    requires forall i :: 0 <= i < |others| ==> WellFormed(others[i].value)
    ensures Covered(members, others) <==> forall x <- SortedMembers(members) :: x in SortedMembers(others)
    decreases members
  {
    if members != [] {
      var first, other := members[0], Get(others, members[0].name);
      CoveredIff(members[1..], others);
      SortedMemberIn(first.name, first.value, others);
      if other.Some? {
        var i :| 0 <= i < |others| && others[i] == Member(first.name, other.value);
        SortedIffReordered(first.value, other.value);
      }
      var sorted := SortedMembers(members);
      assert sorted == [Member(first.name, SortedValue(first.value))] + SortedMembers(members[1..]);
      assert forall x :: x in sorted <==> x == sorted[0] || x in SortedMembers(members[1..]);
      assert sorted[0] in sorted;
    }
  }

  lemma SameSorted(members: seq<Member>, others: seq<Member>)
    requires DistinctNames(members) && DistinctNames(others)
    ensures Sort(SortedMembers(members), NAME_BELOW) == Sort(SortedMembers(others), NAME_BELOW)
       <==> |members| == |others| && forall x <- SortedMembers(members) :: x in SortedMembers(others)
  {
    var s, t := SortedMembers(members), SortedMembers(others);
    SortPermutes(s, NAME_BELOW);
    SortPermutes(t, NAME_BELOW);
    if Sort(s, NAME_BELOW) == Sort(t, NAME_BELOW) {
      forall x | x in s ensures x in t {
        assert x in multiset(s);
      }
    } else if |members| == |others| && forall x <- s :: x in t {
      SortedMembersDistinct(members);
      CoveredPermutes(s, t);
      NamePreorder();
      DistinctUnambiguous(s);
      SortForgetsOrder(s, t, NAME_BELOW);
      assert false;
    }
  }
}
