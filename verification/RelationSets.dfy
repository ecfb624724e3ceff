/** Validating a coordinator relation set and putting it into canonical order. */
module RelationSets {
  import opened Results
  import opened TextSort
  import opened JsonValues
  import opened RelationRecords

  // ---- Specification ------------------------------------------------------------------------

  predicate Accepted(lex: Lexicon, records: seq<Json>) {
    forall i :: 0 <= i < |records| ==> Record(lex, records[i]).Some?
  }

  function ReadAll(lex: Lexicon, records: seq<Json>): (r: seq<Relation>)
    requires Accepted(lex, records)
    ensures |r| == |records|
  {
    seq(|records|, i requires 0 <= i < |records| => Record(lex, records[i]).value)
  }

  /** Two records of one set: different observations and units, one target and one group per sample. */
  predicate Compatible(r: Relation, s: Relation) {
    && r.observation != s.observation
    && r.effective != s.effective
    && (r.sample == s.sample ==>
          && (r.target.Some? && s.target.Some? ==> r.target == s.target)
          && (r.group.Some? && s.group.Some? ==> r.group == s.group))
  }

  predicate Observed(relations: seq<Relation>, observation: string, sample: string) {
    exists r <- relations :: r.observation == observation && r.sample == sample
  }

  /** A combo has components, all of them other observations of its own sample. */
  predicate ComboFits(r: Relation, relations: seq<Relation>) {
    r.level == Combo ==>
      && r.components != []
      && (r.origin.Some? ==> r.origin.value == r.sample)
      && forall c <- r.components :: c != r.observation && Observed(relations, c, r.sample)
  }

  predicate Pairwise(relations: seq<Relation>) {
    forall i, j :: 0 <= i < j < |relations| ==> Compatible(relations[i], relations[j])
  }

  predicate Consistent(relations: seq<Relation>) {
    && Pairwise(relations)
    && forall r <- relations :: ComboFits(r, relations)
  }

  /** The sort key: effective unit, observation, sample. */
  predicate KeyBelow(r: Relation, s: Relation) {
    if r.effective != s.effective then Below(r.effective, s.effective)
    else if r.observation != s.observation then Below(r.observation, s.observation)
    else Below(r.sample, s.sample)
  }

  const UNIT_BELOW := (r: Relation, s: Relation) => KeyBelow(r, s)

  function CanonicalRecords(lex: Lexicon, records: seq<Json>): Option<seq<Relation>> {
    if records != [] && Accepted(lex, records) && Consistent(ReadAll(lex, records))
    then Some(Sort(ReadAll(lex, records), UNIT_BELOW))
    else None
  }

  /** What `replay_relation_fingerprint` hashes, or None where it refuses the set. */
  function Canonical(lex: Lexicon, relationSet: Json): Option<seq<Relation>> {
    if !relationSet.Object? || !ExactKeys(relationSet.members, {"records"}, {}) then None
    else
      var records := Get(relationSet.members, "records").value;
      if records.Array? then CanonicalRecords(lex, records.items) else None
  }

  // ---- Invariance -------------------------------------------------------------------------------

  lemma ReadReordered(lex: Lexicon, records: seq<Json>, others: seq<Json>)
    requires |records| == |others|
    requires forall i :: 0 <= i < |records| ==>
              WellFormed(records[i]) && WellFormed(others[i]) && Reordered(records[i], others[i])
    ensures Accepted(lex, records) <==> Accepted(lex, others)
    ensures Accepted(lex, records) ==> ReadAll(lex, records) == ReadAll(lex, others)
  {
    hide Record, WellFormed, Reordered;
    forall i | 0 <= i < |records| ensures Record(lex, records[i]) == Record(lex, others[i]) {
      RecordReordered(lex, records[i], others[i]);
    }
  }

  lemma AcceptedPermuted(lex: Lexicon, records: seq<Json>, others: seq<Json>)
    requires Accepted(lex, records) && multiset(records) == multiset(others)
    ensures Accepted(lex, others)
  {
    hide Record;
    forall i | 0 <= i < |others| ensures Record(lex, others[i]).Some? {
      assert others[i] in multiset(records);
      var k :| 0 <= k < |records| && records[k] == others[i];
    }
  }

  /** Permuted records read as permuted relations. */
  lemma ReadPermuted(lex: Lexicon, records: seq<Json>, others: seq<Json>)
    requires Accepted(lex, records) && Accepted(lex, others) && multiset(records) == multiset(others)
    ensures multiset(ReadAll(lex, records)) == multiset(ReadAll(lex, others))
  {
    hide Record;
    ParallelPermuted(records, ReadAll(lex, records), others, ReadAll(lex, others));
  }

  lemma {:induction false} PairwiseOnce(relations: seq<Relation>, x: Relation)
    requires Pairwise(relations)
    ensures multiset(relations)[x] <= 1
  {
    if relations != [] {
      PairwiseOnce(relations[1..], x);
      assert relations == [relations[0]] + relations[1..];
      forall k | 0 <= k < |relations[1..]| ensures relations[1..][k] != relations[0] {
        assert Compatible(relations[0], relations[k + 1]);
      }
    }
  }

  lemma {:induction false} OnceApart(relations: seq<Relation>, i: nat, j: nat)
    requires forall x: Relation :: multiset(relations)[x] <= 1
    requires i < j < |relations|
    ensures relations[i] != relations[j]
  {
    var x, before, after := relations[i], relations[..j], relations[j + 1..];
    assert relations == before + ([relations[j]] + after);
    assert before[i] == x;
    assert multiset(before)[x] >= 1;
    assert multiset(relations)[x] <= 1;
  }

  lemma PairwisePermuted(relations: seq<Relation>, others: seq<Relation>)
    requires Pairwise(relations) && multiset(relations) == multiset(others)
    ensures Pairwise(others)
  {
    forall x: Relation ensures multiset(others)[x] <= 1 {
      PairwiseOnce(relations, x);
    }
    forall i, j | 0 <= i < j < |others| ensures Compatible(others[i], others[j]) {
      OnceApart(others, i, j);
      assert others[i] in multiset(relations) && others[j] in multiset(relations);
      var k :| 0 <= k < |relations| && relations[k] == others[i];
      var m :| 0 <= m < |relations| && relations[m] == others[j];
      assert Compatible(relations[k], relations[m]) || Compatible(relations[m], relations[k]);
    }
  }

  lemma ConsistentPermuted(relations: seq<Relation>, others: seq<Relation>)
    requires Consistent(relations) && multiset(relations) == multiset(others)
    ensures Consistent(others)
  {
    PairwisePermuted(relations, others);
    forall x ensures x in relations <==> x in others {
      assert x in relations <==> x in multiset(relations);
      assert x in others <==> x in multiset(others);
    }
    forall r | r in others ensures ComboFits(r, others) {
      assert ComboFits(r, relations);
      if r.level == Combo {
        forall c | c in r.components ensures Observed(others, c, r.sample) {
          var s :| s in relations && s.observation == c && s.sample == r.sample;
          assert s in others;
        }
      }
    }
  }

  lemma KeyPreorder()
    ensures Preorder(UNIT_BELOW)
  {
    forall r: Relation, s: Relation ensures KeyBelow(r, s) || KeyBelow(s, r) {
      BelowTotal(r.effective, s.effective);
      BelowTotal(r.observation, s.observation);
      BelowTotal(r.sample, s.sample);
    }
    forall r: Relation, s: Relation, t: Relation | KeyBelow(r, s) && KeyBelow(s, t) ensures KeyBelow(r, t) {
      KeyTransitive(r, s, t);
    }
  }

  lemma TextTransitive(a: string, b: string, c: string)
    requires Below(a, b) && Below(b, c)
    ensures Below(a, c) && (a == c ==> a == b)
  {
    BelowTransitive(a, b, c);
    if a == c {
      BelowAntisymmetric(a, b);
    }
  }

  lemma Reflexive(a: string)
    ensures Below(a, a)
  {
    BelowTotal(a, a);
  }

  lemma KeyTransitive(r: Relation, s: Relation, t: Relation)
    requires KeyBelow(r, s) && KeyBelow(s, t)
    ensures KeyBelow(r, t)
  {
    Reflexive(r.effective);
    Reflexive(s.effective);
    TextTransitive(r.effective, s.effective, t.effective);
    if r.effective == s.effective == t.effective {
      Reflexive(r.observation);
      Reflexive(s.observation);
      TextTransitive(r.observation, s.observation, t.observation);
      if r.observation == s.observation == t.observation {
        BelowTransitive(r.sample, s.sample, t.sample);
      }
    }
  }

  lemma PairwiseUnambiguous(relations: seq<Relation>)
    requires Pairwise(relations)
    ensures Unambiguous(relations, UNIT_BELOW)
  {
    forall i, j | 0 <= i < |relations| && 0 <= j < |relations|
                  && UNIT_BELOW(relations[i], relations[j]) && UNIT_BELOW(relations[j], relations[i])
      ensures relations[i] == relations[j]
    {
      if i != j {
        assert Compatible(relations[i], relations[j]) || Compatible(relations[j], relations[i]);
        BelowAntisymmetric(relations[i].effective, relations[j].effective);
        assert false;
      }
    }
  }

  /**
   * Permuting the records, and reordering keys at any depth of any record, changes neither
   * acceptance nor the canonical list, hence not the fingerprint.
   */
  lemma RelationSetsCanonical(lex: Lexicon, records: seq<Json>, shuffled: seq<Json>, others: seq<Json>)
    requires multiset(records) == multiset(shuffled) && |shuffled| == |others|
    requires forall i :: 0 <= i < |shuffled| ==>
               WellFormed(shuffled[i]) && WellFormed(others[i]) && Reordered(shuffled[i], others[i])
    ensures CanonicalRecords(lex, records) == CanonicalRecords(lex, others)
  {
    hide Record, Consistent, WellFormed, Reordered, Accepted, ReadAll;
    ReadReordered(lex, shuffled, others);
    assert |multiset(records)| == |records| && |multiset(shuffled)| == |shuffled|;
    if Accepted(lex, records) {
      AcceptedPermuted(lex, records, shuffled);
      ReadPermuted(lex, records, shuffled);
      SetCanonical(ReadAll(lex, records), ReadAll(lex, others));
    }
    if Accepted(lex, shuffled) {
      AcceptedPermuted(lex, shuffled, records);
    }
  }

  lemma SetCanonical(relations: seq<Relation>, others: seq<Relation>)
    requires multiset(relations) == multiset(others)
    ensures Consistent(relations) <==> Consistent(others)
    ensures Consistent(relations) ==> Sort(relations, UNIT_BELOW) == Sort(others, UNIT_BELOW)
  {
    if Consistent(relations) {
      ConsistentPermuted(relations, others);
      KeyPreorder();
      PairwiseUnambiguous(relations);
      SortForgetsOrder(relations, others, UNIT_BELOW);
    }
    if Consistent(others) {
      ConsistentPermuted(others, relations);
    }
  }

  /** An accepted set is listed by strictly ascending effective unit: no unit occurs twice. */
  lemma EffectiveUnitsDistinct(lex: Lexicon, relationSet: Json, i: nat, j: nat)
    requires Canonical(lex, relationSet).Some? && i < j < |Canonical(lex, relationSet).value|
    ensures var canonical := Canonical(lex, relationSet).value;
            canonical[i].effective != canonical[j].effective && Below(canonical[i].effective, canonical[j].effective)
  {
    hide Record;
    var relations := ReadAll(lex, Get(relationSet.members, "records").value.items);
    SortedApart(relations, i, j);
  }

  lemma SortedApart(relations: seq<Relation>, i: nat, j: nat)
    requires Pairwise(relations) && i < j < |Sort(relations, UNIT_BELOW)|
    ensures var sorted := Sort(relations, UNIT_BELOW);
            sorted[i].effective != sorted[j].effective && Below(sorted[i].effective, sorted[j].effective)
  {
    var sorted := Sort(relations, UNIT_BELOW);
    SortPermutes(relations, UNIT_BELOW);
    PairwisePermuted(relations, sorted);
    KeyPreorder();
    SortSorts(relations, UNIT_BELOW);
    assert Compatible(sorted[i], sorted[j]);
    assert UNIT_BELOW(sorted[i], sorted[j]);
  }

  // ---- The loops' dictionaries -------------------------------------------------------------------

  datatype Entry = Entry(key: string, value: string)

  /** What a dictionary holds after these records have been through `d[key] = value`. */
  function Dict(relations: seq<Relation>, entry: Relation -> Option<Entry>): map<string, string> {
    if relations == [] then map[]
    else
      var n := |relations| - 1;
      var before, last := Dict(relations[..n], entry), entry(relations[n]);
      if last.Some? then before[last.value.key := last.value.value] else before
  }

  const SAMPLE_OF := (r: Relation) => Some(Entry(r.observation, r.sample))
  const UNIT_OF := (r: Relation) => Some(Entry(r.effective, r.observation))
  const TARGET_OF := (r: Relation) => if r.target.Some? then Some(Entry(r.sample, r.target.value)) else None
  const GROUP_OF := (r: Relation) => if r.group.Some? then Some(Entry(r.sample, r.group.value)) else None

  lemma {:induction false} DictHasKeys(relations: seq<Relation>, entry: Relation -> Option<Entry>, i: nat)
    requires i < |relations| && entry(relations[i]).Some?
    ensures entry(relations[i]).value.key in Dict(relations, entry)
  {
    var n := |relations| - 1;
    if i < n {
      DictHasKeys(relations[..n], entry, i);
    }
  }

  lemma {:induction false} DictFrom(relations: seq<Relation>, entry: Relation -> Option<Entry>, key: string)
      returns (i: nat)
    requires key in Dict(relations, entry)
    ensures i < |relations| && entry(relations[i]) == Some(Entry(key, Dict(relations, entry)[key]))
  {
    var n := |relations| - 1;
    if entry(relations[n]).Some? && entry(relations[n]).value.key == key {
      i := n;
    } else {
      i := DictFrom(relations[..n], entry, key);
    }
  }

  /** The first loop's checks against its dictionaries. */
  predicate Admits(samples: map<string, string>, units: map<string, string>,
                   targets: map<string, string>, groups: map<string, string>, r: Relation)
  {
    && r.observation !in samples
    && r.effective !in units
    && (r.target.Some? && r.sample in targets ==> targets[r.sample] == r.target.value)
    && (r.group.Some? && r.sample in groups ==> groups[r.sample] == r.group.value)
  }

  /** Records that make an entry under the same key make the same entry. */
  predicate Functional(relations: seq<Relation>, entry: Relation -> Option<Entry>) {
    forall i, j :: 0 <= i < |relations| && 0 <= j < |relations| ==> Agreeing(entry(relations[i]), entry(relations[j]))
  }

  predicate Agreeing(e: Option<Entry>, f: Option<Entry>) {
    e.Some? && f.Some? && e.value.key == f.value.key ==> e == f
  }

  predicate NoKey(relations: seq<Relation>, entry: Relation -> Option<Entry>, key: string) {
    forall i :: 0 <= i < |relations| && entry(relations[i]).Some? ==> entry(relations[i]).value.key != key
  }

  predicate AllAgree(relations: seq<Relation>, entry: Relation -> Option<Entry>, e: Entry) {
    forall i :: 0 <= i < |relations| ==> Agreeing(entry(relations[i]), Some(e))
  }

  /** A new entry that contradicts none in the dictionary contradicts no earlier record, and conversely. */
  lemma AgreesExactly(relations: seq<Relation>, entry: Relation -> Option<Entry>, e: Entry)
    requires Functional(relations, entry)
    ensures (e.key in Dict(relations, entry) ==> Dict(relations, entry)[e.key] == e.value)
            <==> AllAgree(relations, entry, e)
  {
    if e.key in Dict(relations, entry) {
      var k := DictFrom(relations, entry, e.key);
      forall i | 0 <= i < |relations| ensures Agreeing(entry(relations[i]), entry(relations[k])) {
      }
    }
    forall i | 0 <= i < |relations| && entry(relations[i]).Some?
      ensures entry(relations[i]).value.key in Dict(relations, entry)
    {
      DictHasKeys(relations, entry, i);
    }
  }

  lemma FreshExactly(relations: seq<Relation>, entry: Relation -> Option<Entry>, key: string)
    ensures key !in Dict(relations, entry) <==> NoKey(relations, entry, key)
  {
    if key in Dict(relations, entry) {
      var k := DictFrom(relations, entry, key);
    }
    forall i | 0 <= i < |relations| && entry(relations[i]).Some?
      ensures entry(relations[i]).value.key in Dict(relations, entry)
    {
      DictHasKeys(relations, entry, i);
    }
  }

  lemma PairwiseFunctional(relations: seq<Relation>)
    requires Pairwise(relations)
    ensures Functional(relations, TARGET_OF) && Functional(relations, GROUP_OF)
  {
    forall i, j | 0 <= i < |relations| && 0 <= j < |relations|
      ensures Agreeing(TARGET_OF(relations[i]), TARGET_OF(relations[j]))
              && Agreeing(GROUP_OF(relations[i]), GROUP_OF(relations[j]))
    {
      assert i < j ==> Compatible(relations[i], relations[j]);
      assert j < i ==> Compatible(relations[j], relations[i]);
    }
  }

  predicate CompatibleAll(relations: seq<Relation>, r: Relation) {
    forall i :: 0 <= i < |relations| ==> Compatible(relations[i], r)
  }

  /** The checks against the dictionaries are the checks against every earlier record. */
  lemma AdmitsExactly(relations: seq<Relation>, r: Relation)
    requires Pairwise(relations)
    ensures Admits(Dict(relations, SAMPLE_OF), Dict(relations, UNIT_OF), Dict(relations, TARGET_OF),
                   Dict(relations, GROUP_OF), r)
       <==> CompatibleAll(relations, r)
  {
    hide Pairwise, Functional, NoKey, AllAgree, CompatibleAll, Dict;
    PairwiseFunctional(relations);
    FreshExactly(relations, SAMPLE_OF, r.observation);
    FreshExactly(relations, UNIT_OF, r.effective);
    if r.target.Some? {
      AgreesExactly(relations, TARGET_OF, Entry(r.sample, r.target.value));
    }
    if r.group.Some? {
      AgreesExactly(relations, GROUP_OF, Entry(r.sample, r.group.value));
    }
    ByField(relations, r);
  }

  lemma ByField(relations: seq<Relation>, r: Relation)
    ensures CompatibleAll(relations, r) <==>
      && NoKey(relations, SAMPLE_OF, r.observation)
      && NoKey(relations, UNIT_OF, r.effective)
      && (r.target.Some? ==> AllAgree(relations, TARGET_OF, Entry(r.sample, r.target.value)))
      && (r.group.Some? ==> AllAgree(relations, GROUP_OF, Entry(r.sample, r.group.value)))
  {
    forall i | 0 <= i < |relations|
      ensures Compatible(relations[i], r) <==>
        && SAMPLE_OF(relations[i]).value.key != r.observation
        && UNIT_OF(relations[i]).value.key != r.effective
        && (r.target.Some? ==> Agreeing(TARGET_OF(relations[i]), Some(Entry(r.sample, r.target.value))))
        && (r.group.Some? ==> Agreeing(GROUP_OF(relations[i]), Some(Entry(r.sample, r.group.value))))
    {
    }
  }

  lemma PairwiseMore(relations: seq<Relation>, r: Relation)
    ensures Pairwise(relations + [r]) <==> Pairwise(relations) && CompatibleAll(relations, r)
  {
    var all := relations + [r];
    if Pairwise(all) {
      forall i, j | 0 <= i < j < |relations| ensures Compatible(relations[i], relations[j]) {
        assert Compatible(all[i], all[j]);
      }
      forall i | 0 <= i < |relations| ensures Compatible(relations[i], r) {
        assert Compatible(all[i], all[|relations|]);
      }
    }
  }

  lemma PairwisePrefix(relations: seq<Relation>, n: nat)
    requires n <= |relations| && Pairwise(relations)
    ensures Pairwise(relations[..n])
  {
  }

  lemma DictMore(relations: seq<Relation>, r: Relation, entry: Relation -> Option<Entry>)
    ensures Dict(relations + [r], entry)
         == if entry(r).Some? then Dict(relations, entry)[entry(r).value.key := entry(r).value.value]
             else Dict(relations, entry)
  {
    assert (relations + [r])[..|relations|] == relations;
  }

  lemma ReadMore(lex: Lexicon, records: seq<Json>, i: nat)
    requires i < |records| && Accepted(lex, records[..i]) && Record(lex, records[i]).Some?
    ensures Accepted(lex, records[..i + 1])
    ensures ReadAll(lex, records[..i + 1]) == ReadAll(lex, records[..i]) + [Record(lex, records[i]).value]
  {
    hide Record;
  }

  lemma ReadPrefix(lex: Lexicon, records: seq<Json>, n: nat)
    requires n <= |records| && Accepted(lex, records)
    ensures Accepted(lex, records[..n]) && ReadAll(lex, records[..n]) == ReadAll(lex, records)[..n]
  {
    hide Record;
  }

  // ---- The two loops ------------------------------------------------------------------------------

  /** The first loop: the canonical records and the samples by observation, or refusal. */
  method ReadRecords(lex: Lexicon, records: seq<Json>)
      returns (ok: bool, canonical: seq<Relation>, samples: map<string, string>)
    ensures ok <==> Accepted(lex, records) && Pairwise(ReadAll(lex, records))
    ensures ok ==> canonical == ReadAll(lex, records) && samples == Dict(canonical, SAMPLE_OF)
  {
    hide Record, Pairwise, Admits, Accepted, ReadAll, Dict, CompatibleAll;
    canonical, samples := [], map[];
    var units: map<string, string>, targets: map<string, string>, groups: map<string, string> := map[], map[], map[];
    NothingRead(lex, records);
    for i := 0 to |records|
      invariant Accepted(lex, records[..i]) && canonical == ReadAll(lex, records[..i]) && Pairwise(canonical)
      invariant samples == Dict(canonical, SAMPLE_OF) && units == Dict(canonical, UNIT_OF)
      invariant targets == Dict(canonical, TARGET_OF) && groups == Dict(canonical, GROUP_OF)
    {
      var read := Record(lex, records[i]);
      if read.None? {
        NotAccepted(lex, records, i);
        return false, canonical, samples;
      }
      var r := read.value;
      ReadMore(lex, records, i);
      AdmitsExactly(canonical, r);
      PairwiseMore(canonical, r);
      if !Admits(samples, units, targets, groups, r) {
        if Accepted(lex, records) && Pairwise(ReadAll(lex, records)) {
          ReadPrefix(lex, records, i + 1);
          PairwisePrefix(ReadAll(lex, records), i + 1);
          assert false;
        }
        return false, canonical, samples;
      }
      DictMore(canonical, r, SAMPLE_OF);
      DictMore(canonical, r, UNIT_OF);
      DictMore(canonical, r, TARGET_OF);
      DictMore(canonical, r, GROUP_OF);
      samples, units := samples[r.observation := r.sample], units[r.effective := r.observation];
      targets := if r.target.Some? then targets[r.sample := r.target.value] else targets;
      groups := if r.group.Some? then groups[r.sample := r.group.value] else groups;
      canonical := canonical + [r];
    }
    assert records[..|records|] == records;
    ok := true;
  }

  lemma NotAccepted(lex: Lexicon, records: seq<Json>, i: nat)
    requires i < |records| && Record(lex, records[i]).None?
    ensures !Accepted(lex, records)
  {
  }

  lemma NothingRead(lex: Lexicon, records: seq<Json>)
    ensures Accepted(lex, records[..0]) && ReadAll(lex, records[..0]) == [] && Pairwise([])
    ensures Dict([], SAMPLE_OF) == Dict([], UNIT_OF) == Dict([], TARGET_OF) == Dict([], GROUP_OF) == map[]
  {
  }

  lemma SameObservation(relations: seq<Relation>, i: nat, j: nat)
    requires Pairwise(relations) && i < |relations| && j < |relations|
    requires relations[i].observation == relations[j].observation
    ensures i == j
  {
    forall a, b | 0 <= a < b < |relations| ensures relations[a].observation != relations[b].observation {
      assert Compatible(relations[a], relations[b]);
    }
  }

  lemma ObservedExactly(relations: seq<Relation>, observation: string, sample: string)
    requires Pairwise(relations)
    ensures var samples := Dict(relations, SAMPLE_OF);
            Observed(relations, observation, sample) <==> observation in samples && samples[observation] == sample
  {
    if observation in Dict(relations, SAMPLE_OF) {
      var i := DictFrom(relations, SAMPLE_OF, observation);
      assert relations[i] in relations;
      if Observed(relations, observation, sample) {
        var r :| r in relations && r.observation == observation && r.sample == sample;
        var j :| 0 <= j < |relations| && relations[j] == r;
        SameObservation(relations, i, j);
      }
    } else {
      forall r | r in relations ensures r.observation != observation {
        var j :| 0 <= j < |relations| && relations[j] == r;
        if r.observation == observation {
          DictHasKeys(relations, SAMPLE_OF, j);
        }
      }
    }
  }

  /** The second loop's body: whether one combo's components are observations of its sample. */
  method CheckCombo(r: Relation, ghost relations: seq<Relation>, samples: map<string, string>) returns (ok: bool)
    requires samples == Dict(relations, SAMPLE_OF) && Pairwise(relations)
    ensures ok <==> ComboFits(r, relations)
  {
    hide Dict, Pairwise, Observed;
    if r.level != Combo {
      return true;
    }
    if r.components == [] || (r.origin.Some? && r.origin.value != r.sample) {
      return false;
    }
    for i := 0 to |r.components|
      invariant forall j :: 0 <= j < i ==>
                r.components[j] != r.observation && Observed(relations, r.components[j], r.sample)
    {
      var c := r.components[i];
      ObservedExactly(relations, c, r.sample);
      if c == r.observation || c !in samples || samples[c] != r.sample {
        assert c in r.components;
        return false;
      }
    }
    return true;
  }

  method CheckCombos(relations: seq<Relation>, samples: map<string, string>) returns (ok: bool)
    requires samples == Dict(relations, SAMPLE_OF) && Pairwise(relations)
    ensures ok <==> Consistent(relations)
  {
    hide Pairwise, ComboFits, Dict;
    for i := 0 to |relations|
      invariant forall j :: 0 <= j < i ==> ComboFits(relations[j], relations)
    {
      var fits := CheckCombo(relations[i], relations, samples);
      if !fits {
        assert relations[i] in relations;
        return false;
      }
    }
    return true;
  }

  /** `replay_relation_fingerprint`, up to the hash of its result. */
  method ReplayRelationFingerprint(lex: Lexicon, relationSet: Json) returns (canonical: Option<seq<Relation>>)
    ensures canonical == Canonical(lex, relationSet)
  {
    hide Record, Pairwise, ComboFits, Dict, Accepted, ReadAll;
    if !relationSet.Object? || !ExactKeys(relationSet.members, {"records"}, {}) {
      return None;
    }
    var records := Get(relationSet.members, "records").value;
    if !records.Array? || records.items == [] {
      return None;
    }
    var ok, relations, samples := ReadRecords(lex, records.items);
    if !ok {
      return None;
    }
    ok := CheckCombos(relations, samples);
    return if ok then Some(Sort(relations, UNIT_BELOW)) else None;
  }
}
