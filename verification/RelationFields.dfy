/** What a relation record is read as, member by member, and when it is accepted. */
module RelationFields {
  import opened Results
  import opened JsonValues
  import opened TextSort
  import opened RelationRecords
  import opened RelationSets

  // ---- Acceptance ----------------------------------------------------------------------------

  predicate Absent(v: Option<Json>) {
    v.None? || v.value.Null?
  }

  predicate IsText(v: Option<Json>, allowed: string -> bool) {
    v.Some? && v.value.Text? && allowed(v.value.t)
  }

  predicate MayBeText(v: Option<Json>, allowed: string -> bool) {
    Absent(v) || IsText(v, allowed)
  }

  /** Absent, or an array of different texts. */
  predicate MayBeTexts(v: Option<Json>, allowed: string -> bool) {
    v.Some? ==>
      && v.value.Array?
      && (forall x <- v.value.items :: x.Text? && allowed(x.t))
      && Distinct(v.value.items)
  }

  predicate MayBeWeight(v: Option<Json>) {
    Absent(v)
    || (v.value.Num? && match v.value.n
                        case Whole(i) => 0 < i < OVERFLOW
                        case Float(f) => f > 0.0
                        case NonFinite => false)
  }

  predicate Has(m: seq<Member>, name: string) {
    exists i :: 0 <= i < |m| && m[i].name == name
  }

  /** The record's level, "observation" where it names none. */
  function LevelName(m: seq<Member>): Option<string> {
    match Get(m, "unit_level")
    case None => Some("observation")
    case Some(Text(t)) => Some(t)
    case Some(_) => None
  }

  const FIELDS := {
    "observation_id", "sample_id", "unit_level", "unit_id", "source_id", "rep_id", "target_id", "group_id",
    "origin_sample_id", "derived_unit_id", "component_observation_ids", "sample_influence_weight", "quality_flag",
    "is_augmented", "excluded", "metadata", "tags"}

  predicate TextsAcceptable(lex: Lexicon, m: seq<Member>) {
    && IsText(Get(m, "observation_id"), lex.identifier) && IsText(Get(m, "sample_id"), lex.identifier)
    && MayBeText(Get(m, "rep_id"), lex.identifier) && MayBeText(Get(m, "target_id"), lex.identifier)
    && MayBeText(Get(m, "group_id"), lex.identifier) && MayBeText(Get(m, "origin_sample_id"), lex.identifier)
    && MayBeText(Get(m, "unit_id"), lex.filled) && MayBeText(Get(m, "source_id"), lex.filled)
    && MayBeText(Get(m, "derived_unit_id"), lex.filled) && MayBeText(Get(m, "quality_flag"), lex.filled)
  }

  predicate IsLevel(name: string) {
    name == "physical_sample" || name == "source_sample" || name == "observation" || name == "combo"
  }

  predicate LevelKnown(m: seq<Member>) {
    LevelName(m).Some? && IsLevel(LevelName(m).value)
  }

  predicate NoTexts(v: Option<Json>) {
    v == None || v == Some(Array([]))
  }

  predicate ListsAcceptable(lex: Lexicon, m: seq<Member>) {
    && LevelKnown(m)
    && MayBeTexts(Get(m, "component_observation_ids"), lex.identifier) && MayBeTexts(Get(m, "tags"), lex.filled)
    && (LevelName(m) != Some("combo") ==> NoTexts(Get(m, "component_observation_ids")))
  }

  predicate ValuesAcceptable(m: seq<Member>) {
    && MayBeWeight(Get(m, "sample_influence_weight"))
    && (Has(m, "is_augmented") ==> Get(m, "is_augmented").value.Bool?)
    && (Has(m, "excluded") ==> Get(m, "excluded").value.Bool?)
    && (Has(m, "metadata") ==> Get(m, "metadata").value.Object?)
  }

  predicate DetailsAcceptable(lex: Lexicon, m: seq<Member>) {
    ListsAcceptable(lex, m) && ValuesAcceptable(m)
  }

  /** Some member names the unit that the level asks for. */
  predicate UnitNamed(m: seq<Member>) {
    Absent(Get(m, "unit_id")) ==>
      && (LevelName(m) == Some("source_sample") ==> !Absent(Get(m, "source_id")))
      && (LevelName(m) == Some("combo") ==> !Absent(Get(m, "derived_unit_id")))
  }

  predicate Acceptable(lex: Lexicon, v: Json) {
    && v.Object?
    && (forall i :: 0 <= i < |v.members| ==> v.members[i].name in FIELDS)
    && TextsAcceptable(lex, v.members) && DetailsAcceptable(lex, v.members) && UnitNamed(v.members)
  }

  lemma {:induction false} TextsExactly(items: seq<Json>, allowed: string -> bool)
    ensures Texts(items, allowed).Some? <==> forall x <- items :: x.Text? && allowed(x.t)
    ensures Texts(items, allowed).Some? ==>
              && |Texts(items, allowed).value| == |items|
              && forall i :: 0 <= i < |items| ==> items[i] == Text(Texts(items, allowed).value[i])
  {
    if items != [] {
      TextsExactly(items[1..], allowed);
      assert items == [items[0]] + items[1..];
    }
  }

  lemma UniqueTextsExactly(v: Option<Json>, allowed: string -> bool)
    ensures UniqueTexts(v, allowed).Some? <==> MayBeTexts(v, allowed)
    ensures UniqueTexts(v, allowed).Some? ==>
              if v.None? then UniqueTexts(v, allowed).value == []
              else v.value == Array(seq(|UniqueTexts(v, allowed).value|,
                                        i requires 0 <= i < |UniqueTexts(v, allowed).value| =>
                                          Text(UniqueTexts(v, allowed).value[i])))
  {
    if v.Some? && v.value.Array? {
      TextsExactly(v.value.items, allowed);
      var texts := Texts(v.value.items, allowed);
      if texts.Some? {
        assert forall i :: 0 <= i < |texts.value| ==> v.value.items[i] == Text(texts.value[i]);
        assert v.value.items == seq(|texts.value|, i requires 0 <= i < |texts.value| => Text(texts.value[i]));
      }
    }
  }

  // ---- Fields -----------------------------------------------------------------------------------

  /** An optional text is the member's, null where the member is absent or null. */
  predicate TextOf(v: Option<Json>, value: Option<string>) {
    if Absent(v) then value == None else value.Some? && v.value == Text(value.value)
  }

  /** The array of a list of texts; an absent member is an empty one. */
  predicate TextsOf(v: Option<Json>, value: seq<string>) {
    if v.None? then value == []
    else v.value == Array(seq(|value|, i requires 0 <= i < |value| => Text(value[i])))
  }

  function LevelText(level: Level): string {
    match level
    case PhysicalSample => "physical_sample"
    case SourceSample => "source_sample"
    case Observation => "observation"
    case Combo => "combo"
  }

  predicate TextsRead(m: seq<Member>, r: Relation) {
    && Get(m, "observation_id") == Some(Text(r.observation)) && Get(m, "sample_id") == Some(Text(r.sample))
    && TextOf(Get(m, "unit_id"), r.unitId) && TextOf(Get(m, "source_id"), r.source)
    && TextOf(Get(m, "rep_id"), r.rep) && TextOf(Get(m, "target_id"), r.target)
    && TextOf(Get(m, "group_id"), r.group) && TextOf(Get(m, "origin_sample_id"), r.origin)
    && TextOf(Get(m, "derived_unit_id"), r.derived) && TextOf(Get(m, "quality_flag"), r.quality)
  }

  predicate ListsRead(m: seq<Member>, r: Relation) {
    && LevelName(m) == Some(LevelText(r.level))
    && TextsOf(Get(m, "component_observation_ids"), r.components) && TextsOf(Get(m, "tags"), r.tags)
  }

  predicate ValuesRead(m: seq<Member>, r: Relation) {
    && (if Absent(Get(m, "sample_influence_weight")) then r.weight == None
        else r.weight.Some? && Get(m, "sample_influence_weight") == Some(Num(r.weight.value)))
    && (if Has(m, "is_augmented") then Get(m, "is_augmented") == Some(Bool(r.augmented)) else !r.augmented)
    && (if Has(m, "excluded") then Get(m, "excluded") == Some(Bool(r.excluded)) else !r.excluded)
    && (if Has(m, "metadata") then Get(m, "metadata").Some? && r.metadata == SortedValue(Get(m, "metadata").value)
        else r.metadata == Object([]))
  }

  predicate DetailsRead(m: seq<Member>, r: Relation) {
    ListsRead(m, r) && ValuesRead(m, r)
  }

  /** Every field is the member of its own name, or that field's default. */
  predicate ReadsAs(m: seq<Member>, r: Relation) {
    TextsRead(m, r) && DetailsRead(m, r)
  }

  /** The unit id if there is one; otherwise what the level prescribes. */
  predicate StandsFor(m: seq<Member>, unit: string) {
    if !Absent(Get(m, "unit_id")) then Get(m, "unit_id") == Some(Text(unit))
    else if LevelName(m) == Some("physical_sample") then Get(m, "sample_id") == Some(Text(unit))
    else if LevelName(m) == Some("combo") then Get(m, "derived_unit_id") == Some(Text(unit))
    else if LevelName(m) == Some("source_sample") then
      var sample, source := Get(m, "sample_id"), Get(m, "source_id");
      && sample.Some? && sample.value.Text? && source.Some? && source.value.Text?
      && unit == sample.value.t + "::" + source.value.t
    else LevelName(m) == Some("observation") && Get(m, "observation_id") == Some(Text(unit))
  }

  // ---- Exactly ------------------------------------------------------------------------------------

  lemma OptionalTextExactly(v: Option<Json>, allowed: string -> bool)
    ensures OptionalText(v, allowed).Some? <==> MayBeText(v, allowed)
    ensures OptionalText(v, allowed).Some? ==> TextOf(v, OptionalText(v, allowed).value)
  {
  }

  lemma NamesExactly(lex: Lexicon, m: seq<Member>, r: Relation)
    ensures var n := ReadNames(lex, m);
            && (n.Complete() <==> TextsAcceptable(lex, m))
            && (n.Complete()
                && r.observation == n.observation.value && r.sample == n.sample.value && r.unitId == n.unitId.value
                && r.source == n.source.value && r.rep == n.rep.value && r.target == n.target.value
                && r.group == n.group.value && r.origin == n.origin.value && r.derived == n.derived.value
                && r.quality == n.quality.value
                ==> TextsRead(m, r))
  {
    OptionalTextExactly(Get(m, "rep_id"), lex.identifier);
    OptionalTextExactly(Get(m, "target_id"), lex.identifier);
    OptionalTextExactly(Get(m, "group_id"), lex.identifier);
    OptionalTextExactly(Get(m, "origin_sample_id"), lex.identifier);
    OptionalTextExactly(Get(m, "unit_id"), lex.filled);
    OptionalTextExactly(Get(m, "source_id"), lex.filled);
    OptionalTextExactly(Get(m, "derived_unit_id"), lex.filled);
    OptionalTextExactly(Get(m, "quality_flag"), lex.filled);
    hide OptionalText, MayBeText, TextOf, Get;
  }

  lemma LevelOfText(t: string)
    ensures ReadLevel(Some(Text(t))).Some? <==> IsLevel(t)
    ensures ReadLevel(Some(Text(t))).Some? ==> t == LevelText(ReadLevel(Some(Text(t))).value)
  {
  }

  lemma LevelExactly(m: seq<Member>)
    ensures var level := ReadLevel(Get(m, "unit_level"));
            && (level.Some? <==> LevelKnown(m))
            && (level.Some? ==> LevelName(m) == Some(LevelText(level.value)))
            && (level.Some? ==> (LevelName(m) == Some("combo") <==> level.value == Combo))
  {
    hide Get;
    var v := Get(m, "unit_level");
    if v.Some? && v.value.Text? {
      LevelOfText(v.value.t);
    }
    if ReadLevel(v).Some? {
      LevelsDiffer(ReadLevel(v).value);
    }
  }

  lemma WeightExactly(v: Option<Json>)
    ensures ReadWeight(v).Some? <==> MayBeWeight(v)
    ensures ReadWeight(v).Some? ==>
              if Absent(v) then ReadWeight(v).value == None
              else ReadWeight(v).value.Some? && v == Some(Num(ReadWeight(v).value.value))
  {
  }

  lemma FlagExactly(m: seq<Member>, name: string)
    ensures Has(m, name) <==> Get(m, name).Some?
    ensures ReadFlag(Get(m, name)).Some? <==> (Has(m, name) ==> Get(m, name).value.Bool?)
    ensures ReadFlag(Get(m, name)).Some? ==>
              if Has(m, name) then Get(m, name) == Some(Bool(ReadFlag(Get(m, name)).value))
              else !ReadFlag(Get(m, name)).value
  {
  }

  lemma LevelsDiffer(level: Level)
    ensures LevelText(level) == "combo" <==> level == Combo
    ensures LevelText(level) == "physical_sample" <==> level == PhysicalSample
    ensures LevelText(level) == "source_sample" <==> level == SourceSample
    ensures LevelText(level) == "observation" <==> level == Observation
  {
    assert |"combo"| == 5 && |"physical_sample"| == 15 && |"source_sample"| == 13 && |"observation"| == 11;
  }

  lemma MetadataExactly(m: seq<Member>)
    ensures var d := ReadMetadata(Get(m, "metadata"));
            && (d.Some? <==> (Has(m, "metadata") ==> Get(m, "metadata").value.Object?))
            && (d.Some? ==>
                  if Has(m, "metadata")
                  then Get(m, "metadata").Some? && d.value == SortedValue(Get(m, "metadata").value)
                  else d.value == Object([]))
  {
    hide SortedValue;
  }

  lemma ListsExactly(lex: Lexicon, m: seq<Member>, r: Relation)
    ensures var d := ReadDetails(lex, m);
            && ((d.level.Some? && d.components.Some? && d.tags.Some?
                 && (d.level.value != Combo ==> d.components.value == [])) <==> ListsAcceptable(lex, m))
            && (d.level == Some(r.level) && d.components == Some(r.components) && d.tags == Some(r.tags)
                ==> ListsRead(m, r))
  {
    var d := ReadDetails(lex, m);
    var components, tags := Get(m, "component_observation_ids"), Get(m, "tags");
    assert d.components == UniqueTexts(components, lex.identifier) && d.tags == UniqueTexts(tags, lex.filled);
    assert d.level == ReadLevel(Get(m, "unit_level"));
    LevelExactly(m);
    ListExactly(components, lex.identifier);
    ListExactly(tags, lex.filled);
    hide ReadDetails, Get, UniqueTexts, ReadLevel, LevelName, LevelText, MayBeTexts, LevelKnown, NoTexts, TextsOf;
  }

  lemma ListExactly(v: Option<Json>, allowed: string -> bool)
    ensures UniqueTexts(v, allowed).Some? <==> MayBeTexts(v, allowed)
    ensures UniqueTexts(v, allowed).Some? ==>
              && TextsOf(v, UniqueTexts(v, allowed).value)
              && (UniqueTexts(v, allowed).value == [] <==> NoTexts(v))
  {
    UniqueTextsExactly(v, allowed);
    NoComponents(v, UniqueTexts(v, allowed));
  }

  lemma ValuesExactly(lex: Lexicon, m: seq<Member>, r: Relation)
    ensures var d := ReadDetails(lex, m);
            && (d.weight.Some? && d.augmented.Some? && d.excluded.Some? && d.metadata.Some? <==> ValuesAcceptable(m))
            && (d.weight == Some(r.weight) && d.augmented == Some(r.augmented) && d.excluded == Some(r.excluded)
                && d.metadata == Some(r.metadata)
                ==> ValuesRead(m, r))
  {
    WeightExactly(Get(m, "sample_influence_weight"));
    FlagExactly(m, "is_augmented");
    FlagExactly(m, "excluded");
    MetadataExactly(m);
    hide Get, ReadWeight, ReadFlag, ReadMetadata, MayBeWeight, Absent, Has, SortedValue, UniqueTexts, ReadLevel;
  }

  lemma DetailsExactly(lex: Lexicon, m: seq<Member>, r: Relation)
    ensures var d := ReadDetails(lex, m);
            && (d.Complete() <==> DetailsAcceptable(lex, m))
            && (d.Complete()
                && r.level == d.level.value && r.components == d.components.value && r.weight == d.weight.value
                && r.augmented == d.augmented.value && r.excluded == d.excluded.value
                && r.metadata == d.metadata.value && r.tags == d.tags.value
                ==> DetailsRead(m, r))
  {
    ListsExactly(lex, m, r);
    ValuesExactly(lex, m, r);
    hide ReadDetails, ListsAcceptable, ValuesAcceptable, ListsRead, ValuesRead;
  }

  lemma NoComponents(v: Option<Json>, components: Option<seq<string>>)
    requires components.Some? ==> TextsOf(v, components.value)
    ensures components.Some? ==> (components.value == [] <==> NoTexts(v))
  {
    if components.Some? && v.Some? {
      assert |v.value.items| == |components.value|;
    }
  }

  lemma UnitExactly(m: seq<Member>, r: Relation)
    requires ReadsAs(m, r)
    ensures var unit := EffectiveUnit(r.level, r.unitId, r.observation, r.sample, r.source, r.derived);
            && (unit.Some? <==> UnitNamed(m))
            && (unit.Some? ==> StandsFor(m, unit.value))
  {
    LevelsDiffer(r.level);
    hide Get, LevelName, LevelText, Has;
  }

  lemma FieldNames()
    ensures REQUIRED + OPTIONAL == FIELDS
  {
  }

  lemma RequiredNames(m: seq<Member>)
    ensures (forall name <- REQUIRED :: Get(m, name).Some?)
       <==> Get(m, "observation_id").Some? && Get(m, "sample_id").Some?
  {
    hide Get;
  }

  lemma KeysExactly(m: seq<Member>)
    ensures ExactKeys(m, REQUIRED, OPTIONAL)
       <==> Get(m, "observation_id").Some? && Get(m, "sample_id").Some?
            && forall i :: 0 <= i < |m| ==> m[i].name in FIELDS
  {
    hide Get, FIELDS, REQUIRED, OPTIONAL;
    FieldNames();
    RequiredNames(m);
  }

  /** Exactly the acceptable records are read, each as its own members say. */
  lemma RecordExactly(lex: Lexicon, v: Json)
    ensures Record(lex, v).Some? <==> Acceptable(lex, v)
    ensures Record(lex, v).Some? ==>
              ReadsAs(v.members, Record(lex, v).value) && StandsFor(v.members, Record(lex, v).value.effective)
  {
    if v.Object? {
      var m := v.members;
      var n, d := ReadNames(lex, m), ReadDetails(lex, m);
      KeysExactly(m);
      RecordParts(lex, v);
      hide Record, FIELDS, REQUIRED, OPTIONAL, ExactKeys, Get, ReadNames, ReadDetails, TextsAcceptable,
           DetailsAcceptable, UnitNamed, StandsFor, TextsRead, DetailsRead, EffectiveUnit;
      if n.Complete() && d.Complete() {
        var r := Relation("", d.level.value, n.unitId.value, n.observation.value, n.sample.value, n.source.value,
                          n.rep.value, n.target.value, n.group.value, n.origin.value, n.derived.value,
                          d.components.value, d.weight.value, n.quality.value, d.augmented.value, d.excluded.value,
                          d.metadata.value, d.tags.value);
        NamesExactly(lex, m, r);
        DetailsExactly(lex, m, r);
        UnitExactly(m, r);
        if Record(lex, v).Some? {
          SameReading(m, r, Record(lex, v).value);
        }
      } else {
        NamesExactly(lex, m, NOTHING);
        DetailsExactly(lex, m, NOTHING);
      }
      RequiredPresent(lex, m);
    }
  }

  /** How a record is put together, once its parts are named. */
  lemma RecordParts(lex: Lexicon, v: Json)
    requires v.Object?
    ensures var n, d := ReadNames(lex, v.members), ReadDetails(lex, v.members);
            Record(lex, v) == if ExactKeys(v.members, REQUIRED, OPTIONAL) then Assembled(n, d) else None
  {
  }

  const NOTHING := Relation("", Observation, None, "", "", None, None, None, None, None, None, [], None, None, false,
                            false, Null, [])

  lemma RequiredPresent(lex: Lexicon, m: seq<Member>)
    ensures TextsAcceptable(lex, m) ==> Get(m, "observation_id").Some? && Get(m, "sample_id").Some?
  {
  }

  lemma SameReading(m: seq<Member>, r: Relation, s: Relation)
    requires ReadsAs(m, r) && s == r.(effective := s.effective)
    ensures ReadsAs(m, s)
  {
    hide Get, LevelName;
  }

  // ---- Consistency, said outright -------------------------------------------------------------------

  /** No two records share an observation or a unit. */
  predicate Unshared(relations: seq<Relation>) {
    forall i, j :: 0 <= i < |relations| && 0 <= j < |relations| && i != j ==>
      relations[i].observation != relations[j].observation && relations[i].effective != relations[j].effective
  }

  /** A sample has at most one target and at most one group. */
  predicate OnePerSample(relations: seq<Relation>) {
    forall r <- relations, s <- relations :: r.sample == s.sample ==>
      && (r.target == None || s.target == None || r.target == s.target)
      && (r.group == None || s.group == None || r.group == s.group)
  }

  /** A combo is made of other observations of its own sample, at least one. */
  predicate CombosMade(relations: seq<Relation>) {
    forall r <- relations :: r.level == Combo ==>
      && |r.components| > 0 && (r.origin == None || r.origin == Some(r.sample))
      && forall c <- r.components ::
           c != r.observation && exists s <- relations :: s.observation == c && s.sample == r.sample
  }

  lemma ConsistentExactly(relations: seq<Relation>)
    ensures Consistent(relations) <==> Unshared(relations) && OnePerSample(relations) && CombosMade(relations)
  {
    if Consistent(relations) {
      forall i, j | 0 <= i < |relations| && 0 <= j < |relations| && i != j
        ensures Compatible(relations[i], relations[j])
      {
        var a, b := if i < j then i else j, if i < j then j else i;
        assert Compatible(relations[a], relations[b]);
      }
      PairsAgree(relations);
      forall r | r in relations && r.level == Combo
        ensures |r.components| > 0 && (r.origin == None || r.origin == Some(r.sample))
        ensures forall c <- r.components ::
                  c != r.observation && exists s <- relations :: s.observation == c && s.sample == r.sample
      {
        assert ComboFits(r, relations);
      }
    }
    if Unshared(relations) && OnePerSample(relations) && CombosMade(relations) {
      forall i, j | 0 <= i < j < |relations| ensures Compatible(relations[i], relations[j]) {
        assert relations[i] in relations && relations[j] in relations;
      }
      forall r | r in relations ensures ComboFits(r, relations) {
      }
    }
  }

  lemma PairsAgree(relations: seq<Relation>)
    requires forall i, j :: 0 <= i < |relations| && 0 <= j < |relations| && i != j ==>
               Compatible(relations[i], relations[j])
    ensures OnePerSample(relations)
  {
    forall r, s | r in relations && s in relations && r.sample == s.sample
      ensures r.target == None || s.target == None || r.target == s.target
      ensures r.group == None || s.group == None || r.group == s.group
    {
      var i :| 0 <= i < |relations| && relations[i] == r;
      var j :| 0 <= j < |relations| && relations[j] == s;
      if i != j {
        assert Compatible(relations[i], relations[j]);
      }
    }
  }

  // ---- Whole sets ---------------------------------------------------------------------------------

  /** Exactly the consistent sets of acceptable records are listed, once each and by ascending unit. */
  lemma CanonicalExactly(lex: Lexicon, relationSet: Json)
    ensures var r := Canonical(lex, relationSet);
            && (r.Some? <==>
                  && relationSet.Object? && Has(relationSet.members, "records")
                  && (forall i :: 0 <= i < |relationSet.members| ==> relationSet.members[i].name == "records")
                  && var records := Get(relationSet.members, "records").value;
                     && records.Array? && records.items != []
                     && (forall i :: 0 <= i < |records.items| ==> Acceptable(lex, records.items[i]))
                     && Accepted(lex, records.items)
                     && var relations := ReadAll(lex, records.items);
                        Unshared(relations) && OnePerSample(relations) && CombosMade(relations))
            && (r.Some? ==>
                  var relations := ReadAll(lex, Get(relationSet.members, "records").value.items);
                  && multiset(r.value) == multiset(relations)
                  && forall i, j :: 0 <= i < j < |r.value| ==> KeyBelow(r.value[i], r.value[j]))
  {
    hide Record, Acceptable, Consistent, KeyBelow, Get, Sort, Unshared, OnePerSample, CombosMade;
    if relationSet.Object? {
      RecordsOnly(relationSet.members);
      if Has(relationSet.members, "records") && Get(relationSet.members, "records").value.Array? {
        var records := Get(relationSet.members, "records").value.items;
        forall i | 0 <= i < |records| ensures Acceptable(lex, records[i]) <==> Record(lex, records[i]).Some? {
          RecordExactly(lex, records[i]);
        }
        if Accepted(lex, records) {
          ConsistentExactly(ReadAll(lex, records));
          KeyPreorder();
          SortPermutes(ReadAll(lex, records), UNIT_BELOW);
          SortSorts(ReadAll(lex, records), UNIT_BELOW);
        }
      }
    }
  }

  lemma RecordsOnly(m: seq<Member>)
    ensures ExactKeys(m, {"records"}, {})
       <==> Has(m, "records") && forall i :: 0 <= i < |m| ==> m[i].name == "records"
    ensures Has(m, "records") ==> Get(m, "records").Some?
  {
  }

  function Repetition(observation: string, sample: string): Json {
    Object([Member("observation_id", Text(observation)), Member("sample_id", Text(sample))])
  }

  function Plain(observation: string, sample: string): Relation {
    Relation(observation, Observation, None, observation, sample, None, None, None, None, None, None, [],
             None, None, false, false, Object([]), [])
  }

  /** Nothing but an observation and a sample. */
  predicate Bare(m: seq<Member>, observation: string, sample: string) {
    && Get(m, "observation_id") == Some(Text(observation)) && Get(m, "sample_id") == Some(Text(sample))
    && Get(m, "unit_level") == None && Get(m, "unit_id") == None && Get(m, "source_id") == None
    && Get(m, "rep_id") == None && Get(m, "target_id") == None && Get(m, "group_id") == None
    && Get(m, "origin_sample_id") == None && Get(m, "derived_unit_id") == None && Get(m, "quality_flag") == None
    && Get(m, "component_observation_ids") == None && Get(m, "tags") == None
    && Get(m, "sample_influence_weight") == None
    && Get(m, "is_augmented") == None && Get(m, "excluded") == None && Get(m, "metadata") == None
  }

  lemma GetOfTwo(a: Member, b: Member, name: string)
    ensures Get([a, b], name)
         == if name == a.name then Some(a.value) else if name == b.name then Some(b.value) else None
  {
    assert [a, b][1..] == [b] && [b][1..] == [];
  }

  lemma OtherName(observation: string, sample: string, name: string)
    requires name != "observation_id" && name != "sample_id"
    ensures Get(Repetition(observation, sample).members, name) == None
  {
    GetOfTwo(Member("observation_id", Text(observation)), Member("sample_id", Text(sample)), name);
  }

  lemma NoOtherTexts(observation: string, sample: string)
    ensures var m := Repetition(observation, sample).members;
            && Get(m, "unit_level") == None && Get(m, "unit_id") == None && Get(m, "source_id") == None
            && Get(m, "rep_id") == None && Get(m, "target_id") == None && Get(m, "group_id") == None
  {
    hide Get, Repetition;
    assert "source_id"[1] != "sample_id"[1] && "target_id"[0] != "sample_id"[0];
    OtherName(observation, sample, "unit_level");
    OtherName(observation, sample, "unit_id");
    OtherName(observation, sample, "source_id");
    OtherName(observation, sample, "rep_id");
    OtherName(observation, sample, "target_id");
    OtherName(observation, sample, "group_id");
  }

  lemma NoOtherNames(observation: string, sample: string)
    ensures var m := Repetition(observation, sample).members;
            && Get(m, "origin_sample_id") == None && Get(m, "derived_unit_id") == None && Get(m, "quality_flag") == None
            && Get(m, "component_observation_ids") == None && Get(m, "tags") == None
  {
    hide Get, Repetition;
    OtherName(observation, sample, "origin_sample_id");
    OtherName(observation, sample, "derived_unit_id");
    OtherName(observation, sample, "quality_flag");
    OtherName(observation, sample, "component_observation_ids");
    OtherName(observation, sample, "tags");
  }

  lemma NoOtherValues(observation: string, sample: string)
    ensures var m := Repetition(observation, sample).members;
            && Get(m, "sample_influence_weight") == None && Get(m, "is_augmented") == None
            && Get(m, "excluded") == None && Get(m, "metadata") == None
  {
    hide Get, Repetition;
    OtherName(observation, sample, "sample_influence_weight");
    OtherName(observation, sample, "is_augmented");
    OtherName(observation, sample, "excluded");
    OtherName(observation, sample, "metadata");
  }

  lemma RepetitionBare(observation: string, sample: string)
    ensures Bare(Repetition(observation, sample).members, observation, sample)
  {
    var a, b := Member("observation_id", Text(observation)), Member("sample_id", Text(sample));
    assert |a.name| != |b.name|;
    GetOfTwo(a, b, a.name);
    GetOfTwo(a, b, b.name);
    hide Get;
    NoOtherTexts(observation, sample);
    NoOtherNames(observation, sample);
    NoOtherValues(observation, sample);
  }

  lemma BareAcceptable(lex: Lexicon, m: seq<Member>, observation: string, sample: string)
    requires Bare(m, observation, sample) && lex.identifier(observation) && lex.identifier(sample)
    ensures TextsAcceptable(lex, m) && DetailsAcceptable(lex, m) && UnitNamed(m)
  {
    FlagExactly(m, "is_augmented");
    FlagExactly(m, "excluded");
    FlagExactly(m, "metadata");
    LevelsDiffer(Observation);
    hide Get, Has;
  }

  lemma BareRead(m: seq<Member>, observation: string, sample: string, r: Relation)
    requires Bare(m, observation, sample) && ReadsAs(m, r) && StandsFor(m, r.effective)
    ensures r == Plain(observation, sample)
  {
    FlagExactly(m, "is_augmented");
    FlagExactly(m, "excluded");
    FlagExactly(m, "metadata");
    LevelsDiffer(r.level);
    LevelsDiffer(Observation);
    hide Get, Has;
  }

  lemma RepetitionRead(lex: Lexicon, observation: string, sample: string)
    requires lex.identifier(observation) && lex.identifier(sample)
    ensures Record(lex, Repetition(observation, sample)) == Some(Plain(observation, sample))
  {
    var v := Repetition(observation, sample);
    assert v.members[0].name in FIELDS && v.members[1].name in FIELDS;
    hide FIELDS, Get, Record, TextsAcceptable, DetailsAcceptable, UnitNamed, Bare, ReadsAs, StandsFor, Plain;
    RepetitionBare(observation, sample);
    BareAcceptable(lex, v.members, observation, sample);
    RecordExactly(lex, v);
    BareRead(v.members, observation, sample, Record(lex, v).value);
  }

  lemma PairSwapped<T>(x: T, y: T, le: (T, T) -> bool)
    requires !le(x, y)
    ensures Sort([x, y], le) == [y, x]
  {
    var nothing: seq<T> := [];
    assert [x, y][1..] == [y] && [y][1..] == nothing;
    assert Insert(y, nothing, le) == [y] && Insert(x, nothing, le) == [x];
    assert Sort([y], le) == [y];
    assert [y][1..] == nothing;
  }

  lemma PlainPair()
    ensures Consistent([Plain("o2", "s1"), Plain("o1", "s1")])
    ensures !UNIT_BELOW(Plain("o2", "s1"), Plain("o1", "s1"))
  {
    assert "o2"[1] != "o1"[1] && "o2"[1..] == "2" && "o1"[1..] == "1";
  }

  /** Two repetitions of one sample, without a level: accepted, each as its own unit. */
  lemma RepetitionsAccepted(lex: Lexicon)
    requires lex.identifier("o1") && lex.identifier("o2") && lex.identifier("s1")
    ensures Canonical(lex, Object([Member("records", Array([Repetition("o2", "s1"), Repetition("o1", "s1")]))]))
         == Some([Plain("o1", "s1"), Plain("o2", "s1")])
  {
    RepetitionRead(lex, "o1", "s1");
    RepetitionRead(lex, "o2", "s1");
    PlainPair();
    PairSwapped(Plain("o2", "s1"), Plain("o1", "s1"), UNIT_BELOW);
    var x, y := Repetition("o2", "s1"), Repetition("o1", "s1");
    var p, q := Plain("o2", "s1"), Plain("o1", "s1");
    ListedSwapped(lex, x, y, p, q);
  }

  lemma ReadPair(lex: Lexicon, x: Json, y: Json, p: Relation, q: Relation)
    requires Record(lex, x) == Some(p) && Record(lex, y) == Some(q)
    ensures Accepted(lex, [x, y]) && ReadAll(lex, [x, y]) == [p, q]
  {
    hide Record;
    assert Accepted(lex, [x, y]);
    assert ReadAll(lex, [x, y]) == [p, q];
  }

  lemma OnlyRecords(value: Json)
    ensures var m := [Member("records", value)]; ExactKeys(m, {"records"}, {}) && Get(m, "records") == Some(value)
  {
    var m := [Member("records", value)];
    assert m[0].name == "records";
    hide Get;
    RecordsOnly(m);
  }

  lemma ListedSwapped(lex: Lexicon, x: Json, y: Json, p: Relation, q: Relation)
    requires Record(lex, x) == Some(p) && Record(lex, y) == Some(q) && Consistent([p, q])
    requires Sort([p, q], UNIT_BELOW) == [q, p]
    ensures Canonical(lex, Object([Member("records", Array([x, y]))])) == Some([q, p])
  {
    hide Record, Consistent, Sort, ExactKeys, Get, Accepted, ReadAll;
    OnlyRecords(Array([x, y]));
    ReadPair(lex, x, y, p, q);
  }
}
