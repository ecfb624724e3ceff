/** Reading one coordinator relation record. */
module RelationRecords {
  import opened Results
  import opened JsonValues
  import StateFrames

  datatype Level = PhysicalSample | SourceSample | Observation | Combo

  /** The canonical record: the record's fields with their defaults, and its effective unit. */
  datatype Relation = Relation(
    effective: string,
    level: Level,
    unitId: Option<string>,
    observation: string,
    sample: string,
    source: Option<string>,
    rep: Option<string>,
    target: Option<string>,
    group: Option<string>,
    origin: Option<string>,
    derived: Option<string>,
    components: seq<string>,
    weight: Option<Number>,
    quality: Option<string>,
    augmented: bool,
    excluded: bool,
    metadata: Json,
    tags: seq<string>)

  /** Which texts are DAG-ML identifiers, and which are not blank once stripped. */
  datatype Lexicon = Lexicon(identifier: string -> bool, filled: string -> bool)

  const REQUIRED := {"observation_id", "sample_id"}
  const OPTIONAL := {"unit_level", "unit_id", "source_id", "rep_id", "target_id", "group_id", "origin_sample_id",
                     "derived_unit_id", "component_observation_ids", "sample_influence_weight", "quality_flag",
                     "is_augmented", "excluded", "metadata", "tags"}

  /** `require_exact_keys`. */
  predicate ExactKeys(members: seq<Member>, required: set<string>, optional: set<string>) {
    && (forall name <- required :: Get(members, name).Some?)
    && (forall i :: 0 <= i < |members| ==> members[i].name in required + optional)
  }

  // ---- Fields: None where the source refuses the record ----------------------------------

  function RequiredId(lex: Lexicon, v: Option<Json>): Option<string> {
    if v.Some? && v.value.Text? && lex.identifier(v.value.t) then Some(v.value.t) else None
  }

  function OptionalText(v: Option<Json>, allowed: string -> bool): Option<Option<string>> {
    if v.None? || v.value.Null? then Some(None)
    else if v.value.Text? && allowed(v.value.t) then Some(Some(v.value.t))
    else None
  }

  function ReadLevel(v: Option<Json>): Option<Level> {
    if v.None? then Some(Observation)
    else if v.value == Text("physical_sample") then Some(PhysicalSample)
    else if v.value == Text("source_sample") then Some(SourceSample)
    else if v.value == Text("observation") then Some(Observation)
    else if v.value == Text("combo") then Some(Combo)
    else None
  }

  function Texts(items: seq<Json>, allowed: string -> bool): Option<seq<string>> {
    if items == [] then Some([])
    else
      var rest := Texts(items[1..], allowed);
      if rest.Some? && items[0].Text? && allowed(items[0].t) then Some([items[0].t] + rest.value) else None
  }

  /** A list of different texts; an absent one is empty. */
  function UniqueTexts(v: Option<Json>, allowed: string -> bool): Option<seq<string>> {
    if v.None? then Some([])
    else if !v.value.Array? then None
    else
      var texts := Texts(v.value.items, allowed);
      if texts.Some? && Distinct(texts.value) then texts else None
  }

  /** From here on an integer rounds to no binary64 value, and asking whether it is finite raises. */
  const OVERFLOW: int := StateFrames.Pow2(1024) - StateFrames.Pow2(970)

  function ReadWeight(v: Option<Json>): Option<Option<Number>> {
    if v.None? || v.value.Null? then Some(None)
    else
      match v.value
      case Num(Whole(i)) => if 0 < i < OVERFLOW then Some(Some(Whole(i))) else None
      case Num(Float(f)) => if f > 0.0 then Some(Some(Float(f))) else None
      case _ => None
  }

  function ReadFlag(v: Option<Json>): Option<bool> {
    if v.None? then Some(false) else if v.value.Bool? then Some(v.value.b) else None
  }

  function ReadMetadata(v: Option<Json>): Option<Json> {
    if v.None? then Some(Object([])) else if v.value.Object? then Some(SortedValue(v.value)) else None
  }

  /** The unit a record stands for: its own unit id, or what its level prescribes. */
  function EffectiveUnit(level: Level, unitId: Option<string>, observation: string, sample: string,
                         source: Option<string>, derived: Option<string>): Option<string>
  {
    if unitId.Some? then unitId
    else
      match level
      case PhysicalSample => Some(sample)
      case SourceSample => if source.Some? then Some(sample + "::" + source.value) else None
      case Combo => derived
      case Observation => Some(observation)
  }

  /** The texts of a record: required and optional identifiers, then optional non-blank texts. */
  datatype Names = Names(
    observation: Option<string>, sample: Option<string>,
    rep: Option<Option<string>>, target: Option<Option<string>>, group: Option<Option<string>>,
    origin: Option<Option<string>>,
    unitId: Option<Option<string>>, source: Option<Option<string>>, derived: Option<Option<string>>,
    quality: Option<Option<string>>)
  {
    predicate Complete() {
      && observation.Some? && sample.Some? && rep.Some? && target.Some? && group.Some? && origin.Some?
      && unitId.Some? && source.Some? && derived.Some? && quality.Some?
    }
  }

  function ReadNames(lex: Lexicon, m: seq<Member>): Names {
    Names(RequiredId(lex, Get(m, "observation_id")), RequiredId(lex, Get(m, "sample_id")),
          OptionalText(Get(m, "rep_id"), lex.identifier), OptionalText(Get(m, "target_id"), lex.identifier),
          OptionalText(Get(m, "group_id"), lex.identifier), OptionalText(Get(m, "origin_sample_id"), lex.identifier),
          OptionalText(Get(m, "unit_id"), lex.filled), OptionalText(Get(m, "source_id"), lex.filled),
          OptionalText(Get(m, "derived_unit_id"), lex.filled), OptionalText(Get(m, "quality_flag"), lex.filled))
  }

  datatype Details = Details(level: Option<Level>, components: Option<seq<string>>, weight: Option<Option<Number>>,
                             augmented: Option<bool>, excluded: Option<bool>, metadata: Option<Json>,
                             tags: Option<seq<string>>)
  {
    predicate Complete() {
      && level.Some? && components.Some? && weight.Some? && augmented.Some? && excluded.Some? && metadata.Some?
      && tags.Some?
      && (level.value != Combo ==> components.value == [])
    }
  }

  function ReadDetails(lex: Lexicon, m: seq<Member>): Details {
    Details(ReadLevel(Get(m, "unit_level")), UniqueTexts(Get(m, "component_observation_ids"), lex.identifier),
            ReadWeight(Get(m, "sample_influence_weight")), ReadFlag(Get(m, "is_augmented")),
            ReadFlag(Get(m, "excluded")),
            ReadMetadata(Get(m, "metadata")), UniqueTexts(Get(m, "tags"), lex.filled))
  }

  /** The canonical record of fields that were all accepted. */
  function Assembled(n: Names, d: Details): Option<Relation> {
    if !n.Complete() || !d.Complete() then None
    else
      var effective := EffectiveUnit(d.level.value, n.unitId.value, n.observation.value, n.sample.value,
                                     n.source.value, n.derived.value);
      if effective.None? then None
      else Some(Relation(effective.value, d.level.value, n.unitId.value, n.observation.value, n.sample.value,
                         n.source.value, n.rep.value, n.target.value, n.group.value, n.origin.value, n.derived.value,
                         d.components.value, d.weight.value, n.quality.value, d.augmented.value, d.excluded.value,
                         d.metadata.value, d.tags.value))
  }

  /** One pass of the first loop, as far as it looks at the record alone. */
  function Record(lex: Lexicon, v: Json): Option<Relation> {
    if !v.Object? || !ExactKeys(v.members, REQUIRED, OPTIONAL) then None
    else Assembled(ReadNames(lex, v.members), ReadDetails(lex, v.members))
  }

  // ---- The order of keys does not matter ------------------------------------------------------

  lemma {:induction false} CoveredGet(members: seq<Member>, others: seq<Member>, name: string)
    requires Covered(members, others) && Get(members, name).Some?
    ensures Get(others, name).Some? && Reordered(Get(members, name).value, Get(others, name).value)
  {
    if members[0].name != name {
      CoveredGet(members[1..], others, name);
    }
  }

  /** The same field of two reordered records. */
  predicate SameField(v: Option<Json>, w: Option<Json>) {
    && (v.None? <==> w.None?)
    && (v.Some? ==> Reordered(v.value, w.value) && WellFormed(v.value) && WellFormed(w.value))
  }

  lemma ReorderedBack(v: Json, w: Json)
    requires WellFormed(v) && WellFormed(w) && Reordered(v, w)
    ensures Reordered(w, v)
  {
    SortedIffReordered(v, w);
    SortedIffReordered(w, v);
  }

  lemma FieldsSame(v: Json, w: Json, name: string)
    requires v.Object? && w.Object? && WellFormed(v) && WellFormed(w) && Reordered(v, w)
    ensures SameField(Get(v.members, name), Get(w.members, name))
  {
    var a, b := Get(v.members, name), Get(w.members, name);
    ReorderedBack(v, w);
    if a.Some? {
      CoveredGet(v.members, w.members, name);
      var i :| 0 <= i < |v.members| && v.members[i] == Member(name, a.value);
    }
    if b.Some? {
      CoveredGet(w.members, v.members, name);
      var i :| 0 <= i < |w.members| && w.members[i] == Member(name, b.value);
    }
  }

  lemma {:induction false} TextsSame(items: seq<Json>, others: seq<Json>, allowed: string -> bool)
    requires ReorderedItems(items, others)
    ensures Texts(items, allowed) == Texts(others, allowed)
  {
    if items != [] {
      TextsSame(items[1..], others[1..], allowed);
    }
  }

  lemma UniqueTextsSame(v: Option<Json>, w: Option<Json>, allowed: string -> bool)
    requires SameField(v, w)
    ensures UniqueTexts(v, allowed) == UniqueTexts(w, allowed)
  {
    if v.Some? && v.value.Array? {
      TextsSame(v.value.items, w.value.items, allowed);
    }
  }

  lemma MetadataSame(v: Option<Json>, w: Option<Json>)
    requires SameField(v, w)
    ensures ReadMetadata(v) == ReadMetadata(w)
  {
    if v.Some? {
      SortedIffReordered(v.value, w.value);
    }
  }

  /** Fields that are equal, or are both lists or both objects. */
  predicate SameText(v: Option<Json>, w: Option<Json>) {
    v == w || (v.Some? && w.Some? && ((v.value.Array? && w.value.Array?) || (v.value.Object? && w.value.Object?)))
  }

  lemma ScalarsSame(v: Json, w: Json, name: string)
    requires v.Object? && w.Object? && WellFormed(v) && WellFormed(w) && Reordered(v, w)
    ensures SameText(Get(v.members, name), Get(w.members, name))
  {
    FieldsSame(v, w, name);
  }

  lemma RequiredSame(lex: Lexicon, v: Json, w: Json, name: string)
    requires v.Object? && w.Object? && WellFormed(v) && WellFormed(w) && Reordered(v, w)
    ensures RequiredId(lex, Get(v.members, name)) == RequiredId(lex, Get(w.members, name))
  {
    ScalarsSame(v, w, name);
  }

  lemma OptionalSame(v: Json, w: Json, name: string, allowed: string -> bool)
    requires v.Object? && w.Object? && WellFormed(v) && WellFormed(w) && Reordered(v, w)
    ensures OptionalText(Get(v.members, name), allowed) == OptionalText(Get(w.members, name), allowed)
  {
    ScalarsSame(v, w, name);
  }

  lemma NamesSame(lex: Lexicon, v: Json, w: Json)
    requires v.Object? && w.Object? && WellFormed(v) && WellFormed(w) && Reordered(v, w)
    ensures ReadNames(lex, v.members) == ReadNames(lex, w.members)
  {
    hide Reordered, WellFormed, Get, OptionalText, RequiredId;
    RequiredSame(lex, v, w, "observation_id");
    RequiredSame(lex, v, w, "sample_id");
    OptionalSame(v, w, "rep_id", lex.identifier);
    OptionalSame(v, w, "target_id", lex.identifier);
    OptionalSame(v, w, "group_id", lex.identifier);
    OptionalSame(v, w, "origin_sample_id", lex.identifier);
    OptionalSame(v, w, "unit_id", lex.filled);
    OptionalSame(v, w, "source_id", lex.filled);
    OptionalSame(v, w, "derived_unit_id", lex.filled);
    OptionalSame(v, w, "quality_flag", lex.filled);
  }

  lemma UniqueSame(v: Json, w: Json, name: string, allowed: string -> bool)
    requires v.Object? && w.Object? && WellFormed(v) && WellFormed(w) && Reordered(v, w)
    ensures UniqueTexts(Get(v.members, name), allowed) == UniqueTexts(Get(w.members, name), allowed)
  {
    FieldsSame(v, w, name);
    UniqueTextsSame(Get(v.members, name), Get(w.members, name), allowed);
  }

  lemma FlagsSame(v: Json, w: Json)
    requires v.Object? && w.Object? && WellFormed(v) && WellFormed(w) && Reordered(v, w)
    ensures ReadFlag(Get(v.members, "is_augmented")) == ReadFlag(Get(w.members, "is_augmented"))
    ensures ReadFlag(Get(v.members, "excluded")) == ReadFlag(Get(w.members, "excluded"))
  {
    hide Reordered, WellFormed, Get;
    ScalarsSame(v, w, "is_augmented");
    ScalarsSame(v, w, "excluded");
  }

  lemma LevelSame(v: Json, w: Json, name: string)
    requires v.Object? && w.Object? && WellFormed(v) && WellFormed(w) && Reordered(v, w)
    ensures ReadLevel(Get(v.members, name)) == ReadLevel(Get(w.members, name))
    ensures ReadWeight(Get(v.members, name)) == ReadWeight(Get(w.members, name))
  {
    hide Reordered, WellFormed, Get;
    ScalarsSame(v, w, name);
  }

  lemma DetailsSame(lex: Lexicon, v: Json, w: Json)
    requires v.Object? && w.Object? && WellFormed(v) && WellFormed(w) && Reordered(v, w)
    ensures ReadDetails(lex, v.members) == ReadDetails(lex, w.members)
  {
    hide Reordered, WellFormed, Get, UniqueTexts, ReadFlag, ReadLevel, ReadWeight, ReadMetadata, SameField;
    UniqueSame(v, w, "component_observation_ids", lex.identifier);
    UniqueSame(v, w, "tags", lex.filled);
    FieldsSame(v, w, "metadata");
    MetadataSame(Get(v.members, "metadata"), Get(w.members, "metadata"));
    LevelSame(v, w, "unit_level");
    LevelSame(v, w, "sample_influence_weight");
    FlagsSame(v, w);
  }

  lemma KeysSame(v: Json, w: Json)
    requires v.Object? && w.Object? && WellFormed(v) && WellFormed(w) && Reordered(v, w)
    requires ExactKeys(v.members, REQUIRED, OPTIONAL)
    ensures ExactKeys(w.members, REQUIRED, OPTIONAL)
  {
    forall name: string ensures SameField(Get(v.members, name), Get(w.members, name)) {
      FieldsSame(v, w, name);
    }
    forall i | 0 <= i < |w.members| ensures w.members[i].name in REQUIRED + OPTIONAL {
      assert SameField(Get(v.members, w.members[i].name), Get(w.members, w.members[i].name));
    }
  }

  /** Reordering the keys of a record, at any depth, changes neither its acceptance nor its canonical record. */
  lemma RecordReordered(lex: Lexicon, v: Json, w: Json)
    requires WellFormed(v) && WellFormed(w) && Reordered(v, w)
    ensures Record(lex, v) == Record(lex, w)
  {
    if v.Object? {
      hide ExactKeys, ReadNames, ReadDetails, Assembled;
      ReorderedBack(v, w);
      NamesSame(lex, v, w);
      DetailsSame(lex, v, w);
      if ExactKeys(v.members, REQUIRED, OPTIONAL) {
        KeysSame(v, w);
      }
      if ExactKeys(w.members, REQUIRED, OPTIONAL) {
        KeysSame(w, v);
      }
    }
  }
}
