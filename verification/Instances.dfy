/** Small inputs that meet the hypotheses of main theorems whose premises are not reached by a method of their own. */
module Instances {
  import opened Results
  import ArchiveBinding
  import RecipeCodec
  import ReplayLineage
  import RustJoins
  import RustPieces
  import SchemaDependencies
  import SchemaGraph
  import SchemaWalk
  import Upstream

  /** The classes of Python, restricted to ASCII. */
  const ASCII := RustPieces.Alphabet(
    c => c == ' ' || '\t' <= c <= '\r' || '\U{1C}' <= c <= '\U{1F}',
    c => '0' <= c <= '9' || 'A' <= c <= 'Z' || 'a' <= c <= 'z' || c == '_')

  lemma AsciiUsual()
    ensures RustJoins.Usual(ASCII)
  {
  }

  const SELF := "a.schema.json"
  const REPOSITORY := SchemaDependencies.Repository(
    map[SELF := [Some(SELF)]], raw => if raw == SELF then Some(SELF) else None)

  /** A schema that refers to itself: indexed, reachable, and a cycle. */
  lemma SelfReference()
    ensures SchemaDependencies.Indexed(REPOSITORY)
    ensures SchemaDependencies.CycleWithin(REPOSITORY.links, {SELF}, [SELF, SELF])
    ensures SchemaWalk.Closes({[SELF, SELF]}, SELF, SELF)
  {
    assert SELF[|SELF| - |SchemaDependencies.SUFFIX|..] == SchemaDependencies.SUFFIX;
    assert Some(SELF) in REPOSITORY.links[SELF];
    assert SchemaGraph.Walk(REPOSITORY.links, [SELF, SELF]);
    SchemaGraph.SeedReachable(REPOSITORY.links, {SELF}, SELF);
    assert [SELF, SELF] in {[SELF, SELF]};
  }

  const RECIPE := RecipeCodec.Recipe(2, 100, [[65]], map[[65] := RecipeCodec.StandardScaler],
                                        map[[65] := [0, 0, 0, 0, 0, 0, 0xF0, 0x3F]])

  lemma RecipeValidated()
    ensures RecipeCodec.Validated(RECIPE, map[[65] := RecipeCodec.Schema([], [], [], [7])])
  {
  }

  const PACKAGE := ArchiveBinding.MemberValue(
    ArchiveBinding.PACKAGE_MEMBER, ArchiveBinding.PACKAGE_PROFILE, true, "", "", 0)
  const PACKAGE_REF := ArchiveBinding.ReferenceValue(
    ArchiveBinding.PACKAGE_MEMBER, ArchiveBinding.PACKAGE_PROFILE, "", "")
  const MODEL := ArchiveBinding.MemberValue("methods/m", "n4mm_raw_sha256", true, "", "", 0)
  const MODEL_REF := ArchiveBinding.ReferenceValue("methods/m", "n4mm_raw_sha256", "", "")

  lemma BothUnique(m: ArchiveBinding.MemberValue, n: ArchiveBinding.MemberValue)
    requires m.path != n.path
    ensures ArchiveBinding.UniquePaths([m, n])
    ensures ArchiveBinding.PathsOf([m, n]) == {m.path, n.path}
  {
    assert m in [m, n] && n in [m, n];
  }

  lemma BothMatch(m: ArchiveBinding.MemberValue, n: ArchiveBinding.MemberValue,
                  q: ArchiveBinding.ReferenceValue, r: ArchiveBinding.ReferenceValue)
    requires ArchiveBinding.Binds(m, q) && ArchiveBinding.Binds(n, r) && m.path != n.path
    ensures ArchiveBinding.ReferencesMatch([m, n], [q, r])
    ensures ArchiveBinding.PathsOf([m, n]) == {m.path, n.path}
  {
    BothUnique(m, n);
    hide ArchiveBinding.UniquePaths, ArchiveBinding.PathsOf;
    var members, refs := [m, n], [q, r];
    forall x | x in refs ensures exists y <- members :: ArchiveBinding.Binds(y, x) {
      var y := if x == q then m else n;
      assert y in members && ArchiveBinding.Binds(y, x);
    }
    forall y | y in members ensures exists x <- refs :: x.path == y.path {
      var x := if y == m then q else r;
      assert x in refs && x.path == y.path;
    }
  }

  /** A package and one Methods artifact. */
  lemma ManifestBindable()
    ensures ArchiveBinding.Bindable([PACKAGE, MODEL], [PACKAGE_REF, MODEL_REF],
                                    [ArchiveBinding.Artifact("methods/m", "m")])
  {
    assert |PACKAGE.path| != |MODEL.path|;
    BothMatch(PACKAGE, MODEL, PACKAGE_REF, MODEL_REF);
    hide ArchiveBinding.ReferencesMatch, ArchiveBinding.PathsOf;
  }

  const PLAN := ReplayLineage.NodePlan([], "c", "1", "p", {"PREDICT"})
  const OUTCOME := ReplayLineage.Source(map["n" := PLAN], [], None, ["n"], "PREDICT")
  const RECORD := ReplayLineage.LineageRecord("r", "n", "c", "1", "p", None, None, [])

  /** One node that is its own output. */
  lemma LineageAccepted()
    ensures ReplayLineage.Accepted(OUTCOME, [RECORD]) && ReplayLineage.CopiesAgree(OUTCOME)
  {
    Upstream.OutputUpstream([], ["n"], "n");
    Upstream.UpstreamNamed([], ["n"], "n");
    assert Upstream.UpstreamSet([], ["n"]) == {"n"};
    assert RECORD in [RECORD];
    assert ReplayLineage.NodesOf([RECORD]) == {"n"};
  }
}
