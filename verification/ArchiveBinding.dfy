/** The closed inventory of an archive manifest, and the step that binds it to exact payload bytes. */
module ArchiveBinding {
  import opened Results
  import opened Bytes

  const PACKAGE_MEMBER := "dagml/portable_predictor_package.json"

  /** The semantic profiles whose fingerprint is the raw hash itself. */
  const RAW_PROFILES := {"n4mm_raw_sha256", "dagml_methods_role_pipeline_raw_sha256",
                         "dagml_methods_multimodal_pipeline_raw_sha256"}

  predicate RawHashed(profile: string) { profile in RAW_PROFILES }

  datatype MemberValue = MemberValue(path: string, profile: string, regular: bool,
                                     raw: string, fingerprint: string, size: nat)

  datatype ReferenceValue = ReferenceValue(path: string, profile: string, raw: string, fingerprint: string)

  /** An inventory entry; binding rewrites its hash, fingerprint and size in place. */
  class Member {
    const path: string
    const profile: string
    const regular: bool
    var raw: string
    var fingerprint: string
    var size: nat

    constructor (v: MemberValue)
      ensures Value() == v
    {
      path, profile, regular, raw, fingerprint, size := v.path, v.profile, v.regular, v.raw, v.fingerprint, v.size;
    }

    function Value(): MemberValue
      reads this
    {
      MemberValue(path, profile, regular, raw, fingerprint, size)
    }
  }

  /** A dictionary with the four reference keys. */
  class Reference {
    const path: string
    const profile: string
    var raw: string
    var fingerprint: string

    constructor (v: ReferenceValue)
      ensures Value() == v
    {
      path, profile, raw, fingerprint := v.path, v.profile, v.raw, v.fingerprint;
    }

    function Value(): ReferenceValue
      reads this
    {
      ReferenceValue(path, profile, raw, fingerprint)
    }
  }

  /** A document as `_refs` sees it: a dictionary is a reference or not, and may hold more either way. */
  datatype Tree<R> = Dict(own: Option<R>, values: seq<Tree<R>>) | List(items: seq<Tree<R>>) | Scalar

  function Refs<R>(t: Tree<R>): seq<R>
    decreases t, 0
  {
    match t
    case Dict(own, values) => (if own.Some? then [own.value] else []) + RefsOfAll(values)
    case List(items) => RefsOfAll(items)
    case Scalar => []
  }

  function RefsOfAll<R>(ts: seq<Tree<R>>): seq<R>
    decreases ts
  {
    if ts == [] then [] else Refs(ts[0]) + RefsOfAll(ts[1..])
  }

  // ---- What acceptance means ------------------------------------------------------------------

  predicate UniquePaths(members: seq<MemberValue>) {
    forall i, j :: 0 <= i < j < |members| ==> members[i].path != members[j].path
  }

  predicate Binds(m: MemberValue, r: ReferenceValue) {
    m.path == r.path && m.raw == r.raw && m.profile == r.profile && m.fingerprint == r.fingerprint
  }

  /** Every reference resolves to a member with the same identities, and every member is referenced. */
  predicate ReferencesMatch(members: seq<MemberValue>, refs: seq<ReferenceValue>) {
    && UniquePaths(members)
    && (forall r <- refs :: exists m <- members :: Binds(m, r))
    && (forall m <- members :: exists r <- refs :: r.path == m.path)
  }

  function PathsOf(members: seq<MemberValue>): set<string> {
    set m <- members :: m.path
  }

  /** The payloads are exactly the inventory's, with its sizes and hashes. */
  predicate PayloadsMatch(sha: bytes -> string, members: seq<MemberValue>, payloads: map<string, bytes>) {
    && payloads.Keys == PathsOf(members)
    && forall m <- members :: |payloads[m.path]| == m.size && sha(payloads[m.path]) == m.raw
  }

  // ---- Binding, as a function --------------------------------------------------------------------

  /** What the fixture is bound to: SHA-256, the deterministic filler, and the package. */
  datatype Fixture = Fixture(sha: bytes -> string, filler: string -> bytes, package: bytes, packageFingerprint: string,
                             artifacts: map<string, bytes>)

  /** A Methods reference: where it points, and the artifact of the package it stands for. */
  datatype Artifact = Artifact(path: string, id: string)

  function Fillers(fx: Fixture, members: seq<MemberValue>): map<string, bytes> {
    map p <- PathsOf(members) :: fx.filler(p)
  }

  /** The payloads once the artifacts are in place; None where the package lacks one. */
  function WithArtifacts(fx: Fixture, base: map<string, bytes>, artifacts: seq<Artifact>): Option<map<string, bytes>> {
    if artifacts == [] then Some(base)
    else
      var n := |artifacts| - 1;
      var before := WithArtifacts(fx, base, artifacts[..n]);
      if before.None? || artifacts[n].id !in fx.artifacts then None
      else Some(before.value[artifacts[n].path := fx.artifacts[artifacts[n].id]])
  }

  function Payloads(fx: Fixture, members: seq<MemberValue>, artifacts: seq<Artifact>): Option<map<string, bytes>> {
    WithArtifacts(fx, Fillers(fx, members)[PACKAGE_MEMBER := fx.package], artifacts)
  }

  function BoundMember(fx: Fixture, payloads: map<string, bytes>, m: MemberValue): (b: MemberValue)
    requires m.path in payloads
    ensures b.path == m.path && b.profile == m.profile && b.regular == m.regular
  {
    var hash := fx.sha(payloads[m.path]);
    m.(raw := hash, size := |payloads[m.path]|,
       fingerprint := if RawHashed(m.profile) then hash
                      else if m.path == PACKAGE_MEMBER then fx.packageFingerprint
                      else m.fingerprint)
  }

  function BoundReference(fx: Fixture, payloads: map<string, bytes>, r: ReferenceValue): (b: ReferenceValue)
    requires r.path in payloads
    ensures b.path == r.path && b.profile == r.profile
  {
    var hash := fx.sha(payloads[r.path]);
    r.(raw := hash,
       fingerprint := if r.path == PACKAGE_MEMBER then fx.packageFingerprint
                      else if RawHashed(r.profile) then hash
                      else r.fingerprint)
  }

  function BoundMembers(fx: Fixture, payloads: map<string, bytes>, members: seq<MemberValue>): (r: seq<MemberValue>)
    requires PathsOf(members) <= payloads.Keys
    ensures |r| == |members|
  {
    seq(|members|, i requires 0 <= i < |members| =>
      assert members[i].path in PathsOf(members);
      BoundMember(fx, payloads, members[i]))
  }

  function BoundReferences(fx: Fixture, payloads: map<string, bytes>, refs: seq<ReferenceValue>)
      : (r: seq<ReferenceValue>)
    requires forall i :: 0 <= i < |refs| ==> refs[i].path in payloads
    ensures |r| == |refs|
  {
    seq(|refs|, i requires 0 <= i < |refs| => BoundReference(fx, payloads, refs[i]))
  }

  // ---- Binding restores integrity ------------------------------------------------------------------

  lemma {:induction false} ArtifactsKeepKeys(fx: Fixture, base: map<string, bytes>, artifacts: seq<Artifact>)
    requires forall i :: 0 <= i < |artifacts| ==> artifacts[i].path in base
    ensures WithArtifacts(fx, base, artifacts).Some?
            <==> forall i :: 0 <= i < |artifacts| ==> artifacts[i].id in fx.artifacts
    ensures WithArtifacts(fx, base, artifacts).Some? ==> WithArtifacts(fx, base, artifacts).value.Keys == base.Keys
  {
    if artifacts != [] {
      var n := |artifacts| - 1;
      ArtifactsKeepKeys(fx, base, artifacts[..n]);
      assert forall i :: 0 <= i < n ==> artifacts[..n][i] == artifacts[i];
    }
  }

  /** The artifact that ends up at a path is the one of the last reference to it. */
  predicate LastAt(artifacts: seq<Artifact>, i: nat, path: string) {
    i < |artifacts| && artifacts[i].path == path && forall j :: i < j < |artifacts| ==> artifacts[j].path != path
  }

  /** Every payload is its artifact's, or else the package at the package's path, or else the filler. */
  lemma {:induction false} PayloadsExactly(fx: Fixture, members: seq<MemberValue>, artifacts: seq<Artifact>,
                                           path: string)
    requires Payloads(fx, members, artifacts).Some? && path in Payloads(fx, members, artifacts).value
    ensures var payload := Payloads(fx, members, artifacts).value[path];
            if exists i :: 0 <= i < |artifacts| && artifacts[i].path == path
            then exists i: nat :: LastAt(artifacts, i, path) && artifacts[i].id in fx.artifacts
                             && payload == fx.artifacts[artifacts[i].id]
            else if path == "dagml/portable_predictor_package.json" then payload == fx.package
            else path in PathsOf(members) && payload == fx.filler(path)
  {
    if artifacts != [] {
      var n := |artifacts| - 1;
      var before := artifacts[..n];
      assert Payloads(fx, members, before).Some?;
      if artifacts[n].path == path {
        assert LastAt(artifacts, n, path);
      } else {
        PayloadsExactly(fx, members, before, path);
        if i :| LastAt(before, i, path) {
          assert LastAt(artifacts, i, path);
        }
        forall i | 0 <= i < n ensures before[i] == artifacts[i] {
        }
      }
    }
  }

  /** What `validate_semantics` guarantees of a manifest, as far as binding relies on it. */
  predicate Bindable(members: seq<MemberValue>, refs: seq<ReferenceValue>, artifacts: seq<Artifact>) {
    && ReferencesMatch(members, refs)
    && PACKAGE_MEMBER in PathsOf(members)
    && forall i :: 0 <= i < |artifacts| ==> artifacts[i].path in PathsOf(members)
  }

  /**
   * The one way to go wrong: a raw-hash profile on the package member, unless the fingerprint
   * happens to be that hash.
   */
  predicate PackageConsistent(fx: Fixture, members: seq<MemberValue>, payloads: map<string, bytes>)
    requires PACKAGE_MEMBER in payloads
  {
    forall m <- members :: m.path == PACKAGE_MEMBER && RawHashed(m.profile)
                           ==> fx.sha(payloads[PACKAGE_MEMBER]) == fx.packageFingerprint
  }

  lemma BoundPaths(fx: Fixture, payloads: map<string, bytes>, members: seq<MemberValue>)
    requires PathsOf(members) <= payloads.Keys
    ensures PathsOf(BoundMembers(fx, payloads, members)) == PathsOf(members)
    ensures UniquePaths(members) ==> UniquePaths(BoundMembers(fx, payloads, members))
  {
    var bound := BoundMembers(fx, payloads, members);
    forall i | 0 <= i < |members|
      ensures bound[i].path == members[i].path && bound[i] in bound && members[i] in members
    {
    }
    forall p ensures p in PathsOf(bound) <==> p in PathsOf(members) {
      if p in PathsOf(bound) {
        var i :| 0 <= i < |bound| && bound[i].path == p;
        assert members[i].path == p;
      }
      if p in PathsOf(members) {
        var i :| 0 <= i < |members| && members[i].path == p;
        assert bound[i].path == p;
      }
    }
  }

  /** Bound to its payloads, every manifest passes the size and hash loop. */
  lemma BoundPayloadsMatch(fx: Fixture, members: seq<MemberValue>, payloads: map<string, bytes>)
    requires payloads.Keys == PathsOf(members)
    ensures PayloadsMatch(fx.sha, BoundMembers(fx, payloads, members), payloads)
  {
    BoundPaths(fx, payloads, members);
    var bound := BoundMembers(fx, payloads, members);
    forall m | m in bound ensures |payloads[m.path]| == m.size && fx.sha(payloads[m.path]) == m.raw {
      var i :| 0 <= i < |bound| && bound[i] == m;
      assert m == BoundMember(fx, payloads, members[i]);
    }
  }

  /** A member and a reference that agreed before binding agree afterwards, but for the package. */
  lemma BoundTogether(fx: Fixture, payloads: map<string, bytes>, m: MemberValue, r: ReferenceValue)
    requires m.path in payloads && Binds(m, r)
    ensures Binds(BoundMember(fx, payloads, m), BoundReference(fx, payloads, r))
       <==> (m.path == PACKAGE_MEMBER && RawHashed(m.profile) ==> fx.sha(payloads[m.path]) == fx.packageFingerprint)
  {
  }

  lemma BoundIn(fx: Fixture, payloads: map<string, bytes>, members: seq<MemberValue>, m: MemberValue)
    requires PathsOf(members) <= payloads.Keys && m in members
    ensures m.path in payloads && BoundMember(fx, payloads, m) in BoundMembers(fx, payloads, members)
  {
    var i :| 0 <= i < |members| && members[i] == m;
    assert BoundMembers(fx, payloads, members)[i] == BoundMember(fx, payloads, m);
  }

  lemma BoundFrom(fx: Fixture, payloads: map<string, bytes>, members: seq<MemberValue>, b: MemberValue)
      returns (m: MemberValue)
    requires PathsOf(members) <= payloads.Keys && b in BoundMembers(fx, payloads, members)
    ensures m in members && m.path in payloads && b == BoundMember(fx, payloads, m)
  {
    var i :| 0 <= i < |members| && BoundMembers(fx, payloads, members)[i] == b;
    m := members[i];
  }

  lemma ReferenceIn(fx: Fixture, payloads: map<string, bytes>, refs: seq<ReferenceValue>, r: ReferenceValue)
    requires r in refs && forall i :: 0 <= i < |refs| ==> refs[i].path in payloads
    ensures r.path in payloads && BoundReference(fx, payloads, r) in BoundReferences(fx, payloads, refs)
  {
    var i :| 0 <= i < |refs| && refs[i] == r;
    assert BoundReferences(fx, payloads, refs)[i] == BoundReference(fx, payloads, r);
  }

  lemma ReferenceFrom(fx: Fixture, payloads: map<string, bytes>, refs: seq<ReferenceValue>, b: ReferenceValue)
      returns (r: ReferenceValue)
    requires forall i :: 0 <= i < |refs| ==> refs[i].path in payloads
    requires b in BoundReferences(fx, payloads, refs)
    ensures r in refs && r.path in payloads && b == BoundReference(fx, payloads, r)
  {
    var i :| 0 <= i < |refs| && BoundReferences(fx, payloads, refs)[i] == b;
    r := refs[i];
  }

  lemma BoundReferencesMatch(fx: Fixture, members: seq<MemberValue>, refs: seq<ReferenceValue>,
                             payloads: map<string, bytes>)
    requires ReferencesMatch(members, refs) && payloads.Keys == PathsOf(members) && PACKAGE_MEMBER in payloads
    requires forall i :: 0 <= i < |refs| ==> refs[i].path in payloads
    requires PackageConsistent(fx, members, payloads)
    ensures ReferencesMatch(BoundMembers(fx, payloads, members), BoundReferences(fx, payloads, refs))
  {
    hide UniquePaths, BoundMember, BoundMembers, BoundReference, BoundReferences, RawHashed, PathsOf, Binds;
    BoundPaths(fx, payloads, members);
    var bound, boundRefs := BoundMembers(fx, payloads, members), BoundReferences(fx, payloads, refs);
    forall b | b in boundRefs ensures exists m <- bound :: Binds(m, b) {
      StillBound(fx, members, refs, payloads, b);
    }
    forall b | b in bound ensures exists r <- boundRefs :: r.path == b.path {
      var m := BoundFrom(fx, payloads, members, b);
      var r := Referenced(members, refs, m);
      ReferenceIn(fx, payloads, refs, r);
    }
  }

  lemma StillBound(fx: Fixture, members: seq<MemberValue>, refs: seq<ReferenceValue>, payloads: map<string, bytes>,
                   b: ReferenceValue)
    requires ReferencesMatch(members, refs) && payloads.Keys == PathsOf(members) && PACKAGE_MEMBER in payloads
    requires forall i :: 0 <= i < |refs| ==> refs[i].path in payloads
    requires PackageConsistent(fx, members, payloads) && b in BoundReferences(fx, payloads, refs)
    ensures exists m <- BoundMembers(fx, payloads, members) :: Binds(m, b)
  {
    hide UniquePaths, BoundMember, BoundMembers, BoundReference, BoundReferences, RawHashed, PathsOf, Binds;
    var r := ReferenceFrom(fx, payloads, refs, b);
    var m :| m in members && Binds(m, r);
    BoundIn(fx, payloads, members, m);
    BoundTogether(fx, payloads, m, r);
    assert Binds(BoundMember(fx, payloads, m), b);
  }

  lemma OnePerPath(members: seq<MemberValue>, m: MemberValue, n: MemberValue)
    requires UniquePaths(members) && m in members && n in members && m.path == n.path
    ensures m == n
  {
    var i :| 0 <= i < |members| && members[i] == m;
    var j :| 0 <= j < |members| && members[j] == n;
  }

  /** Conversely, references that still match mean the package member was consistent. */
  lemma MatchMeansConsistent(fx: Fixture, members: seq<MemberValue>, refs: seq<ReferenceValue>,
                             payloads: map<string, bytes>)
    requires ReferencesMatch(members, refs) && payloads.Keys == PathsOf(members) && PACKAGE_MEMBER in payloads
    requires forall i :: 0 <= i < |refs| ==> refs[i].path in payloads
    requires ReferencesMatch(BoundMembers(fx, payloads, members), BoundReferences(fx, payloads, refs))
    ensures PackageConsistent(fx, members, payloads)
  {
    hide BoundMember, BoundMembers, BoundReference, BoundReferences, RawHashed, PathsOf, ReferencesMatch, Binds;
    forall m | m in members && m.path == PACKAGE_MEMBER && RawHashed(m.profile)
      ensures fx.sha(payloads[PACKAGE_MEMBER]) == fx.packageFingerprint
    {
      var r := Referenced(members, refs, m);
      Resolved(members, refs, m, r);
      BoundIn(fx, payloads, members, m);
      ReferenceIn(fx, payloads, refs, r);
      Resolved(BoundMembers(fx, payloads, members), BoundReferences(fx, payloads, refs),
               BoundMember(fx, payloads, m), BoundReference(fx, payloads, r));
      BoundTogether(fx, payloads, m, r);
    }
  }

  lemma Referenced(members: seq<MemberValue>, refs: seq<ReferenceValue>, m: MemberValue) returns (r: ReferenceValue)
    requires ReferencesMatch(members, refs) && m in members
    ensures r in refs && r.path == m.path
  {
    r :| r in refs && r.path == m.path;
  }

  /** A reference binds the one member of its path. */
  lemma Resolved(members: seq<MemberValue>, refs: seq<ReferenceValue>, m: MemberValue, r: ReferenceValue)
    requires ReferencesMatch(members, refs) && m in members && r in refs && m.path == r.path
    ensures Binds(m, r)
  {
    var n :| n in members && Binds(n, r);
    OnePerPath(members, m, n);
  }

  /**
   * Binding a manifest that was accepted fails only for an artifact the package lacks. Its result
   * always passes the size and hash loop, and its references match the closed inventory again
   * exactly if the package member does not use a raw-hash profile against its fingerprint.
   */
  lemma MaterialisingRestores(fx: Fixture, members: seq<MemberValue>, refs: seq<ReferenceValue>,
                              artifacts: seq<Artifact>)
    requires Bindable(members, refs, artifacts)
    ensures Payloads(fx, members, artifacts).Some?
            <==> forall i :: 0 <= i < |artifacts| ==> artifacts[i].id in fx.artifacts
    ensures Payloads(fx, members, artifacts).Some? ==>
              var payloads := Payloads(fx, members, artifacts).value;
              && payloads.Keys == PathsOf(members)
              && (forall i :: 0 <= i < |refs| ==> refs[i].path in payloads)
              && PayloadsMatch(fx.sha, BoundMembers(fx, payloads, members), payloads)
              && (ReferencesMatch(BoundMembers(fx, payloads, members), BoundReferences(fx, payloads, refs))
                  <==> PackageConsistent(fx, members, payloads))
  {
    var base := Fillers(fx, members)[PACKAGE_MEMBER := fx.package];
    assert base.Keys == PathsOf(members);
    ArtifactsKeepKeys(fx, base, artifacts);
    forall i | 0 <= i < |refs| ensures refs[i].path in PathsOf(members) {
      assert refs[i] in refs;
    }
    hide BoundMembers, BoundReferences, RawHashed, UniquePaths, Binds;
    if Payloads(fx, members, artifacts).Some? {
      var payloads := Payloads(fx, members, artifacts).value;
      BoundPayloadsMatch(fx, members, payloads);
      if PackageConsistent(fx, members, payloads) {
        BoundReferencesMatch(fx, members, refs, payloads);
      }
      if ReferencesMatch(BoundMembers(fx, payloads, members), BoundReferences(fx, payloads, refs)) {
        MatchMeansConsistent(fx, members, refs, payloads);
      }
    }
  }

  const PACKAGE_PROFILE := "dagml_tcv1"

  /** The manifest schema fixes the package's profile, so a manifest that is valid against it is always restored. */
  lemma SchemaValidRestores(fx: Fixture, members: seq<MemberValue>, refs: seq<ReferenceValue>, artifacts: seq<Artifact>)
    requires Bindable(members, refs, artifacts)
    requires forall m <- members :: m.path == PACKAGE_MEMBER ==> m.profile == PACKAGE_PROFILE
    requires forall i :: 0 <= i < |artifacts| ==> artifacts[i].id in fx.artifacts
    ensures Payloads(fx, members, artifacts).Some?
    ensures var payloads := Payloads(fx, members, artifacts).value;
            && payloads.Keys == PathsOf(members)
            && (forall i :: 0 <= i < |refs| ==> refs[i].path in payloads)
            && PayloadsMatch(fx.sha, BoundMembers(fx, payloads, members), payloads)
            && ReferencesMatch(BoundMembers(fx, payloads, members), BoundReferences(fx, payloads, refs))
  {
    hide ReferencesMatch, PayloadsMatch, BoundMembers, BoundReferences, Payloads;
    MaterialisingRestores(fx, members, refs, artifacts);
    assert !RawHashed(PACKAGE_PROFILE);
  }

  // ---- Methods references -------------------------------------------------------------------------

  const CLASSIFIER_RAW_PROFILE := "dagml_methods_multimodal_classifier_pipeline_raw_sha256"
  const CLASSIFIER_META_PROFILE := "dagml_methods_role_classifier_pipeline_raw_sha256"

  /** The kind of the artifact that a Methods reference stands for. */
  datatype Kind = Model | RolePipeline | MultimodalPipeline | RawClassifier | MetaClassifier
  {
    function Profile(): string {
      match this
      case Model => "n4mm_raw_sha256"
      case RolePipeline => "dagml_methods_role_pipeline_raw_sha256"
      case MultimodalPipeline => "dagml_methods_multimodal_pipeline_raw_sha256"
      case RawClassifier => CLASSIFIER_RAW_PROFILE
      case MetaClassifier => CLASSIFIER_META_PROFILE
    }
  }

  /** The archive validation's last demand on a Methods reference. */
  predicate IdentifiesPayload(sha: bytes -> string, r: ReferenceValue, kind: Kind, payload: bytes) {
    r.profile == kind.Profile() && r.fingerprint == sha(payload)
  }

  /**
   * Binding gives a reference of the right profile its payload's identity, except that of a classifier,
   * whose fingerprint it keeps: that one must have been the payload's hash already.
   */
  lemma MethodsBound(fx: Fixture, payloads: map<string, bytes>, r: ReferenceValue, kind: Kind)
    requires r.path in payloads && r.path != PACKAGE_MEMBER
    ensures IdentifiesPayload(fx.sha, BoundReference(fx, payloads, r), kind, payloads[r.path])
       <==> && r.profile == kind.Profile()
            && (kind.RawClassifier? || kind.MetaClassifier? ==> r.fingerprint == fx.sha(payloads[r.path]))
  {
    assert |CLASSIFIER_RAW_PROFILE| == 55 && |CLASSIFIER_META_PROFILE| == 49;
    assert RawHashed(kind.Profile()) <==> !(kind.RawClassifier? || kind.MetaClassifier?);
  }
}
