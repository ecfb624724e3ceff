/** The loops that validate an archive manifest's references and rebind it in place. */
module ArchiveManifest {
  import opened Results
  import opened Bytes
  import opened ArchiveBinding
  import opened ArchiveRefs

  /** A Methods reference of the document, with the id of the artifact it stands for. */
  datatype Use = Use(reference: Reference, id: string)

  /** A parsed manifest: its inventory, its replay and payload sections, and the Methods references among them. */
  datatype Document = Document(inventory: seq<Member>, sections: Tree<Reference>, uses: seq<Use>)

  function MemberValues(inventory: seq<Member>): (r: seq<MemberValue>)
    reads inventory
    ensures |r| == |inventory| && forall i :: 0 <= i < |r| ==> r[i] == inventory[i].Value()
  {
    seq(|inventory|, i requires 0 <= i < |inventory| reads inventory => inventory[i].Value())
  }

  function ReferenceValues(refs: seq<Reference>): (r: seq<ReferenceValue>)
    reads refs
    ensures |r| == |refs| && forall i :: 0 <= i < |r| ==> r[i] == refs[i].Value()
  {
    seq(|refs|, i requires 0 <= i < |refs| reads refs => refs[i].Value())
  }

  function Artifacts(uses: seq<Use>): (r: seq<Artifact>)
    ensures |r| == |uses|
  {
    seq(|uses|, i requires 0 <= i < |uses| => Artifact(uses[i].reference.path, uses[i].id))
  }

  // ---- Collecting references -------------------------------------------------------------------

  /** Finds the reference at every place that holds one, in document order. */
  method CollectRefs(t: Tree<Reference>) returns (found: seq<Reference>)
    ensures found == Refs(t)
    ensures exists places :: LocatesAt(t, found, places)
    decreases t, 0
  {
    ghost var places := RefsInOrder(t);
    match t
    case Scalar => found := [];
    case List(items) => found := CollectAll(items);
    case Dict(own, values) =>
      found := if own.Some? then [own.value] else [];
      var more := CollectAll(values);
      found := found + more;
  }

  method CollectAll(ts: seq<Tree<Reference>>) returns (found: seq<Reference>)
    ensures found == RefsOfAll(ts)
    decreases ts
  {
    found := [];
    if ts != [] {
      found := CollectRefs(ts[0]);
      var more := CollectAll(ts[1..]);
      found := found + more;
    }
  }

  // ---- The reference part of validate_semantics --------------------------------------------------

  /** The budgets of the physical profile: entries with the manifest itself, one member, all members. */
  datatype Limits = Limits(entries: nat, memberSize: nat, totalSize: nat)

  /** A member the inventory loop accepts, on its own. */
  predicate Sound(safe: string -> bool, limits: Limits, m: MemberValue) {
    safe(m.path) && m.path != "manifest.json" && m.regular && m.size <= limits.memberSize
  }

  function TotalSize(members: seq<MemberValue>): nat {
    if members == [] then 0 else TotalSize(members[..|members| - 1]) + members[|members| - 1].size
  }

  predicate InventoryAccepted(safe: string -> bool, limits: Limits, members: seq<MemberValue>) {
    && |members| + 1 <= limits.entries
    && (forall i :: 0 <= i < |members| ==> Sound(safe, limits, members[i]))
    && UniquePaths(members)
    && TotalSize(members) <= limits.totalSize
  }

  predicate SemanticsAccepted(safe: string -> bool, limits: Limits, members: seq<MemberValue>,
                              refs: seq<ReferenceValue>) {
    && InventoryAccepted(safe, limits, members)
    && (forall i :: 0 <= i < |refs| ==> safe(refs[i].path))
    && ReferencesMatch(members, refs)
  }

  /** The inventory loop with its budgets: members by path, or None where it refuses. */
  method ReadInventory(safe: string -> bool, limits: Limits, inventory: seq<Member>)
      returns (byPath: Option<map<string, Member>>)
    ensures byPath.Some? <==> InventoryAccepted(safe, limits, MemberValues(inventory))
    ensures byPath.Some? ==> ByPath(byPath.value, inventory)
  {
    hide UniquePaths, ByPath, TotalSize;
    if |inventory| + 1 > limits.entries {
      return None;
    }
    var members: map<string, Member>, total: nat := map[], 0;
    NoMembers();
    for i := 0 to |inventory|
      invariant UniquePaths(MemberValues(inventory[..i])) && ByPath(members, inventory[..i])
      invariant total == TotalSize(MemberValues(inventory[..i]))
      invariant forall j :: 0 <= j < i ==> Sound(safe, limits, inventory[j].Value())
    {
      var member := inventory[i];
      assert MemberValues(inventory)[i] == member.Value();
      if !(safe(member.path) && member.path != "manifest.json" && member.regular && member.size <= limits.memberSize) {
        assert !Sound(safe, limits, MemberValues(inventory)[i]);
        return None;
      }
      assert inventory[..i + 1] == inventory[..i] + [member];
      if member.path in members {
        Repeated(inventory, i, members);
        return None;
      }
      PathsMore(inventory[..i], member, members);
      SizeMore(inventory[..i], member);
      members, total := members[member.path := member], total + member.size;
    }
    assert inventory[..|inventory|] == inventory;
    return if total <= limits.totalSize then Some(members) else None;
  }

  lemma SizeMore(inventory: seq<Member>, member: Member)
    ensures TotalSize(MemberValues(inventory + [member])) == TotalSize(MemberValues(inventory)) + member.size
  {
    var all := MemberValues(inventory + [member]);
    assert all[..|all| - 1] == MemberValues(inventory);
  }

  ghost predicate ByPath(byPath: map<string, Member>, inventory: seq<Member>) {
    && (forall i :: 0 <= i < |inventory| ==> inventory[i].path in byPath && byPath[inventory[i].path] == inventory[i])
    && (forall p <- byPath :: byPath[p] in inventory && byPath[p].path == p)
  }

  lemma Repeated(inventory: seq<Member>, i: nat, byPath: map<string, Member>)
    requires i < |inventory| && ByPath(byPath, inventory[..i]) && inventory[i].path in byPath
    ensures !UniquePaths(MemberValues(inventory))
  {
    var m := byPath[inventory[i].path];
    var j :| 0 <= j < i && inventory[..i][j] == m;
    assert MemberValues(inventory)[j].path == MemberValues(inventory)[i].path;
  }

  lemma PathsMore(inventory: seq<Member>, member: Member, byPath: map<string, Member>)
    requires ByPath(byPath, inventory) && UniquePaths(MemberValues(inventory)) && member.path !in byPath
    ensures UniquePaths(MemberValues(inventory + [member]))
    ensures ByPath(byPath[member.path := member], inventory + [member])
  {
    var all := inventory + [member];
    forall i, j | 0 <= i < j < |all| ensures MemberValues(all)[i].path != MemberValues(all)[j].path {
      assert MemberValues(all)[i] == all[i].Value() && MemberValues(all)[j] == all[j].Value();
      if j < |inventory| {
        assert MemberValues(inventory)[i].path != MemberValues(inventory)[j].path;
      }
    }
  }

  /** The reference loop and the closed-inventory check. */
  method ValidateReferences(safe: string -> bool, limits: Limits, inventory: seq<Member>, refs: seq<Reference>)
      returns (ok: bool)
    ensures ok <==> SemanticsAccepted(safe, limits, MemberValues(inventory), ReferenceValues(refs))
  {
    hide UniquePaths, Sound, TotalSize, Binds;
    var byPath := ReadInventory(safe, limits, inventory);
    if byPath.None? {
      return false;
    }
    var used: set<string> := {};
    for i := 0 to |refs|
      invariant used == set j | 0 <= j < i :: refs[j].path
      invariant used <= byPath.value.Keys
      invariant forall j :: 0 <= j < i ==> safe(refs[j].path) && Resolves(byPath.value, refs[j])
    {
      var fits := CheckReference(safe, byPath.value, refs[i]);
      if !fits {
        if safe(refs[i].path) {
          Unresolved(byPath.value, inventory, refs, i);
        }
        assert !safe(ReferenceValues(refs)[i].path) || !Resolves(byPath.value, refs[i]);
        return false;
      }
      used := used + {refs[i].path};
    }
    ok := byPath.value.Keys == used;
    AllResolved(byPath.value, inventory, refs, used);
  }

  ghost predicate Resolves(byPath: map<string, Member>, r: Reference)
    reads byPath.Values, r
  {
    r.path in byPath && Binds(byPath[r.path].Value(), r.Value())
  }

  method CheckReference(safe: string -> bool, byPath: map<string, Member>, r: Reference) returns (fits: bool)
    requires forall p <- byPath :: byPath[p].path == p
    ensures fits <==> safe(r.path) && Resolves(byPath, r)
  {
    if !safe(r.path) || r.path !in byPath {
      return false;
    }
    var m := byPath[r.path];
    return m.raw == r.raw && m.profile == r.profile && m.fingerprint == r.fingerprint;
  }

  lemma Unresolved(byPath: map<string, Member>, inventory: seq<Member>, refs: seq<Reference>, i: nat)
    requires ByPath(byPath, inventory) && i < |refs| && !Resolves(byPath, refs[i])
    ensures !ReferencesMatch(MemberValues(inventory), ReferenceValues(refs))
  {
    var r := ReferenceValues(refs)[i];
    assert r in ReferenceValues(refs);
    forall m | m in MemberValues(inventory) ensures !Binds(m, r) {
      var k :| 0 <= k < |inventory| && MemberValues(inventory)[k] == m;
      assert byPath[inventory[k].path] == inventory[k];
    }
  }

  lemma AllResolved(byPath: map<string, Member>, inventory: seq<Member>, refs: seq<Reference>, used: set<string>)
    requires ByPath(byPath, inventory) && UniquePaths(MemberValues(inventory))
    requires forall j :: 0 <= j < |refs| ==> Resolves(byPath, refs[j])
    requires used == set j | 0 <= j < |refs| :: refs[j].path
    ensures byPath.Keys == used <==> ReferencesMatch(MemberValues(inventory), ReferenceValues(refs))
  {
    hide Binds, UniquePaths;
    EachBound(byPath, inventory, refs);
    if byPath.Keys == used {
      EachUsed(byPath, inventory, refs, used);
    }
    if ReferencesMatch(MemberValues(inventory), ReferenceValues(refs)) {
      OnlyUsed(byPath, inventory, refs, used);
    }
  }

  lemma EachBound(byPath: map<string, Member>, inventory: seq<Member>, refs: seq<Reference>)
    requires ByPath(byPath, inventory) && forall j :: 0 <= j < |refs| ==> Resolves(byPath, refs[j])
    ensures forall r <- ReferenceValues(refs) :: exists m <- MemberValues(inventory) :: Binds(m, r)
  {
    hide Binds;
    var members, values := MemberValues(inventory), ReferenceValues(refs);
    forall r | r in values ensures exists m <- members :: Binds(m, r) {
      var j :| 0 <= j < |refs| && values[j] == r;
      var k :| 0 <= k < |inventory| && inventory[k] == byPath[refs[j].path];
      assert members[k] in members && Binds(members[k], r);
    }
  }

  lemma EachUsed(byPath: map<string, Member>, inventory: seq<Member>, refs: seq<Reference>, used: set<string>)
    requires ByPath(byPath, inventory) && byPath.Keys == used == set j | 0 <= j < |refs| :: refs[j].path
    ensures forall m <- MemberValues(inventory) :: exists r <- ReferenceValues(refs) :: r.path == m.path
  {
    var members, values := MemberValues(inventory), ReferenceValues(refs);
    forall m | m in members ensures exists r <- values :: r.path == m.path {
      var k :| 0 <= k < |inventory| && members[k] == m;
      assert m.path in used;
      var j :| 0 <= j < |refs| && refs[j].path == m.path;
      assert values[j] in values;
    }
  }

  lemma OnlyUsed(byPath: map<string, Member>, inventory: seq<Member>, refs: seq<Reference>, used: set<string>)
    requires ByPath(byPath, inventory) && used == set j | 0 <= j < |refs| :: refs[j].path
    requires forall j :: 0 <= j < |refs| ==> Resolves(byPath, refs[j])
    requires forall m <- MemberValues(inventory) :: exists r <- ReferenceValues(refs) :: r.path == m.path
    ensures byPath.Keys == used
  {
    var members, values := MemberValues(inventory), ReferenceValues(refs);
    forall p ensures p in byPath.Keys <==> p in used {
      if p in byPath.Keys {
        var k :| 0 <= k < |inventory| && inventory[k] == byPath[p];
        assert members[k] in members;
        var r :| r in values && r.path == p;
        var j :| 0 <= j < |values| && values[j] == r;
        assert refs[j].path == p;
      }
    }
  }

  // ---- materialize_fixture ---------------------------------------------------------------------------

  method FillMembers(fx: Fixture, inventory: seq<Member>) returns (filled: map<string, bytes>)
    ensures filled == Fillers(fx, MemberValues(inventory))
  {
    filled := map[];
    for i := 0 to |inventory|
      invariant filled == Fillers(fx, MemberValues(inventory[..i]))
    {
      var path := inventory[i].path;
      OnePathMore(inventory[..i], inventory[i]);
      assert inventory[..i + 1] == inventory[..i] + [inventory[i]];
      filled := filled[path := fx.filler(path)];
    }
    assert inventory[..|inventory|] == inventory;
  }

  /** The payload dictionary, filled as the source fills it; None where the package lacks an artifact. */
  method FillPayloads(fx: Fixture, inventory: seq<Member>, uses: seq<Use>)
      returns (payloads: Option<map<string, bytes>>)
    ensures payloads == Payloads(fx, MemberValues(inventory), Artifacts(uses))
  {
    hide Fillers;
    var filled := FillMembers(fx, inventory);
    filled := filled[PACKAGE_MEMBER := fx.package];
    ghost var base, artifacts := filled, Artifacts(uses);
    for i := 0 to |uses|
      invariant WithArtifacts(fx, base, artifacts[..i]) == Some(filled)
    {
      assert artifacts[..i + 1][..i] == artifacts[..i];
      if uses[i].id !in fx.artifacts {
        NoArtifact(fx, base, artifacts, i);
        return None;
      }
      filled := filled[uses[i].reference.path := fx.artifacts[uses[i].id]];
    }
    assert artifacts[..|uses|] == artifacts;
    return Some(filled);
  }

  lemma OnePathMore(inventory: seq<Member>, member: Member)
    ensures PathsOf(MemberValues(inventory + [member])) == PathsOf(MemberValues(inventory)) + {member.path}
  {
    assert MemberValues(inventory + [member]) == MemberValues(inventory) + [member.Value()];
  }

  lemma {:induction false} NoArtifact(fx: Fixture, base: map<string, bytes>, artifacts: seq<Artifact>, i: nat)
    requires i < |artifacts| && artifacts[i].id !in fx.artifacts
    ensures WithArtifacts(fx, base, artifacts).None?
  {
    if i < |artifacts| - 1 {
      NoArtifact(fx, base, artifacts[..|artifacts| - 1], i);
    }
  }

  /** The first member loop: hashes, sizes, and the package's fingerprint. */
  method BindMembers(fx: Fixture, payloads: map<string, bytes>, inventory: seq<Member>)
    requires Distinct(inventory) && forall i :: 0 <= i < |inventory| ==> inventory[i].path in payloads
    modifies inventory
    ensures forall i :: 0 <= i < |inventory| ==>
              inventory[i].Value() == HashedMember(fx, payloads, old(inventory[i].Value()))
  {
    for k := 0 to |inventory|
      invariant forall i :: 0 <= i < k ==> inventory[i].Value() == HashedMember(fx, payloads, old(inventory[i].Value()))
      invariant forall i :: k <= i < |inventory| ==> inventory[i].Value() == old(inventory[i].Value())
    {
      var member := inventory[k];
      member.raw := fx.sha(payloads[member.path]);
      member.size := |payloads[member.path]|;
      if member.path == PACKAGE_MEMBER {
        member.fingerprint := fx.packageFingerprint;
      }
    }
  }

  function HashedMember(fx: Fixture, payloads: map<string, bytes>, m: MemberValue): (b: MemberValue)
    requires m.path in payloads
    ensures b.path == m.path && b.profile == m.profile
  {
    m.(raw := fx.sha(payloads[m.path]), size := |payloads[m.path]|,
       fingerprint := if m.path == PACKAGE_MEMBER then fx.packageFingerprint else m.fingerprint)
  }

  function RawMember(fx: Fixture, payloads: map<string, bytes>, m: MemberValue): MemberValue
    requires m.path in payloads
  {
    if RawHashed(m.profile) then m.(fingerprint := fx.sha(payloads[m.path])) else m
  }

  /** The two member loops compose to the binding of a member. */
  lemma MemberLoopsCompose(fx: Fixture, payloads: map<string, bytes>, m: MemberValue)
    requires m.path in payloads
    ensures RawMember(fx, payloads, HashedMember(fx, payloads, m)) == BoundMember(fx, payloads, m)
  {
  }

  method BindReferences(fx: Fixture, payloads: map<string, bytes>, refs: seq<Reference>)
    requires Distinct(refs) && forall i :: 0 <= i < |refs| ==> refs[i].path in payloads
    modifies refs
    ensures forall i :: 0 <= i < |refs| ==> refs[i].Value() == BoundReference(fx, payloads, old(refs[i].Value()))
  {
    for k := 0 to |refs|
      invariant forall i :: 0 <= i < k ==> refs[i].Value() == BoundReference(fx, payloads, old(refs[i].Value()))
      invariant forall i :: k <= i < |refs| ==> refs[i].Value() == old(refs[i].Value())
    {
      var r := refs[k];
      r.raw := fx.sha(payloads[r.path]);
      if r.path == PACKAGE_MEMBER {
        r.fingerprint := fx.packageFingerprint;
      } else if RawHashed(r.profile) {
        r.fingerprint := fx.sha(payloads[r.path]);
      }
    }
  }

  /** The last member loop: raw-hash profiles take the hash as their fingerprint. */
  method BindRawProfiles(fx: Fixture, payloads: map<string, bytes>, inventory: seq<Member>)
    requires Distinct(inventory) && forall i :: 0 <= i < |inventory| ==> inventory[i].path in payloads
    modifies inventory
    ensures forall i :: 0 <= i < |inventory| ==>
              inventory[i].Value() == RawMember(fx, payloads, old(inventory[i].Value()))
  {
    for k := 0 to |inventory|
      invariant forall i :: 0 <= i < k ==> inventory[i].Value() == RawMember(fx, payloads, old(inventory[i].Value()))
      invariant forall i :: k <= i < |inventory| ==> inventory[i].Value() == old(inventory[i].Value())
    {
      var member := inventory[k];
      if RawHashed(member.profile) {
        member.fingerprint := fx.sha(payloads[member.path]);
      }
    }
  }

  /** `materialize_fixture` on the copy it makes: rewrites members and references, returns the payloads. */
  method MaterializeFixture(fx: Fixture, document: Document) returns (payloads: Option<map<string, bytes>>)
    requires Distinct(document.inventory) && Distinct(Refs(document.sections))
    requires forall r <- Refs(document.sections) :: r.path in PathsOf(MemberValues(document.inventory))
    requires forall i :: 0 <= i < |document.uses| ==> document.uses[i].reference in Refs(document.sections)
    requires PACKAGE_MEMBER in PathsOf(MemberValues(document.inventory))
    modifies document.inventory, Refs(document.sections)
    ensures payloads == Payloads(fx, old(MemberValues(document.inventory)), Artifacts(document.uses))
    ensures payloads.None? ==> MemberValues(document.inventory) == old(MemberValues(document.inventory))
                               && ReferenceValues(Refs(document.sections))
                                   == old(ReferenceValues(Refs(document.sections)))
    ensures payloads.Some? ==>
              var members, refs := old(MemberValues(document.inventory)), old(ReferenceValues(Refs(document.sections)));
              && PathsOf(members) <= payloads.value.Keys
              && (forall i :: 0 <= i < |refs| ==> refs[i].path in payloads.value)
              && MemberValues(document.inventory) == BoundMembers(fx, payloads.value, members)
              && ReferenceValues(Refs(document.sections)) == BoundReferences(fx, payloads.value, refs)
  {
    hide *;
    var refs := CollectRefs(document.sections);
    ghost var values := ReferenceValues(refs);
    payloads := FillPayloads(fx, document.inventory, document.uses);
    assert values == old(ReferenceValues(Refs(document.sections)));
    if payloads.Some? {
      KeysCovered(fx, document);
      Bind(fx, payloads.value, document.inventory, refs);
    } else {
      assert values == ReferenceValues(Refs(document.sections));
    }
  }

  /** The three loops together. */
  method Bind(fx: Fixture, payloads: map<string, bytes>, inventory: seq<Member>, refs: seq<Reference>)
    requires Distinct(inventory) && Distinct(refs) && PathsOf(MemberValues(inventory)) <= payloads.Keys
    requires forall i :: 0 <= i < |refs| ==> refs[i].path in payloads
    modifies inventory, refs
    ensures MemberValues(inventory) == BoundMembers(fx, payloads, old(MemberValues(inventory)))
    ensures var values := old(ReferenceValues(refs));
            && (forall i :: 0 <= i < |values| ==> values[i].path in payloads)
            && ReferenceValues(refs) == BoundReferences(fx, payloads, values)
  {
    hide BoundMember, BoundMembers, BoundReference, BoundReferences, HashedMember, RawMember;
    ghost var before, values := MemberValues(inventory), ReferenceValues(refs);
    PathsKnown(payloads, before);
    BindMembers(fx, payloads, inventory);
    BindReferences(fx, payloads, refs);
    BindRawProfiles(fx, payloads, inventory);
    MembersBound(fx, payloads, before, MemberValues(inventory));
    ReferencesBound(fx, payloads, values, ReferenceValues(refs));
  }

  lemma PathsKnown(payloads: map<string, bytes>, members: seq<MemberValue>)
    requires PathsOf(members) <= payloads.Keys
    ensures forall i :: 0 <= i < |members| ==> members[i].path in payloads
  {
    forall i | 0 <= i < |members| ensures members[i].path in payloads {
      assert members[i] in members;
    }
  }

  lemma MembersBound(fx: Fixture, payloads: map<string, bytes>, before: seq<MemberValue>, after: seq<MemberValue>)
    requires PathsOf(before) <= payloads.Keys && |after| == |before|
    requires forall i :: 0 <= i < |before| ==>
               before[i].path in payloads && after[i] == RawMember(fx, payloads, HashedMember(fx, payloads, before[i]))
    ensures after == BoundMembers(fx, payloads, before)
  {
    hide BoundMember, HashedMember, RawMember;
    forall i | 0 <= i < |before| ensures after[i] == BoundMember(fx, payloads, before[i]) {
      MemberLoopsCompose(fx, payloads, before[i]);
    }
  }

  lemma ReferencesBound(fx: Fixture, payloads: map<string, bytes>, before: seq<ReferenceValue>,
                        after: seq<ReferenceValue>)
    requires |after| == |before|
    requires forall i :: 0 <= i < |before| ==>
               before[i].path in payloads && after[i] == BoundReference(fx, payloads, before[i])
    ensures after == BoundReferences(fx, payloads, before)
  {
    hide BoundReference;
  }

  lemma KeysCovered(fx: Fixture, document: Document)
    requires forall r <- Refs(document.sections) :: r.path in PathsOf(MemberValues(document.inventory))
    requires forall i :: 0 <= i < |document.uses| ==> document.uses[i].reference in Refs(document.sections)
    requires PACKAGE_MEMBER in PathsOf(MemberValues(document.inventory))
    requires Payloads(fx, MemberValues(document.inventory), Artifacts(document.uses)).Some?
    ensures var payloads := Payloads(fx, MemberValues(document.inventory), Artifacts(document.uses)).value;
            && PathsOf(MemberValues(document.inventory)) == payloads.Keys
            && (forall i :: 0 <= i < |document.inventory| ==> document.inventory[i].path in payloads)
            && (forall i :: 0 <= i < |Refs(document.sections)| ==> Refs(document.sections)[i].path in payloads)
  {
    var members := MemberValues(document.inventory);
    var base := Fillers(fx, members)[PACKAGE_MEMBER := fx.package];
    assert base.Keys == PathsOf(members);
    forall i | 0 <= i < |document.uses| ensures Artifacts(document.uses)[i].path in base {
      assert document.uses[i].reference.path in PathsOf(members);
    }
    ArtifactsKeepKeys(fx, base, Artifacts(document.uses));
    forall i | 0 <= i < |document.inventory| ensures document.inventory[i].path in PathsOf(members) {
      assert members[i] in members;
    }
  }

  // ---- The size and hash loop --------------------------------------------------------------------------

  /** The dictionary of members by path, for an inventory that was accepted. */
  method InventoryByPath(inventory: seq<Member>) returns (members: map<string, Member>)
    requires UniquePaths(MemberValues(inventory))
    ensures ByPath(members, inventory)
  {
    hide UniquePaths, ByPath;
    members := map[];
    NoMembers();
    for i := 0 to |inventory|
      invariant ByPath(members, inventory[..i])
    {
      assert inventory[..i + 1] == inventory[..i] + [inventory[i]];
      PrefixUnique(inventory, i);
      NotYet(inventory, i, members);
      PathsMore(inventory[..i], inventory[i], members);
      members := members[inventory[i].path := inventory[i]];
    }
    assert inventory[..|inventory|] == inventory;
  }

  lemma NoMembers()
    ensures ByPath(map[], []) && UniquePaths([]) && TotalSize([]) == 0
  {
  }

  lemma NotYet(inventory: seq<Member>, i: nat, byPath: map<string, Member>)
    requires i < |inventory| && ByPath(byPath, inventory[..i])
    requires forall j :: 0 <= j < i ==> inventory[j].path != inventory[i].path
    ensures inventory[i].path !in byPath
  {
  }

  /** The payload loop of `validate_archive_v2_payloads`, after the manifest was accepted. */
  method CheckPayloads(sha: bytes -> string, inventory: seq<Member>, payloads: map<string, bytes>) returns (ok: bool)
    requires UniquePaths(MemberValues(inventory))
    ensures ok <==> PayloadsMatch(sha, MemberValues(inventory), payloads)
  {
    hide ByPath, UniquePaths, PayloadsMatch;
    var members := InventoryByPath(inventory);
    KeysArePaths(members, inventory);
    if payloads.Keys != members.Keys {
      KeysDiffer(sha, inventory, payloads);
      return false;
    }
    ok := ComparePayloads(sha, members, payloads);
    ComparedExactly(sha, members, inventory, payloads);
  }

  predicate Fits(sha: bytes -> string, payload: bytes, size: nat, raw: string) {
    |payload| == size && sha(payload) == raw
  }

  method ComparePayloads(sha: bytes -> string, members: map<string, Member>, payloads: map<string, bytes>)
      returns (ok: bool)
    requires payloads.Keys == members.Keys
    ensures ok <==> forall p :: p in payloads.Keys ==> Fits(sha, payloads[p], members[p].size, members[p].raw)
  {
    var left := payloads.Keys;
    while left != {}
      invariant left <= payloads.Keys
      invariant forall p :: p in payloads.Keys && p !in left ==> Fits(sha, payloads[p], members[p].size, members[p].raw)
    {
      var p :| p in left;
      if |payloads[p]| != members[p].size || sha(payloads[p]) != members[p].raw {
        return false;
      }
      left := left - {p};
    }
    return true;
  }

  lemma KeysDiffer(sha: bytes -> string, inventory: seq<Member>, payloads: map<string, bytes>)
    requires payloads.Keys != PathsOf(MemberValues(inventory))
    ensures !PayloadsMatch(sha, MemberValues(inventory), payloads)
  {
  }

  lemma ComparedExactly(sha: bytes -> string, byPath: map<string, Member>, inventory: seq<Member>,
                        payloads: map<string, bytes>)
    requires ByPath(byPath, inventory) && payloads.Keys == byPath.Keys
    ensures PayloadsMatch(sha, MemberValues(inventory), payloads)
       <==> forall p :: p in payloads.Keys ==> Fits(sha, payloads[p], byPath[p].size, byPath[p].raw)
  {
    KeysArePaths(byPath, inventory);
    if PayloadsMatch(sha, MemberValues(inventory), payloads) {
      forall p | p in payloads.Keys ensures Fits(sha, payloads[p], byPath[p].size, byPath[p].raw) {
        var k :| 0 <= k < |inventory| && inventory[k] == byPath[p];
        assert MemberValues(inventory)[k] in MemberValues(inventory);
      }
    }
    if forall p :: p in payloads.Keys ==> Fits(sha, payloads[p], byPath[p].size, byPath[p].raw) {
      forall m | m in MemberValues(inventory) ensures |payloads[m.path]| == m.size && sha(payloads[m.path]) == m.raw {
        assert Fits(sha, payloads[m.path], byPath[m.path].size, byPath[m.path].raw);
      }
    }
  }

  lemma PrefixUnique(inventory: seq<Member>, i: nat)
    requires UniquePaths(MemberValues(inventory)) && i < |inventory|
    ensures UniquePaths(MemberValues(inventory[..i]))
    ensures forall j :: 0 <= j < i ==> inventory[j].path != inventory[i].path
  {
    assert MemberValues(inventory[..i]) == MemberValues(inventory)[..i];
    forall j | 0 <= j < i ensures inventory[j].path != inventory[i].path {
      assert MemberValues(inventory)[j].path != MemberValues(inventory)[i].path;
    }
  }

  lemma KeysArePaths(byPath: map<string, Member>, inventory: seq<Member>)
    requires ByPath(byPath, inventory)
    ensures byPath.Keys == PathsOf(MemberValues(inventory))
    ensures forall m <- MemberValues(inventory) :: m.path in byPath && byPath[m.path].Value() == m
  {
    var members := MemberValues(inventory);
    forall p | p in byPath ensures p in PathsOf(members) {
      var k :| 0 <= k < |inventory| && inventory[k] == byPath[p];
      assert members[k] in members;
    }
  }
}
