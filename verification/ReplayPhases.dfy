/** Deriving the phases in which a training outcome can honestly be replayed. */
module ReplayPhases {
  import opened Results
  import opened Upstream

  datatype Manifest = Manifest(supported: set<string>, capabilities: set<string>)

  datatype Requirement = Requirement(producer: Port, consumer: Port)

  /** The parts of a source training outcome that the derivation reads. */
  datatype Outcome = Outcome(
    edges: seq<Edge>,
    controllerOf: map<string, string>,
    manifests: map<string, Manifest>,
    outputs: seq<string>,
    completed: bool,
    artifacts: seq<string>,
    requirements: seq<Requirement>,
    caches: seq<string>,
    payloads: Option<seq<string>>)

  ghost function UpstreamNodes(o: Outcome): set<string> {
    UpstreamSet(o.edges, o.outputs)
  }

  /** The manifest of a node's controller; None where the look-up raises a key error. */
  function ManifestFor(o: Outcome, node: string): Option<Manifest> {
    if node in o.controllerOf && o.controllerOf[node] in o.manifests
    then Some(o.manifests[o.controllerOf[node]])
    else None
  }

  predicate Described(o: Outcome, nodes: set<string>) {
    forall n <- nodes :: ManifestFor(o, n).Some?
  }

  predicate Supports(o: Outcome, node: string, phase: string) {
    ManifestFor(o, node).Some? && phase in ManifestFor(o, node).value.supported
  }

  predicate AllSupport(o: Outcome, nodes: set<string>, phase: string) {
    forall n <- nodes :: Supports(o, n, phase)
  }

  predicate KeepsState(m: Manifest) {
    "stateful" in m.capabilities || "emits_artifacts" in m.capabilities
  }

  predicate Retained(o: Outcome, node: string) {
    ManifestFor(o, node).Some? && (KeepsState(ManifestFor(o, node).value) ==> node in o.artifacts)
  }

  predicate StatePresent(o: Outcome, nodes: set<string>) {
    forall n <- nodes :: Retained(o, n)
  }

  function Key(source: Port, target: Port): string {
    source.node + "." + source.name + "->" + target.node + "." + target.name
  }

  predicate Backed(o: Outcome, e: Edge) {
    var key := Key(e.source, e.target);
    && (exists r <- o.requirements :: Key(r.producer, r.consumer) == key)
    && key in o.caches
    && o.payloads.Some? && key in o.payloads.value
  }

  /** Every out-of-fold edge inside the closure is backed by requirement, cache and payload. */
  predicate SelfContained(o: Outcome, nodes: set<string>) {
    forall e <- o.edges :: e.requiresOof && e.source.node in nodes && e.target.node in nodes ==> Backed(o, e)
  }

  function PhasesOver(o: Outcome, nodes: set<string>): seq<string> {
    if o.completed then
      (if AllSupport(o, nodes, "PREDICT") && StatePresent(o, nodes) then ["PREDICT"] else [])
      + (if AllSupport(o, nodes, "EXPLAIN") && StatePresent(o, nodes) then ["EXPLAIN"] else [])
    else if AllSupport(o, nodes, "REFIT") && SelfContained(o, nodes) then ["REFIT"]
    else []
  }

  /** What the derivation returns: a function of the nodes upstream of the outputs. */
  ghost function Phases(o: Outcome): seq<string> {
    PhasesOver(o, UpstreamNodes(o))
  }

  // ---- The same, said of ancestors ----------------------------------------------------------

  /** Every ancestor-or-self of an output has a controller whose manifest lists the phase. */
  ghost predicate AncestorsSupport(o: Outcome, phase: string) {
    forall n :: UpstreamOf(o.edges, o.outputs, n) ==>
      && n in o.controllerOf && o.controllerOf[n] in o.manifests
      && phase in o.manifests[o.controllerOf[n]].supported
  }

  /** Every one of them that is stateful or emits artifacts has an artifact record. */
  ghost predicate AncestorsRetained(o: Outcome) {
    forall n :: UpstreamOf(o.edges, o.outputs, n) ==>
      && n in o.controllerOf && o.controllerOf[n] in o.manifests
      && var capabilities := o.manifests[o.controllerOf[n]].capabilities;
         ("stateful" !in capabilities && "emits_artifacts" !in capabilities) || n in o.artifacts
  }

  /** Every out-of-fold edge between them is named by a requirement, a cache and a payload. */
  ghost predicate AncestorsBacked(o: Outcome) {
    forall i :: 0 <= i < |o.edges| ==>
      var e := o.edges[i];
      e.requiresOof && UpstreamOf(o.edges, o.outputs, e.source.node)
          && UpstreamOf(o.edges, o.outputs, e.target.node) ==>
        var key := e.source.node + "." + e.source.name + "->" + e.target.node + "." + e.target.name;
        && (exists r <- o.requirements ::
              r.producer.node + "." + r.producer.name + "->" + r.consumer.node + "." + r.consumer.name == key)
        && key in o.caches
        && o.payloads.Some? && key in o.payloads.value
  }

  /** Which phases a list must hold, and in which order. */
  ghost predicate Honest(o: Outcome, phases: seq<string>) {
    && (|| phases == [] || phases == ["PREDICT"] || phases == ["EXPLAIN"] || phases == ["PREDICT", "EXPLAIN"]
        || phases == ["REFIT"])
    && ("PREDICT" in phases <==> o.completed && AncestorsSupport(o, "PREDICT") && AncestorsRetained(o))
    && ("EXPLAIN" in phases <==> o.completed && AncestorsSupport(o, "EXPLAIN") && AncestorsRetained(o))
    && ("REFIT" in phases <==> !o.completed && AncestorsSupport(o, "REFIT") && AncestorsBacked(o))
  }

  lemma UpstreamNode(o: Outcome, n: string)
    ensures n in UpstreamNodes(o) <==> UpstreamOf(o.edges, o.outputs, n)
  {
    if UpstreamOf(o.edges, o.outputs, n) {
      UpstreamNamed(o.edges, o.outputs, n);
    }
  }

  lemma SupportExactly(o: Outcome, phase: string)
    ensures AllSupport(o, UpstreamNodes(o), phase) <==> AncestorsSupport(o, phase)
  {
    forall n ensures n in UpstreamNodes(o) <==> UpstreamOf(o.edges, o.outputs, n) {
      UpstreamNode(o, n);
    }
    hide UpstreamNodes, UpstreamOf;
  }

  lemma RetainedExactly(o: Outcome)
    ensures StatePresent(o, UpstreamNodes(o)) <==> AncestorsRetained(o)
  {
    forall n ensures n in UpstreamNodes(o) <==> UpstreamOf(o.edges, o.outputs, n) {
      UpstreamNode(o, n);
    }
    hide UpstreamNodes, UpstreamOf;
  }

  lemma BackedExactly(o: Outcome)
    ensures SelfContained(o, UpstreamNodes(o)) <==> AncestorsBacked(o)
  {
    forall n ensures n in UpstreamNodes(o) <==> UpstreamOf(o.edges, o.outputs, n) {
      UpstreamNode(o, n);
    }
    hide UpstreamNodes, UpstreamOf;
    if SelfContained(o, UpstreamNodes(o)) {
      forall i | 0 <= i < |o.edges| && o.edges[i].requiresOof && UpstreamOf(o.edges, o.outputs, o.edges[i].source.node)
                 && UpstreamOf(o.edges, o.outputs, o.edges[i].target.node)
        ensures Backed(o, o.edges[i])
      {
        assert o.edges[i] in o.edges;
      }
    }
  }

  /** Exactly these phases, in this order. */
  lemma PhasesHonest(o: Outcome)
    ensures Honest(o, Phases(o))
  {
    SupportExactly(o, "PREDICT");
    SupportExactly(o, "EXPLAIN");
    SupportExactly(o, "REFIT");
    RetainedExactly(o);
    BackedExactly(o);
    PhaseNames();
    hide UpstreamNodes, AncestorsSupport, AncestorsRetained, AncestorsBacked, AllSupport, StatePresent, SelfContained;
    var nothing: seq<string> := [];
    assert nothing + ["EXPLAIN"] == ["EXPLAIN"] && ["PREDICT"] + nothing == ["PREDICT"] && nothing + nothing == nothing;
    assert ["PREDICT"] + ["EXPLAIN"] == ["PREDICT", "EXPLAIN"];
  }

  lemma PhaseNames()
    ensures "PREDICT" != "EXPLAIN" && "PREDICT" != "REFIT" && "EXPLAIN" != "REFIT"
  {
    assert "PREDICT"[0] == 'P' && "EXPLAIN"[0] == 'E' && "REFIT"[0] == 'R';
  }

  // ---- The derivation -----------------------------------------------------------------------

  /** The loop over the edges that lowers the flag. */
  method CheckOofEdges(o: Outcome, closure: set<string>) returns (selfContained: bool)
    ensures selfContained <==> SelfContained(o, closure)
  {
    var requirementKeys := set r <- o.requirements :: Key(r.producer, r.consumer);
    var cacheKeys := set k <- o.caches;
    var payloadKeys := if o.payloads.Some? then set k <- o.payloads.value else {};
    selfContained := true;
    for i := 0 to |o.edges|
      invariant selfContained <==>
        forall j ::
          0 <= j < i && o.edges[j].requiresOof
          && o.edges[j].source.node in closure && o.edges[j].target.node in closure
          ==> Backed(o, o.edges[j])
    {
      var e := o.edges[i];
      if e.requiresOof && e.source.node in closure && e.target.node in closure {
        var key := Key(e.source, e.target);
        if !(key in requirementKeys && key in cacheKeys && key in payloadKeys) {
          selfContained := false;
        }
      }
    }
    hide Backed;
    assert selfContained ==> forall e <- o.edges ::
      e.requiresOof && e.source.node in closure && e.target.node in closure ==> Backed(o, e);
  }

  /** `all(...)` over a set, in whatever order it comes; None where a look-up raises before the answer is known. */
  method AllNodesSupport(o: Outcome, nodes: set<string>, phase: string) returns (r: Option<bool>)
    ensures r.Some? ==> r.value == AllSupport(o, nodes, phase)
    ensures r.None? ==> !Described(o, nodes)
  {
    var left := nodes;
    while left != {}
      invariant left <= nodes
      invariant forall n :: n in nodes && n !in left ==> Supports(o, n, phase)
    {
      var n :| n in left;
      var manifest := ManifestFor(o, n);
      if manifest.None? {
        return None;
      }
      if phase !in manifest.value.supported {
        assert !Supports(o, n, phase);
        return Some(false);
      }
      left := left - {n};
    }
    return Some(true);
  }

  method InferenceStatePresent(o: Outcome, nodes: set<string>) returns (r: Option<bool>)
    ensures r.Some? ==> r.value == StatePresent(o, nodes)
    ensures r.None? ==> !Described(o, nodes)
  {
    var left := nodes;
    while left != {}
      invariant left <= nodes
      invariant forall n :: n in nodes && n !in left ==> Retained(o, n)
    {
      var n :| n in left;
      var manifest := ManifestFor(o, n);
      if manifest.None? {
        return None;
      }
      if KeepsState(manifest.value) && n !in o.artifacts {
        assert !Retained(o, n);
        return Some(false);
      }
      left := left - {n};
    }
    return Some(true);
  }

  /**
   * `derive_source_outcome_replayable_phases`; None where it raises, which takes an upstream node
   * without a plan or its controller without a manifest.
   */
  method DeriveSourceOutcomeReplayablePhases(o: Outcome) returns (phases: Option<seq<string>>)
    ensures phases.Some? ==> phases.value == Phases(o) && Honest(o, phases.value)
    ensures phases.None? ==> !Described(o, UpstreamNodes(o))
  {
    PhasesHonest(o);
    hide UpstreamSet, SelfContained, StatePresent, AllSupport, Described, Honest;
    var closure := Closure(o.edges, o.outputs);
    var statePresent := InferenceStatePresent(o, closure);
    var oofSelfContained := CheckOofEdges(o, closure);
    if statePresent.None? {
      return None;
    }
    if !o.completed {
      var refit := AllNodesSupport(o, closure, "REFIT");
      return if refit.None? then None else Some(if refit.value && oofSelfContained then ["REFIT"] else []);
    }
    var predict := AllNodesSupport(o, closure, "PREDICT");
    if predict.None? {
      return None;
    }
    var found := if predict.value && statePresent.value then ["PREDICT"] else [];
    var explain := AllNodesSupport(o, closure, "EXPLAIN");
    return if explain.None? then None
           else Some(found + if explain.value && statePresent.value then ["EXPLAIN"] else []);
  }

  // ---- What the answer depends on ------------------------------------------------------------

  /** The two outcomes agree on everything upstream of the outputs; elsewhere nodes and edges may differ. */
  ghost predicate SameUpstream(o: Outcome, p: Outcome) {
    && p.outputs == o.outputs
    && SameUpstreamEdges(o.edges, p.edges, o.outputs)
    && (forall n <- UpstreamNodes(o) :: ManifestFor(p, n) == ManifestFor(o, n))
    && p.completed == o.completed && p.artifacts == o.artifacts && p.requirements == o.requirements
    && p.caches == o.caches && p.payloads == o.payloads
  }

  /** Only what is upstream matters: the rest of the plan can be changed at will. */
  lemma PhasesOnlyUpstream(o: Outcome, p: Outcome)
    requires SameUpstream(o, p)
    ensures Phases(p) == Phases(o)
    ensures Described(p, UpstreamNodes(p)) <==> Described(o, UpstreamNodes(o))
  {
    hide UpstreamSet;
    ClosureOnlyUpstream(o.edges, p.edges, o.outputs);
    var nodes := UpstreamNodes(o);
    SelfContainedKept(o, p, nodes);
  }

  lemma SelfContainedKept(o: Outcome, p: Outcome, nodes: set<string>)
    requires SameUpstream(o, p) && nodes == UpstreamNodes(o)
    ensures SelfContained(o, nodes) <==> SelfContained(p, nodes)
  {
    hide UpstreamSet;
    forall e: Edge ensures Backed(o, e) <==> Backed(p, e) {
    }
    hide Backed;
  }

  /** Everything `o` records for replay, `p` records too. */
  ghost predicate RecordsMore(o: Outcome, p: Outcome) {
    && p == o.(artifacts := p.artifacts, requirements := p.requirements, caches := p.caches, payloads := p.payloads)
    && (forall n <- o.artifacts :: n in p.artifacts)
    && (forall r <- o.requirements :: r in p.requirements)
    && (forall k <- o.caches :: k in p.caches)
    && (o.payloads.Some? ==> p.payloads.Some? && forall k <- o.payloads.value :: k in p.payloads.value)
  }

  /** Further artifact records and further requirement, cache and payload keys never remove a phase. */
  lemma MoreRecordsKeepPhases(o: Outcome, p: Outcome, phase: string)
    requires RecordsMore(o, p) && phase in Phases(o)
    ensures phase in Phases(p)
  {
    hide UpstreamSet, SelfContained, Backed;
    var nodes := UpstreamNodes(o);
    if SelfContained(o, nodes) {
      MoreBacked(o, p, nodes);
    }
  }

  lemma MoreBacked(o: Outcome, p: Outcome, nodes: set<string>)
    requires RecordsMore(o, p) && SelfContained(o, nodes)
    ensures SelfContained(p, nodes)
  {
    forall e | e in p.edges && e.requiresOof && e.source.node in nodes && e.target.node in nodes ensures Backed(p, e) {
      assert Backed(o, e);
      var r :| r in o.requirements && Key(r.producer, r.consumer) == Key(e.source, e.target);
      assert r in p.requirements;
    }
  }
}
