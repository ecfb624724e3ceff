/** The lineage of a replay outcome, checked against the plan it was replayed from. */
module ReplayLineage {
  import opened Results
  import opened TextSort
  import opened Upstream

  datatype NodePlan = NodePlan(inputNodes: seq<string>, controller: string, version: string, params: string,
                               phases: set<string>)

  datatype LineageRecord = LineageRecord(id: string, node: string, controller: string, version: string, params: string,
                                         variant: Option<string>, fold: Option<string>, inputLineage: seq<string>)

  /** What the check reads of the source outcome and the request. */
  datatype Source = Source(plans: map<string, NodePlan>, edges: seq<Edge>, variant: Option<string>,
                           requested: seq<string>, phase: string)

  const TEXT_BELOW := (a: string, b: string) => Below(a, b)

  // ---- Specification ------------------------------------------------------------------------

  /** Sorted by unique record id. */
  predicate SortedIds(records: seq<LineageRecord>) {
    forall i, j :: 0 <= i < j < |records| ==> records[i].id != records[j].id && Below(records[i].id, records[j].id)
  }

  predicate DistinctNodes(records: seq<LineageRecord>) {
    forall i, j :: 0 <= i < j < |records| ==> records[i].node != records[j].node
  }

  function NodesOf(records: seq<LineageRecord>): set<string> {
    set r <- records :: r.node
  }

  function RecordOf(records: seq<LineageRecord>, node: string): Option<LineageRecord> {
    if records == [] then None
    else
      var n := |records| - 1;
      if records[n].node == node then Some(records[n]) else RecordOf(records[..n], node)
  }

  /** The record ids of the listed nodes, None if one of them has no record. */
  function IdsOf(records: seq<LineageRecord>, nodes: seq<string>): Option<seq<string>> {
    if nodes == [] then Some([])
    else
      var n := |nodes| - 1;
      var before, last := IdsOf(records, nodes[..n]), RecordOf(records, nodes[n]);
      if before.Some? && last.Some? then Some(before.value + [last.value.id]) else None
  }

  /** One record repeats its node's plan, and its input lineage the records of the node's inputs. */
  predicate RecordFits(s: Source, records: seq<LineageRecord>, r: LineageRecord) {
    && r.node in s.plans
    && var plan := s.plans[r.node];
       var ids := IdsOf(records, plan.inputNodes);
       && s.phase in plan.phases
       && r.controller == plan.controller && r.version == plan.version && r.params == plan.params
       && r.variant == s.variant && r.fold.None?
       && ids.Some? && r.inputLineage == Sort(ids.value, TEXT_BELOW)
  }

  ghost predicate Accepted(s: Source, records: seq<LineageRecord>) {
    && SortedIds(records)
    && UpstreamSet(s.edges, s.requested) <= s.plans.Keys
    && NodesOf(records) == UpstreamSet(s.edges, s.requested)
    && DistinctNodes(records)
    && forall r <- records :: RecordFits(s, records, r)
  }

  // ---- The check ------------------------------------------------------------------------------

  lemma {:induction false} RecordOfExactly(records: seq<LineageRecord>, node: string)
    ensures RecordOf(records, node).Some? <==> node in NodesOf(records)
    ensures RecordOf(records, node).Some? ==>
              RecordOf(records, node).value in records && RecordOf(records, node).value.node == node
  {
    if records != [] {
      var n := |records| - 1;
      RecordOfExactly(records[..n], node);
      assert records == records[..n] + [records[n]];
      assert NodesOf(records) == NodesOf(records[..n]) + {records[n].node};
    }
  }

  lemma OneMoreNode(records: seq<LineageRecord>, r: LineageRecord)
    ensures DistinctNodes(records + [r]) <==> DistinctNodes(records) && r.node !in NodesOf(records)
  {
    var all := records + [r];
    if DistinctNodes(all) {
      forall i, j | 0 <= i < j < |records| ensures records[i].node != records[j].node {
        assert all[i].node != all[j].node;
      }
      forall q | q in records ensures q.node != r.node {
        var i :| 0 <= i < |records| && records[i] == q;
        assert all[i].node != all[|records|].node;
      }
    }
    if DistinctNodes(records) && r.node !in NodesOf(records) {
      forall i, j | 0 <= i < j < |all| ensures all[i].node != all[j].node {
        assert all[i] in records;
      }
    }
  }

  /** `records_by_node`: later records replace earlier ones, so its size tells whether nodes repeat. */
  method RecordsByNode(records: seq<LineageRecord>) returns (byNode: map<string, LineageRecord>)
    ensures byNode.Keys == NodesOf(records)
    ensures forall node <- byNode :: RecordOf(records, node) == Some(byNode[node])
    ensures |byNode| == |records| <==> DistinctNodes(records)
  {
    hide Indexed;
    byNode := map[];
    NothingIndexed();
    for i := 0 to |records|
      invariant Indexed(byNode, records[..i])
    {
      assert records[..i + 1] == records[..i] + [records[i]];
      IndexedMore(byNode, records[..i], records[i]);
      byNode := byNode[records[i].node := records[i]];
    }
    assert records[..|records|] == records;
    assert Indexed(byNode, records);
    IndexedMeans(byNode, records);
  }

  ghost predicate Indexed(byNode: map<string, LineageRecord>, records: seq<LineageRecord>) {
    && byNode.Keys == NodesOf(records)
    && (forall node <- byNode :: RecordOf(records, node) == Some(byNode[node]))
    && |byNode.Keys| <= |records|
    && (|byNode.Keys| == |records| <==> DistinctNodes(records))
  }

  lemma NothingIndexed()
    ensures Indexed(map[], [])
  {
  }

  lemma IndexedMeans(byNode: map<string, LineageRecord>, records: seq<LineageRecord>)
    requires Indexed(byNode, records)
    ensures byNode.Keys == NodesOf(records)
    ensures forall node <- byNode :: RecordOf(records, node) == Some(byNode[node])
    ensures |byNode| == |records| <==> DistinctNodes(records)
  {
    assert |byNode| == |byNode.Keys|;
  }

  lemma OneMoreRecord(records: seq<LineageRecord>, r: LineageRecord)
    ensures NodesOf(records + [r]) == NodesOf(records) + {r.node}
    ensures forall node :: RecordOf(records + [r], node) == if r.node == node then Some(r) else RecordOf(records, node)
  {
    assert (records + [r])[..|records|] == records;
  }

  lemma IndexedMore(byNode: map<string, LineageRecord>, records: seq<LineageRecord>, r: LineageRecord)
    requires Indexed(byNode, records)
    ensures Indexed(byNode[r.node := r], records + [r])
  {
    hide DistinctNodes, RecordOf, NodesOf;
    OneMoreRecord(records, r);
    OneMoreNode(records, r);
    var later := byNode[r.node := r];
    assert later.Keys == byNode.Keys + {r.node};
    if r.node in byNode {
      assert later.Keys == byNode.Keys;
    }
  }

  /** `sorted(records_by_node[n]["record_id"] for n in input_nodes)`, None where a node has no record. */
  method ExpectedInputs(byNode: map<string, LineageRecord>, ghost records: seq<LineageRecord>, nodes: seq<string>)
      returns (ids: Option<seq<string>>)
    requires byNode.Keys == NodesOf(records) && forall node <- byNode :: RecordOf(records, node) == Some(byNode[node])
    ensures ids == if IdsOf(records, nodes).Some? then Some(Sort(IdsOf(records, nodes).value, TEXT_BELOW)) else None
  {
    var found: seq<string> := [];
    for i := 0 to |nodes|
      invariant IdsOf(records, nodes[..i]) == Some(found)
    {
      assert nodes[..i + 1][..i] == nodes[..i];
      RecordOfExactly(records, nodes[i]);
      if nodes[i] !in byNode {
        NoIds(records, nodes, i);
        return None;
      }
      found := found + [byNode[nodes[i]].id];
    }
    assert nodes[..|nodes|] == nodes;
    return Some(Sort(found, TEXT_BELOW));
  }

  lemma {:induction false} NoIds(records: seq<LineageRecord>, nodes: seq<string>, i: nat)
    requires i < |nodes| && RecordOf(records, nodes[i]).None?
    ensures IdsOf(records, nodes).None?
  {
    var n := |nodes| - 1;
    if i < n {
      NoIds(records, nodes[..n], i);
    }
  }

  /** The lineage part of `validate_replay_outcome`. */
  method ValidateLineage(s: Source, records: seq<LineageRecord>) returns (ok: bool)
    ensures ok <==> Accepted(s, records)
  {
    hide UpstreamSet, SortedIds, DistinctNodes, RecordFits;
    if !SortedIds(records) {
      return false;
    }
    var closure := TransitiveNodeIds(s.plans.Keys, s.edges, s.requested);
    if closure.None? || NodesOf(records) != closure.value {
      return false;
    }
    var byNode := RecordsByNode(records);
    if |byNode| != |records| {
      return false;
    }
    ok := CheckRecords(s, records, byNode, closure.value);
  }

  /** The loop over the closure; the order of its nodes does not matter to the verdict. */
  method CheckRecords(s: Source, records: seq<LineageRecord>, byNode: map<string, LineageRecord>, closure: set<string>)
      returns (ok: bool)
    requires closure <= s.plans.Keys && closure == NodesOf(records) == byNode.Keys && DistinctNodes(records)
    requires forall node <- byNode :: RecordOf(records, node) == Some(byNode[node])
    ensures ok <==> forall r <- records :: RecordFits(s, records, r)
  {
    hide RecordFits;
    EachOnce(records, byNode);
    var left := closure;
    while left != {}
      invariant left <= closure
      invariant forall node :: node in closure && node !in left ==> RecordFits(s, records, byNode[node])
    {
      var node :| node in left;
      ok := CheckRecord(s, records, byNode, byNode[node]);
      if !ok {
        RecordOfExactly(records, node);
        return false;
      }
      left := left - {node};
    }
    return true;
  }

  lemma EachOnce(records: seq<LineageRecord>, byNode: map<string, LineageRecord>)
    requires NodesOf(records) == byNode.Keys && DistinctNodes(records)
    requires forall node <- byNode :: RecordOf(records, node) == Some(byNode[node])
    ensures forall r <- records :: r.node in byNode && byNode[r.node] == r
  {
    forall r | r in records ensures r.node in byNode && byNode[r.node] == r {
      RecordOfExactly(records, r.node);
      var i :| 0 <= i < |records| && records[i] == r;
      var j :| 0 <= j < |records| && records[j] == byNode[r.node];
    }
  }

  method CheckRecord(s: Source, ghost records: seq<LineageRecord>, byNode: map<string, LineageRecord>, r: LineageRecord)
      returns (ok: bool)
    requires r.node in s.plans && byNode.Keys == NodesOf(records)
    requires forall node <- byNode :: RecordOf(records, node) == Some(byNode[node])
    ensures ok <==> RecordFits(s, records, r)
  {
    var plan := s.plans[r.node];
    var expected := ExpectedInputs(byNode, records, plan.inputNodes);
    return s.phase in plan.phases
           && r.controller == plan.controller && r.version == plan.version && r.params == plan.params
           && r.variant == s.variant && r.fold.None?
           && Some(r.inputLineage) == expected;
  }

  // ---- What a record's input lineage is ---------------------------------------------------------

  lemma {:induction false} IdsInOrder(records: seq<LineageRecord>, nodes: seq<string>)
    ensures IdsOf(records, nodes).Some? <==> forall n <- nodes :: n in NodesOf(records)
    ensures IdsOf(records, nodes).Some? ==>
              && |IdsOf(records, nodes).value| == |nodes|
              && forall i :: 0 <= i < |nodes| ==> Names(records, nodes[i], IdsOf(records, nodes).value[i])
  {
    if nodes != [] {
      var n := |nodes| - 1;
      IdsInOrder(records, nodes[..n]);
      RecordOfExactly(records, nodes[n]);
      assert nodes == nodes[..n] + [nodes[n]];
    }
  }

  /** A record repeats its node's plan, and lists the ids of the records of its inputs in ascending order. */
  lemma RecordCopiesPlan(s: Source, records: seq<LineageRecord>, r: LineageRecord)
    requires RecordFits(s, records, r)
    ensures r.node in s.plans
    ensures var plan := s.plans[r.node];
            && s.phase in plan.phases && r.controller == plan.controller && r.version == plan.version
            && r.params == plan.params && r.variant == s.variant && r.fold == None
    ensures exists ids: seq<string> ::
              && |ids| == |s.plans[r.node].inputNodes|
              && (forall i :: 0 <= i < |ids| ==> Names(records, s.plans[r.node].inputNodes[i], ids[i]))
              && multiset(r.inputLineage) == multiset(ids)
              && forall i, j :: 0 <= i < j < |r.inputLineage| ==> Below(r.inputLineage[i], r.inputLineage[j])
  {
    var ids := IdsOf(records, s.plans[r.node].inputNodes).value;
    IdsInOrder(records, s.plans[r.node].inputNodes);
    SortPermutes(ids, TEXT_BELOW);
    TextPreorder();
    SortSorts(ids, TEXT_BELOW);
    var lineage := r.inputLineage;
    assert forall i, j :: 0 <= i < j < |lineage| ==>
          TEXT_BELOW(lineage[i], lineage[j]) == Below(lineage[i], lineage[j]);
  }

  lemma TextPreorder()
    ensures Preorder(TEXT_BELOW)
  {
    forall x: string, y: string ensures TEXT_BELOW(x, y) || TEXT_BELOW(y, x) {
      BelowTotal(x, y);
    }
    forall x: string, y: string, z: string | TEXT_BELOW(x, y) && TEXT_BELOW(y, z) ensures TEXT_BELOW(x, z) {
      BelowTransitive(x, y, z);
    }
  }

  // ---- The lineage mirrors the plan -----------------------------------------------------------

  predicate Names(records: seq<LineageRecord>, node: string, id: string) {
    exists r <- records :: r.node == node && r.id == id
  }

  predicate InputStep(s: Source, a: string, b: string) {
    a in s.plans && b in s.plans[a].inputNodes
  }

  predicate LineageStep(records: seq<LineageRecord>, x: string, y: string) {
    exists r <- records :: r.id == x && y in r.inputLineage
  }

  /** From a node to an input, to an input of that, and so on. */
  predicate NodePath(s: Source, w: seq<string>) {
    w != [] && forall i :: 0 <= i < |w| - 1 ==> InputStep(s, w[i], w[i + 1])
  }

  predicate IdPath(records: seq<LineageRecord>, v: seq<string>) {
    v != [] && forall i :: 0 <= i < |v| - 1 ==> LineageStep(records, v[i], v[i + 1])
  }

  /** Each id is that of the node's record, all along. */
  predicate Mirrors(records: seq<LineageRecord>, w: seq<string>, v: seq<string>) {
    |w| == |v| && forall i :: 0 <= i < |w| ==> Names(records, w[i], v[i])
  }

  lemma {:induction false} IdAt(records: seq<LineageRecord>, nodes: seq<string>, i: nat)
    requires IdsOf(records, nodes).Some? && i < |nodes|
    ensures |IdsOf(records, nodes).value| == |nodes|
    ensures RecordOf(records, nodes[i]).Some? && IdsOf(records, nodes).value[i] == RecordOf(records, nodes[i]).value.id
  {
    var n := |nodes| - 1;
    IdsLength(records, nodes[..n]);
    if i < n {
      IdAt(records, nodes[..n], i);
    }
  }

  lemma {:induction false} IdsLength(records: seq<LineageRecord>, nodes: seq<string>)
    requires IdsOf(records, nodes).Some?
    ensures |IdsOf(records, nodes).value| == |nodes|
  {
    if nodes != [] {
      IdsLength(records, nodes[..|nodes| - 1]);
    }
  }

  lemma IdsExactly(records: seq<LineageRecord>, nodes: seq<string>, id: string)
    requires IdsOf(records, nodes).Some?
    ensures id in IdsOf(records, nodes).value
       <==> exists b <- nodes :: RecordOf(records, b).Some? && RecordOf(records, b).value.id == id
    ensures forall b <- nodes :: RecordOf(records, b).Some?
  {
    hide IdsOf, RecordOf;
    var ids := IdsOf(records, nodes).value;
    IdsLength(records, nodes);
    forall i | 0 <= i < |nodes|
      ensures RecordOf(records, nodes[i]).Some? && ids[i] == RecordOf(records, nodes[i]).value.id
    {
      IdAt(records, nodes, i);
    }
    forall b | b in nodes && RecordOf(records, b).Some? && RecordOf(records, b).value.id == id ensures id in ids {
      var i :| 0 <= i < |nodes| && nodes[i] == b;
      assert ids[i] == id;
    }
    if id in ids {
      var i :| 0 <= i < |ids| && ids[i] == id;
      assert nodes[i] in nodes;
    }
  }

  /** One step: the input lineage of a record names exactly the records of its node's inputs. */
  lemma StepsMatch(s: Source, records: seq<LineageRecord>, r: LineageRecord, y: string)
    requires Accepted(s, records) && r in records
    ensures y in r.inputLineage <==> exists b <- s.plans[r.node].inputNodes :: Names(records, b, y)
    ensures forall b <- s.plans[r.node].inputNodes :: b in NodesOf(records)
  {
    assert RecordFits(s, records, r);
    var nodes := s.plans[r.node].inputNodes;
    var ids := IdsOf(records, nodes).value;
    SortPermutes(ids, TEXT_BELOW);
    assert y in r.inputLineage <==> y in multiset(r.inputLineage);
    assert y in ids <==> y in multiset(ids);
    IdsExactly(records, nodes, y);
    forall b | b in nodes
      ensures b in NodesOf(records) && (Names(records, b, y) <==> RecordOf(records, b).value.id == y)
    {
      RecordOfExactly(records, b);
      forall q | q in records && q.node == b ensures q == RecordOf(records, b).value {
        SameNode(records, q, RecordOf(records, b).value);
      }
    }
  }

  lemma SameNode(records: seq<LineageRecord>, q: LineageRecord, r: LineageRecord)
    requires DistinctNodes(records) && q in records && r in records && q.node == r.node
    ensures q == r
  {
    var i :| 0 <= i < |records| && records[i] == q;
    var j :| 0 <= j < |records| && records[j] == r;
  }

  lemma SameId(records: seq<LineageRecord>, q: LineageRecord, r: LineageRecord)
    requires SortedIds(records) && q in records && r in records && q.id == r.id
    ensures q == r
  {
    var i :| 0 <= i < |records| && records[i] == q;
    var j :| 0 <= j < |records| && records[j] == r;
  }

  /** A step in the plan is a step in the lineage, between the same nodes' records, and conversely. */
  lemma StepMirrors(s: Source, records: seq<LineageRecord>, a: string, x: string)
    requires Accepted(s, records) && Names(records, a, x)
    ensures forall b :: InputStep(s, a, b) ==> exists y :: Names(records, b, y) && LineageStep(records, x, y)
    ensures forall y :: LineageStep(records, x, y) ==> exists b :: Names(records, b, y) && InputStep(s, a, b)
  {
    hide Accepted;
    var r :| r in records && r.node == a && r.id == x;
    forall b | InputStep(s, a, b) ensures exists y :: Names(records, b, y) && LineageStep(records, x, y) {
      StepsMatch(s, records, r, "");
      var q :| q in records && q.node == b;
      StepsMatch(s, records, r, q.id);
      assert Names(records, b, q.id) && LineageStep(records, x, q.id);
    }
    forall y | LineageStep(records, x, y) ensures exists b :: Names(records, b, y) && InputStep(s, a, b) {
      var q :| q in records && q.id == x && y in q.inputLineage;
      SameRecord(s, records, q, r);
      StepsMatch(s, records, r, y);
      KnownNode(s, records, r);
    }
  }

  lemma SameRecord(s: Source, records: seq<LineageRecord>, q: LineageRecord, r: LineageRecord)
    requires Accepted(s, records) && q in records && r in records && q.id == r.id
    ensures q == r
  {
    SameId(records, q, r);
  }

  lemma KnownNode(s: Source, records: seq<LineageRecord>, r: LineageRecord)
    requires Accepted(s, records) && r in records
    ensures r.node in s.plans
  {
    assert RecordFits(s, records, r);
  }

  lemma NodePathTail(s: Source, w: seq<string>)
    requires NodePath(s, w) && |w| > 1
    ensures NodePath(s, w[1..])
  {
    forall i | 0 <= i < |w[1..]| - 1 ensures InputStep(s, w[1..][i], w[1..][i + 1]) {
      assert InputStep(s, w[i + 1], w[i + 2]);
    }
  }

  lemma IdPathTail(records: seq<LineageRecord>, v: seq<string>)
    requires IdPath(records, v) && |v| > 1
    ensures IdPath(records, v[1..])
  {
    forall i | 0 <= i < |v[1..]| - 1 ensures LineageStep(records, v[1..][i], v[1..][i + 1]) {
      assert LineageStep(records, v[i + 1], v[i + 2]);
    }
  }

  lemma NodePathLonger(s: Source, a: string, later: seq<string>)
    requires NodePath(s, later) && InputStep(s, a, later[0])
    ensures NodePath(s, [a] + later)
  {
    var w := [a] + later;
    forall i | 0 <= i < |w| - 1 ensures InputStep(s, w[i], w[i + 1]) {
      assert i > 0 ==> InputStep(s, later[i - 1], later[i]);
    }
  }

  lemma IdPathLonger(records: seq<LineageRecord>, x: string, later: seq<string>)
    requires IdPath(records, later) && LineageStep(records, x, later[0])
    ensures IdPath(records, [x] + later)
  {
    var v := [x] + later;
    forall i | 0 <= i < |v| - 1 ensures LineageStep(records, v[i], v[i + 1]) {
      assert i > 0 ==> LineageStep(records, later[i - 1], later[i]);
    }
  }

  lemma MirrorsLonger(records: seq<LineageRecord>, a: string, x: string, w: seq<string>, v: seq<string>)
    requires Names(records, a, x) && Mirrors(records, w, v)
    ensures Mirrors(records, [a] + w, [x] + v)
  {
    forall i | 0 <= i < |[a] + w| ensures Names(records, ([a] + w)[i], ([x] + v)[i]) {
      assert i > 0 ==> Names(records, w[i - 1], v[i - 1]);
    }
  }

  /** Every path through input nodes is mirrored by one through input lineage, of the same length. */
  lemma {:induction false} NodePathMirrored(s: Source, records: seq<LineageRecord>, w: seq<string>, x: string)
      returns (v: seq<string>)
    requires Accepted(s, records) && NodePath(s, w) && Names(records, w[0], x)
    ensures IdPath(records, v) && v[0] == x && Mirrors(records, w, v)
    decreases |w|
  {
    hide Accepted, Names, InputStep, LineageStep;
    if |w| == 1 {
      v := [x];
    } else {
      assert InputStep(s, w[0], w[1]);
      StepMirrors(s, records, w[0], x);
      var y :| Names(records, w[1], y) && LineageStep(records, x, y);
      NodePathTail(s, w);
      var later := NodePathMirrored(s, records, w[1..], y);
      v := [x] + later;
      IdPathLonger(records, x, later);
      MirrorsLonger(records, w[0], x, w[1..], later);
      assert w == [w[0]] + w[1..];
    }
  }

  /** And every path through input lineage mirrors one through input nodes. */
  lemma {:induction false} IdPathMirrored(s: Source, records: seq<LineageRecord>, v: seq<string>, a: string)
      returns (w: seq<string>)
    requires Accepted(s, records) && IdPath(records, v) && Names(records, a, v[0])
    ensures NodePath(s, w) && w[0] == a && Mirrors(records, w, v)
    decreases |v|
  {
    hide Accepted, Names, InputStep, LineageStep;
    if |v| == 1 {
      w := [a];
    } else {
      assert LineageStep(records, v[0], v[1]);
      StepMirrors(s, records, a, v[0]);
      var b :| Names(records, b, v[1]) && InputStep(s, a, b);
      IdPathTail(records, v);
      var later := IdPathMirrored(s, records, v[1..], b);
      w := [a] + later;
      NodePathLonger(s, a, later);
      MirrorsLonger(records, a, v[0], later, v[1..]);
      assert v == [v[0]] + v[1..];
    }
  }

  ghost predicate InputsReach(s: Source, a: string, b: string) {
    exists w :: NodePath(s, w) && w[0] == a && w[|w| - 1] == b
  }

  ghost predicate LineageReaches(records: seq<LineageRecord>, x: string, y: string) {
    exists v :: IdPath(records, v) && v[0] == x && v[|v| - 1] == y
  }

  /**
   * Following input lineage from a record reaches exactly the records of the nodes that
   * following input nodes reaches from its node, over paths of any length.
   */
  lemma LineageSimulates(s: Source, records: seq<LineageRecord>, r: LineageRecord)
    requires Accepted(s, records) && r in records
    ensures forall y ::
              LineageReaches(records, r.id, y) <==> exists b :: InputsReach(s, r.node, b) && Names(records, b, y)
    ensures forall b :: InputsReach(s, r.node, b) ==> b in NodesOf(records)
  {
    hide Accepted;
    assert Names(records, r.node, r.id);
    forall y | LineageReaches(records, r.id, y) ensures exists b :: InputsReach(s, r.node, b) && Names(records, b, y) {
      var v :| IdPath(records, v) && v[0] == r.id && v[|v| - 1] == y;
      var w := IdPathMirrored(s, records, v, r.node);
      assert InputsReach(s, r.node, w[|w| - 1]) && Names(records, w[|w| - 1], y);
    }
    forall b, y | InputsReach(s, r.node, b) && Names(records, b, y) ensures LineageReaches(records, r.id, y) {
      var w :| NodePath(s, w) && w[0] == r.node && w[|w| - 1] == b;
      var v := NodePathMirrored(s, records, w, r.id);
      NamesOnce(s, records, b, v[|v| - 1], y);
    }
    forall b | InputsReach(s, r.node, b) ensures b in NodesOf(records) {
      var w :| NodePath(s, w) && w[0] == r.node && w[|w| - 1] == b;
      var v := NodePathMirrored(s, records, w, r.id);
      assert Names(records, b, v[|v| - 1]);
    }
  }

  lemma NamesOnce(s: Source, records: seq<LineageRecord>, node: string, x: string, y: string)
    requires Accepted(s, records) && Names(records, node, x) && Names(records, node, y)
    ensures x == y
  {
    var q :| q in records && q.node == node && q.id == x;
    var r :| r in records && r.node == node && r.id == y;
    SameNode(records, q, r);
  }

  /** The plans' input nodes repeat the graph's edges. */
  ghost predicate CopiesAgree(s: Source) {
    forall a, b :: b in s.plans ==> (a in s.plans[b].inputNodes <==> Feeds(s.edges, a, b))
  }

  /** Then no lineage record is idle: each is reached from the record of some requested output. */
  lemma EveryRecordReached(s: Source, records: seq<LineageRecord>, r: LineageRecord)
    requires Accepted(s, records) && CopiesAgree(s) && r in records
    ensures exists q <- records :: q.node in s.requested && LineageReaches(records, q.id, r.id)
  {
    assert r.node in UpstreamSet(s.edges, s.requested);
    var p :| Path(s.edges, p) && p[0] == r.node && p[|p| - 1] in s.requested;
    var w := Backwards(s, p);
    OutputUpstream(s.edges, s.requested, w[0]);
    UpstreamNamed(s.edges, s.requested, w[0]);
    assert w[0] in NodesOf(records);
    var q :| q in records && q.node == w[0];
    assert InputsReach(s, q.node, r.node) && Names(records, r.node, r.id);
    LineageSimulates(s, records, q);
  }

  /** A path along edges, read backwards, is a path through input nodes. */
  lemma {:induction false} Backwards(s: Source, p: seq<string>) returns (w: seq<string>)
    requires Path(s.edges, p) && CopiesAgree(s) && p[|p| - 1] in s.requested
    requires UpstreamSet(s.edges, s.requested) <= s.plans.Keys
    ensures NodePath(s, w) && w[0] == p[|p| - 1] && w[|w| - 1] == p[0]
    decreases |p|
  {
    if |p| == 1 {
      w := p;
    } else {
      var tail := p[1..];
      forall i | 0 <= i < |tail| - 1 ensures Feeds(s.edges, tail[i], tail[i + 1]) {
        assert Feeds(s.edges, p[i + 1], p[i + 2]);
      }
      assert Path(s.edges, tail);
      var later := Backwards(s, tail);
      assert Feeds(s.edges, p[0], p[1]);
      assert UpstreamOf(s.edges, s.requested, p[1]);
      UpstreamNamed(s.edges, s.requested, p[1]);
      assert p[1] in s.plans;
      w := later + [p[0]];
      forall i | 0 <= i < |w| - 1 ensures InputStep(s, w[i], w[i + 1]) {
        assert i < |later| - 1 ==> InputStep(s, later[i], later[i + 1]);
      }
    }
  }
}
