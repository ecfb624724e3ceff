/** The upstream closure of a plan's graph: everything the output nodes are computed from. */
module Upstream {
  import opened Results

  datatype Port = Port(node: string, name: string)

  datatype Edge = Edge(source: Port, target: Port, requiresOof: bool)

  predicate Feeds(edges: seq<Edge>, a: string, b: string) {
    exists i :: 0 <= i < |edges| && edges[i].source.node == a && edges[i].target.node == b
  }

  predicate Path(edges: seq<Edge>, w: seq<string>) {
    w != [] && forall i :: 0 <= i < |w| - 1 ==> Feeds(edges, w[i], w[i + 1])
  }

  /** Some path along edges leads from `x` to an output; an output leads to itself. */
  ghost predicate UpstreamOf(edges: seq<Edge>, outputs: seq<string>, x: string) {
    exists w :: Path(edges, w) && w[0] == x && w[|w| - 1] in outputs
  }

  /** Every node named by an edge or an output. */
  function Named(edges: seq<Edge>, outputs: seq<string>): set<string> {
    (set i | 0 <= i < |edges| :: edges[i].source.node) + (set o <- outputs)
  }

  ghost function UpstreamSet(edges: seq<Edge>, outputs: seq<string>): set<string> {
    set x | x in Named(edges, outputs) && UpstreamOf(edges, outputs, x)
  }

  lemma UpstreamNamed(edges: seq<Edge>, outputs: seq<string>, x: string)
    requires UpstreamOf(edges, outputs, x)
    ensures x in Named(edges, outputs)
  {
    var w :| Path(edges, w) && w[0] == x && w[|w| - 1] in outputs;
    if |w| > 1 {
      assert Feeds(edges, w[0], w[1]);
    }
  }

  lemma OutputUpstream(edges: seq<Edge>, outputs: seq<string>, x: string)
    requires x in outputs
    ensures UpstreamOf(edges, outputs, x)
  {
    assert Path(edges, [x]);
  }

  lemma FeederUpstream(edges: seq<Edge>, outputs: seq<string>, a: string, b: string)
    requires Feeds(edges, a, b) && UpstreamOf(edges, outputs, b)
    ensures UpstreamOf(edges, outputs, a)
  {
    var w :| Path(edges, w) && w[0] == b && w[|w| - 1] in outputs;
    var longer := [a] + w;
    forall i | 0 <= i < |longer| - 1 ensures Feeds(edges, longer[i], longer[i + 1]) {
      if i > 0 {
        assert Feeds(edges, w[i - 1], w[i]);
      }
    }
    assert Path(edges, longer) && longer[|longer| - 1] == w[|w| - 1];
  }

  /** A set that holds the end of a path and every feeder of its members holds the start. */
  lemma {:induction false} BackAlong(edges: seq<Edge>, s: set<string>, w: seq<string>)
    requires Path(edges, w) && w[|w| - 1] in s
    requires forall a, b :: b in s && Feeds(edges, a, b) ==> a in s
    ensures w[0] in s
  {
    if |w| > 1 {
      var n := |w| - 1;
      assert Feeds(edges, w[n - 1], w[n]);
      forall i | 0 <= i < n - 1 ensures Feeds(edges, w[..n][i], w[..n][i + 1]) {
        assert Feeds(edges, w[i], w[i + 1]);
      }
      BackAlong(edges, s, w[..n]);
    }
  }

  // ---- The worklist --------------------------------------------------------------------------

  /** `incoming.get(node, [])`: the sources of the edges into a node, in order. */
  function Sources(edges: seq<Edge>, b: string): seq<string> {
    if edges == [] then []
    else
      var n := |edges| - 1;
      Sources(edges[..n], b) + if edges[n].target.node == b then [edges[n].source.node] else []
  }

  lemma {:induction false} SourcesFeed(edges: seq<Edge>, a: string, b: string)
    ensures a in Sources(edges, b) <==> Feeds(edges, a, b)
  {
    if edges != [] {
      var n := |edges| - 1;
      SourcesFeed(edges[..n], a, b);
      if Feeds(edges[..n], a, b) {
        var i :| 0 <= i < n && edges[..n][i].source.node == a && edges[..n][i].target.node == b;
        assert edges[i].source.node == a && edges[i].target.node == b;
      }
      if Feeds(edges, a, b) {
        var i :| 0 <= i < |edges| && edges[i].source.node == a && edges[i].target.node == b;
        assert i < n ==> edges[..n][i].source.node == a && edges[..n][i].target.node == b;
      }
    }
  }

  ghost predicate Indexes(incoming: map<string, seq<string>>, edges: seq<Edge>) {
    && (forall b <- incoming :: incoming[b] == Sources(edges, b))
    && (forall b :: b !in incoming ==> Sources(edges, b) == [])
  }

  method Incoming(edges: seq<Edge>) returns (incoming: map<string, seq<string>>)
    ensures Indexes(incoming, edges)
  {
    incoming := map[];
    for i := 0 to |edges|
      invariant Indexes(incoming, edges[..i])
    {
      var target, source := edges[i].target.node, edges[i].source.node;
      forall b ensures Sources(edges[..i + 1], b) == Sources(edges[..i], b) + if target == b then [source] else [] {
        assert edges[..i + 1][..i] == edges[..i];
      }
      incoming := incoming[target := (if target in incoming then incoming[target] else []) + [source]];
    }
    assert edges[..|edges|] == edges;
  }

  /** Where the worklist stands: nothing upstream is lost, and nothing else gets in. */
  ghost predicate Working(edges: seq<Edge>, outputs: seq<string>, pending: seq<string>, closure: set<string>) {
    && (forall x <- closure :: UpstreamOf(edges, outputs, x))
    && (forall x <- pending :: UpstreamOf(edges, outputs, x))
    && (forall x <- outputs :: x in closure || x in pending)
    && (forall a, b :: b in closure && Feeds(edges, a, b) ==> a in closure || a in pending)
  }

  lemma Started(edges: seq<Edge>, outputs: seq<string>)
    ensures Working(edges, outputs, outputs, {})
  {
    forall x | x in outputs ensures UpstreamOf(edges, outputs, x) {
      OutputUpstream(edges, outputs, x);
    }
  }

  lemma Skipped(edges: seq<Edge>, outputs: seq<string>, pending: seq<string>, closure: set<string>)
    requires Working(edges, outputs, pending, closure) && pending != [] && pending[|pending| - 1] in closure
    ensures Working(edges, outputs, pending[..|pending| - 1], closure)
  {
    assert pending == pending[..|pending| - 1] + [pending[|pending| - 1]];
  }

  lemma Extended(edges: seq<Edge>, outputs: seq<string>, pending: seq<string>, closure: set<string>, more: seq<string>)
    requires Working(edges, outputs, pending, closure) && pending != []
             && more == Sources(edges, pending[|pending| - 1])
    ensures Working(edges, outputs, pending[..|pending| - 1] + more, closure + {pending[|pending| - 1]})
    ensures pending[|pending| - 1] in Named(edges, outputs)
  {
    var node := pending[|pending| - 1];
    assert pending == pending[..|pending| - 1] + [node];
    UpstreamNamed(edges, outputs, node);
    forall a ensures a in more <==> Feeds(edges, a, node) {
      SourcesFeed(edges, a, node);
    }
    forall a | a in more ensures UpstreamOf(edges, outputs, a) {
      FeederUpstream(edges, outputs, a, node);
    }
  }

  lemma Finished(edges: seq<Edge>, outputs: seq<string>, closure: set<string>)
    requires Working(edges, outputs, [], closure)
    ensures closure == UpstreamSet(edges, outputs)
  {
    forall x ensures x in closure <==> UpstreamOf(edges, outputs, x) {
      if UpstreamOf(edges, outputs, x) {
        var w :| Path(edges, w) && w[0] == x && w[|w| - 1] in outputs;
        BackAlong(edges, closure, w);
      }
    }
    forall x | x in closure ensures x in Named(edges, outputs) {
      UpstreamNamed(edges, outputs, x);
    }
  }

  /** The worklist of `derive_source_outcome_replayable_phases`: it ends, with exactly what is upstream. */
  method Closure(edges: seq<Edge>, outputs: seq<string>) returns (closure: set<string>)
    ensures closure == UpstreamSet(edges, outputs)
  {
    hide Working, Indexes, Named, UpstreamSet;
    var incoming := Incoming(edges);
    var pending := outputs;
    closure := {};
    Started(edges, outputs);
    while pending != []
      invariant Working(edges, outputs, pending, closure) && closure <= Named(edges, outputs)
      decreases |Named(edges, outputs) - closure|, |pending|
    {
      var node := pending[|pending| - 1];
      if node in closure {
        Skipped(edges, outputs, pending, closure);
        pending := pending[..|pending| - 1];
      } else {
        var more := if node in incoming then incoming[node] else [];
        Looked(incoming, edges, node);
        Extended(edges, outputs, pending, closure, more);
        Shrinks(Named(edges, outputs), closure, node);
        closure := closure + {node};
        pending := pending[..|pending| - 1] + more;
      }
    }
    Finished(edges, outputs, closure);
  }

  lemma Looked(incoming: map<string, seq<string>>, edges: seq<Edge>, node: string)
    requires Indexes(incoming, edges)
    ensures (if node in incoming then incoming[node] else []) == Sources(edges, node)
  {
  }

  lemma Shrinks(all: set<string>, some: set<string>, x: string)
    requires x in all && x !in some
    ensures |all - (some + {x})| < |all - some|
  {
    assert all - some == (all - (some + {x})) + {x};
  }

  /** `execution_plan_transitive_node_ids`: the same, but a node without a plan is refused. */
  method TransitiveNodeIds(planned: set<string>, edges: seq<Edge>, outputs: seq<string>)
      returns (r: Option<set<string>>)
    ensures r == if UpstreamSet(edges, outputs) <= planned then Some(UpstreamSet(edges, outputs)) else None
  {
    hide Working, Indexes, Named, UpstreamSet;
    var incoming := Incoming(edges);
    var pending, closure: set<string> := outputs, {};
    Started(edges, outputs);
    while pending != []
      invariant Working(edges, outputs, pending, closure) && closure <= Named(edges, outputs) && closure <= planned
      decreases |Named(edges, outputs) - closure|, |pending|
    {
      var node := pending[|pending| - 1];
      if node !in planned {
        Unplanned(edges, outputs, pending, closure, planned);
        return None;
      }
      if node in closure {
        Skipped(edges, outputs, pending, closure);
        pending := pending[..|pending| - 1];
      } else {
        var more := if node in incoming then incoming[node] else [];
        Looked(incoming, edges, node);
        Extended(edges, outputs, pending, closure, more);
        Shrinks(Named(edges, outputs), closure, node);
        closure := closure + {node};
        pending := pending[..|pending| - 1] + more;
      }
    }
    Finished(edges, outputs, closure);
    return Some(closure);
  }

  lemma Unplanned(edges: seq<Edge>, outputs: seq<string>, pending: seq<string>, closure: set<string>,
                  planned: set<string>)
    requires Working(edges, outputs, pending, closure) && pending != [] && pending[|pending| - 1] !in planned
    ensures !(UpstreamSet(edges, outputs) <= planned)
  {
    var node := pending[|pending| - 1];
    assert node in pending;
    UpstreamNamed(edges, outputs, node);
    assert node in UpstreamSet(edges, outputs);
  }

  // ---- What the closure depends on -----------------------------------------------------------------

  /** Edges into upstream nodes are the same in both graphs; all others may differ, and so may the order. */
  ghost predicate SameUpstreamEdges(edges: seq<Edge>, others: seq<Edge>, outputs: seq<string>) {
    forall e: Edge :: e.target.node in UpstreamSet(edges, outputs) ==> (e in edges <==> e in others)
  }

  lemma {:induction false} PathKept(edges: seq<Edge>, others: seq<Edge>, outputs: seq<string>, w: seq<string>)
    requires SameUpstreamEdges(edges, others, outputs)
    requires w != [] && w[|w| - 1] in outputs && (Path(edges, w) || Path(others, w))
    ensures w[0] in UpstreamSet(edges, outputs) && Path(others, w)
  {
    if |w| == 1 {
      OutputUpstream(edges, outputs, w[0]);
    } else {
      var tail := w[1..];
      forall i | 0 <= i < |tail| - 1
        ensures (Path(edges, w) ==> Feeds(edges, tail[i], tail[i + 1]))
                && (Path(others, w) ==> Feeds(others, tail[i], tail[i + 1]))
      {
        assert Path(edges, w) ==> Feeds(edges, w[i + 1], w[i + 2]);
        assert Path(others, w) ==> Feeds(others, w[i + 1], w[i + 2]);
      }
      PathKept(edges, others, outputs, tail);
      FeedsKept(edges, others, outputs, w[0], w[1]);
      FeederUpstream(edges, outputs, w[0], w[1]);
      UpstreamNamed(edges, outputs, w[0]);
      forall i | 0 <= i < |w| - 1 ensures Feeds(others, w[i], w[i + 1]) {
        if i > 0 {
          assert Feeds(others, tail[i - 1], tail[i]);
        }
      }
    }
  }

  lemma FeedsKept(edges: seq<Edge>, others: seq<Edge>, outputs: seq<string>, a: string, b: string)
    requires SameUpstreamEdges(edges, others, outputs) && b in UpstreamSet(edges, outputs)
    ensures Feeds(edges, a, b) <==> Feeds(others, a, b)
  {
    if Feeds(edges, a, b) {
      var i :| 0 <= i < |edges| && edges[i].source.node == a && edges[i].target.node == b;
      assert edges[i] in others;
    }
    if Feeds(others, a, b) {
      var i :| 0 <= i < |others| && others[i].source.node == a && others[i].target.node == b;
      assert others[i] in edges;
    }
  }

  /** Adding, removing or reordering edges that lead elsewhere does not change what is upstream. */
  lemma ClosureOnlyUpstream(edges: seq<Edge>, others: seq<Edge>, outputs: seq<string>)
    requires SameUpstreamEdges(edges, others, outputs)
    ensures UpstreamSet(others, outputs) == UpstreamSet(edges, outputs)
  {
    forall x ensures x in UpstreamSet(others, outputs) <==> x in UpstreamSet(edges, outputs) {
      if x in UpstreamSet(edges, outputs) {
        var w :| Path(edges, w) && w[0] == x && w[|w| - 1] in outputs;
        PathKept(edges, others, outputs, w);
        UpstreamNamed(others, outputs, x);
      }
      if x in UpstreamSet(others, outputs) {
        var w :| Path(others, w) && w[0] == x && w[|w| - 1] in outputs;
        PathKept(edges, others, outputs, w);
      }
    }
  }
}
