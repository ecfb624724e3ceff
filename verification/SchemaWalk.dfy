/** The depth-first traversal with three colours and an explicit stack. */
module SchemaWalk {
  import opened Results
  import opened SchemaGraph

  type Colours = map<Path, int>
  const ACTIVE := 1
  const DONE := 2

  // ---- The invariant, on values ------------------------------------------------------

  /** The stack is the active path; everything else seen is done, and `finished` lists it in order. */
  ghost predicate Coloured(g: Links, states: Colours, stack: seq<Path>, finished: seq<Path>) {
    && (forall p :: p in states ==> p in g && (states[p] == ACTIVE || states[p] == DONE))
    && (forall p :: p in stack <==> p in states && states[p] == ACTIVE)
    && (forall p :: p in finished <==> p in states && states[p] == DONE)
    && Distinct(stack)
    && (forall i :: 0 <= i < |stack| - 1 ==> Edge(g, stack[i], stack[i + 1]))
  }

  ghost predicate SuccessorsSeen(g: Links, states: Colours, finished: seq<Path>) {
    forall a :: a in finished ==> Resolvable(g, a) && forall b :: Edge(g, a, b) ==> b in states
  }

  ghost predicate GenuineCycles(g: Links, states: Colours, cycles: set<seq<Path>>) {
    forall c :: c in cycles ==> Cycle(g, c) && c[0] in states
  }

  /** The reference from a to b is the one that closes a recorded cycle. */
  predicate Closes(cycles: set<seq<Path>>, a: Path, b: Path) {
    exists c <- cycles :: |c| >= 2 && c[|c| - 2] == a && c[|c| - 1] == b
  }

  /** Every reference out of a finished schema leads to one that finished earlier, or closes a recorded cycle. */
  ghost predicate Ranked(g: Links, cycles: set<seq<Path>>, finished: seq<Path>) {
    forall i, b :: 0 <= i < |finished| && Edge(g, finished[i], b) ==>
      b in finished[..i] || Closes(cycles, finished[i], b)
  }

  ghost predicate Sound(g: Links, states: Colours, stack: seq<Path>, cycles: set<seq<Path>>, finished: seq<Path>) {
    && Coloured(g, states, stack, finished)
    && SuccessorsSeen(g, states, finished)
    && GenuineCycles(g, states, cycles)
    && Ranked(g, cycles, finished)
  }

  /** What one visit may change: it only adds finished schemas, all reachable from where it started. */
  ghost predicate Progress(g: Links, root: Path, before: Colours, after: Colours) {
    && (forall p :: p in before ==> p in after && after[p] == before[p])
    && (forall p :: p in after && p !in before ==> after[p] == DONE && Reachable(g, {root}, p))
  }

  predicate OnTop(g: Links, stack: seq<Path>, p: Path) {
    stack == [] || Edge(g, stack[|stack| - 1], p)
  }

  lemma Pushed(g: Links, states: Colours, stack: seq<Path>, cycles: set<seq<Path>>, finished: seq<Path>, p: Path)
    requires Sound(g, states, stack, cycles, finished) && p in g && p !in states && OnTop(g, stack, p)
    ensures Sound(g, states[p := ACTIVE], stack + [p], cycles, finished)
  {
    var longer := stack + [p];
    forall i | 0 <= i < |longer| - 1 ensures Edge(g, longer[i], longer[i + 1]) {
      if i < |stack| - 1 {
        assert Edge(g, stack[i], stack[i + 1]);
      }
    }
    assert forall q :: q in longer <==> q in stack || q == p;
    assert p !in stack;
  }

  lemma Popped(g: Links, states: Colours, stack: seq<Path>, cycles: set<seq<Path>>, finished: seq<Path>, p: Path)
    requires Sound(g, states, stack + [p], cycles, finished) && p in g && Resolvable(g, p)
    requires forall b :: Edge(g, p, b) ==> b in states
    requires forall b :: Edge(g, p, b) ==> b in finished || Closes(cycles, p, b)
    ensures Sound(g, states[p := DONE], stack, cycles, finished + [p])
  {
    var longer, more := stack + [p], finished + [p];
    forall i | 0 <= i < |stack| - 1 ensures Edge(g, stack[i], stack[i + 1]) {
      assert Edge(g, longer[i], longer[i + 1]);
    }
    forall i, j | 0 <= i < j < |stack| ensures stack[i] != stack[j] {
      assert longer[i] != longer[j];
    }
    forall i | 0 <= i < |stack| ensures stack[i] != p {
      assert longer[i] != longer[|stack|];
    }
    assert forall q :: q in longer <==> q in stack || q == p;
    assert forall q :: q in more <==> q in finished || q == p;
    forall i, b | 0 <= i < |more| && Edge(g, more[i], b) ensures b in more[..i] || Closes(cycles, more[i], b) {
      if i < |finished| {
        assert more[i] == finished[i] && more[..i] == finished[..i];
      } else {
        assert more[..i] == finished;
      }
    }
  }

  lemma CycleRecorded(g: Links, states: Colours, stack: seq<Path>, cycles: set<seq<Path>>, finished: seq<Path>,
                      start: nat)
    requires Sound(g, states, stack, cycles, finished) && start < |stack| && OnTop(g, stack, stack[start])
    ensures Sound(g, states, stack, cycles + {stack[start..] + [stack[start]]}, finished)
    ensures Closes(cycles + {stack[start..] + [stack[start]]}, stack[|stack| - 1], stack[start])
  {
    var c := stack[start..] + [stack[start]];
    forall i | 0 <= i < |c| - 1 ensures Edge(g, c[i], c[i + 1]) {
      if i < |stack| - start - 1 {
        assert Edge(g, stack[start + i], stack[start + i + 1]);
      }
    }
    assert stack[start] in stack;
    assert c[..|c| - 1] == stack[start..];
    assert Cycle(g, c);
    ClosesMore(cycles, cycles + {c});
    assert c in cycles + {c} && c[|c| - 2] == stack[|stack| - 1] && c[|c| - 1] == stack[start];
  }

  lemma ClosesMore(cycles: set<seq<Path>>, more: set<seq<Path>>)
    requires cycles <= more
    ensures forall a, b :: Closes(cycles, a, b) ==> Closes(more, a, b)
  {
  }

  /** Progress made behind a reference is progress made behind its source. */
  lemma ProgressThrough(g: Links, root: Path, target: Path, entered: Colours, before: Colours, after: Colours)
    requires Closed(g) && root in g && Edge(g, root, target)
    requires Progress(g, root, entered, before) && Progress(g, target, before, after)
    ensures Progress(g, root, entered, after)
  {
    SeedReachable(g, {root}, root);
    ReachStep(g, {root}, root, target);
    forall p | p in after && p !in entered ensures after[p] == DONE && Reachable(g, {root}, p) {
      if p !in before {
        ReachTransitive(g, {root}, target, p);
      }
    }
  }

  /** A schema with an unresolvable reference. */
  ghost predicate Broken(g: Links, root: Path) {
    exists p :: p in g && Reachable(g, {root}, p) && !Resolvable(g, p)
  }

  lemma BrokenHere(g: Links, p: Path)
    requires p in g && !Resolvable(g, p)
    ensures Broken(g, p)
  {
    SeedReachable(g, {p}, p);
  }

  lemma EdgeInside(g: Links, p: Path, i: nat)
    requires Closed(g) && p in g && i < |g[p]| && g[p][i].Some?
    ensures Edge(g, p, g[p][i].value) && g[p][i].value in g
  {
  }

  lemma Unresolved(g: Links, p: Path, i: nat)
    requires p in g && i < |g[p]| && g[p][i].None?
    ensures !Resolvable(g, p)
  {
  }

  lemma BrokenThrough(g: Links, root: Path, target: Path)
    requires Closed(g) && root in g && Edge(g, root, target) && Broken(g, target)
    ensures Broken(g, root)
  {
    var p :| p in g && Reachable(g, {target}, p) && !Resolvable(g, p);
    SeedReachable(g, {root}, root);
    ReachStep(g, {root}, root, target);
    ReachTransitive(g, {root}, target, p);
  }

  lemma TwoColours(g: Links, states: Colours, stack: seq<Path>, cycles: set<seq<Path>>, finished: seq<Path>)
    requires Sound(g, states, stack, cycles, finished)
    ensures forall p :: p in states ==> states[p] == ACTIVE || states[p] == DONE
    ensures forall p :: p in finished <==> p in states && states[p] == DONE
  {
  }

  // ---- The traversal object -----------------------------------------------------------

  class Traversal {
    const links: Links
    var states: Colours
    var stack: seq<Path>
    var cycles: set<seq<Path>>
    ghost var finished: seq<Path>

    ghost predicate Valid()
      reads this
    {
      Closed(links) && Sound(links, states, stack, cycles, finished)
    }

    constructor (links: Links)
      requires Closed(links)
      ensures Valid() && this.links == links && states == map[] && stack == [] && cycles == {}
    {
      this.links := links;
      states, stack, cycles, finished := map[], [], {}, [];
    }

    /** `stack.index(relative)`. */
    method IndexOf(relative: Path) returns (start: nat)
      requires relative in stack
      ensures start < |stack| && stack[start] == relative
    {
      start := 0;
      while stack[start] != relative
        invariant start < |stack| && relative in stack[start..]
        decreases |stack| - start
      {
        start := start + 1;
      }
    }

    /** Records the part of the stack from the target on, closed by the target. */
    method Record(relative: Path) returns (start: nat)
      requires Valid() && relative in states && states[relative] == ACTIVE && OnTop(links, stack, relative)
      modifies this
      ensures Valid() && states == old(states) && stack == old(stack)
      ensures start < |stack| && stack[start] == relative
      ensures cycles == old(cycles) + {stack[start..] + [relative]}
      ensures Closes(cycles, stack[|stack| - 1], relative)
    {
      start := IndexOf(relative);
      CycleRecorded(links, states, stack, cycles, finished, start);
      cycles := cycles + {stack[start..] + [relative]};
    }

    method Enter(relative: Path)
      requires Valid() && relative in links && relative !in states && OnTop(links, stack, relative)
      modifies this
      ensures Valid() && cycles == old(cycles)
      ensures states == old(states)[relative := ACTIVE] && stack == old(stack) + [relative]
    {
      Pushed(links, states, stack, cycles, finished, relative);
      states := states[relative := ACTIVE];
      stack := stack + [relative];
    }

    method Leave(relative: Path, ghost below: seq<Path>)
      requires Valid() && relative in links && stack == below + [relative]
      requires TargetsSeen(links, states, finished, cycles, relative)
      modifies this
      ensures Valid() && cycles == old(cycles)
      ensures states == old(states)[relative := DONE] && stack == below
    {
      Popped(links, states, below, cycles, finished, relative);
      stack := stack[..|stack| - 1];
      assert stack == below;
      states := states[relative := DONE];
      finished := finished + [relative];
    }

    /** Visits everything behind `relative`; false where the source raises. */
    method Visit(relative: Path) returns (ok: bool)
      requires Valid() && relative in links && OnTop(links, stack, relative)
      modifies this
      decreases links.Keys - states.Keys, 1
      ensures ok ==>
                && Valid() && stack == old(stack)
                && relative in states && Progress(links, relative, old(states), states)
                && old(cycles) <= cycles
                && (states[relative] == DONE || (stack != [] && Closes(cycles, stack[|stack| - 1], relative)))
      ensures !ok ==> Broken(links, relative)
    {
      hide Closes, Sound, Closed, Reachable, Resolvable, Walk, Edge, TargetsSeen;
      TwoColours(links, states, stack, cycles, finished);
      if relative in states && states[relative] == DONE {
        return true;
      }
      if relative in states && states[relative] == ACTIVE {
        var _ := Record(relative);
        return true;
      }
      ghost var before, below := states, stack;
      Enter(relative);
      assert relative in links.Keys - before.Keys && relative !in links.Keys - states.Keys;
      assert links.Keys - states.Keys < links.Keys - before.Keys;
      ghost var entered := states;
      ok := VisitTargets(relative);
      if ok {
        ghost var visited := states;
        Leave(relative, below);
        LeftBehind(links, relative, before, entered, visited);
      }
    }

    /** The loop of `visit` over the references of the schema on top of the stack. */
    method VisitTargets(relative: Path) returns (ok: bool)
      requires Valid() && relative in links && relative in states
      requires stack != [] && stack[|stack| - 1] == relative
      modifies this
      decreases links.Keys - states.Keys, 2
      ensures ok ==>
                && Valid() && stack == old(stack)
                && Progress(links, relative, old(states), states)
                && old(cycles) <= cycles
                && TargetsSeen(links, states, finished, cycles, relative)
      ensures !ok ==> Broken(links, relative)
    {
      hide Closes, Sound, Closed, Reachable, Resolvable, Walk, TargetsSeen, Broken;
      var targets := links[relative];
      for i := 0 to |targets|
        invariant Valid() && stack == old(stack)
        invariant Progress(links, relative, old(states), states)
        invariant old(cycles) <= cycles
        invariant FirstSeen(relative, targets, i, states, cycles)
      {
        if targets[i].None? {
          assert !Resolvable(links, relative) by { Unresolved(links, relative, i); }
          BrokenHere(links, relative);
          return false;
        }
        var target := targets[i].value;
        EdgeInside(links, relative, i);
        ghost var before, recorded := states, cycles;
        ProgressKeys(links, relative, old(states), before);
        ok := Visit(target);
        if !ok {
          BrokenThrough(links, relative, target);
          return;
        }
        ProgressThrough(links, relative, target, old(states), before, states);
        SeenGrows(links, relative, targets, i, target, before, recorded, states, cycles);
      }
      TwoColours(links, states, stack, cycles, finished);
      AllSeen(links, states, finished, cycles, relative);
      return true;
    }
  }

  /** The first `n` references out of `p` have been visited: each leads to a finished schema or closes a cycle. */
  ghost predicate FirstSeen(p: Path, targets: seq<Option<Path>>, n: nat, states: Colours, cycles: set<seq<Path>>)
    requires n <= |targets|
  {
    forall j :: 0 <= j < n ==>
      && targets[j].Some? && targets[j].value in states
      && (states[targets[j].value] == DONE || Closes(cycles, p, targets[j].value))
  }

  ghost predicate TargetsSeen(g: Links, states: Colours, finished: seq<Path>, cycles: set<seq<Path>>, p: Path) {
    && Resolvable(g, p)
    && (forall b :: Edge(g, p, b) ==> b in states)
    && (forall b :: Edge(g, p, b) ==> b in finished || Closes(cycles, p, b))
  }

  lemma SeenGrows(g: Links, p: Path, targets: seq<Option<Path>>, n: nat, target: Path, before: Colours,
                  recorded: set<seq<Path>>, after: Colours, cycles: set<seq<Path>>)
    requires n < |targets| && targets[n] == Some(target)
    requires FirstSeen(p, targets, n, before, recorded) && Progress(g, target, before, after)
    requires recorded <= cycles && target in after && (after[target] == DONE || Closes(cycles, p, target))
    ensures FirstSeen(p, targets, n + 1, after, cycles)
  {
    ClosesMore(recorded, cycles);
  }

  lemma AllSeen(g: Links, states: Colours, finished: seq<Path>, cycles: set<seq<Path>>, p: Path)
    requires p in g && FirstSeen(p, g[p], |g[p]|, states, cycles)
    requires forall q :: q in finished <==> q in states && states[q] == DONE
    ensures TargetsSeen(g, states, finished, cycles, p)
  {
    forall b | Edge(g, p, b) ensures b in states && (b in finished || Closes(cycles, p, b)) {
      var j :| 0 <= j < |g[p]| && g[p][j] == Some(b);
    }
  }

  lemma ProgressKeys(g: Links, root: Path, before: Colours, after: Colours)
    requires Progress(g, root, before, after)
    ensures before.Keys <= after.Keys
  {
  }

  lemma LeftBehind(g: Links, p: Path, before: Colours, entered: Colours, visited: Colours)
    requires p in g && p !in before && entered == before[p := ACTIVE] && Progress(g, p, entered, visited)
    ensures Progress(g, p, before, visited[p := DONE])
  {
    SeedReachable(g, {p}, p);
  }
}
