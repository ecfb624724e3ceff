/** The dependency closure of a set of schemas, and the two artifact manifests built on it. */
module SchemaDependencies {
  import opened Results
  import opened SchemaGraph
  import opened SchemaWalk

  /** The indexed schemas and how a seed path is made canonical; None where the source raises. */
  datatype Repository = Repository(links: Links, canonical: string -> Option<Path>)

  const SUFFIX := ".schema.json"
  const ROLE := "schema_dependency"

  predicate IsSchemaName(p: string) {
    |p| >= |SUFFIX| && p[|p| - |SUFFIX|..] == SUFFIX
  }

  /** Only names with the suffix are indexed, and an indexed path is its own canonical form. */
  ghost predicate Indexed(repo: Repository) {
    && Closed(repo.links)
    && (forall raw :: repo.canonical(raw).Some? ==> repo.canonical(raw).value in repo.links)
    && (forall p :: p in repo.links ==> repo.canonical(p) == Some(p) && IsSchemaName(p))
  }

  datatype Closure = Closure(paths: set<Path>, cycles: set<seq<Path>>)

  ghost function CanonicalSeeds(repo: Repository, raw: seq<string>): set<Path> {
    set s | s in raw && repo.canonical(s).Some? :: repo.canonical(s).value
  }

  /** A directed cycle in what the seeds reach. */
  ghost predicate CycleWithin(g: Links, seeds: set<Path>, w: seq<Path>) {
    Walk(g, w) && |w| >= 2 && w[0] == w[|w| - 1] && Reachable(g, seeds, w[0])
  }

  // ---- Every cycle is cut by the record -----------------------------------------------------

  /** A step of the walk closes a recorded cycle. */
  predicate Cut(cycles: set<seq<Path>>, w: seq<Path>) {
    exists k :: 0 <= k < |w| - 1 && Closes(cycles, w[k], w[k + 1])
  }

  /** Along a walk that closes no recorded cycle schemas finished earlier and earlier. */
  lemma {:induction false} Descend(g: Links, cycles: set<seq<Path>>, finished: seq<Path>, w: seq<Path>, i: nat)
      returns (j: nat)
    requires Ranked(g, cycles, finished) && i < |finished| && !Cut(cycles, w)
    requires |w| >= 2 && w[0] == finished[i]
    requires forall k :: 0 <= k < |w| - 1 ==> Edge(g, w[k], w[k + 1])
    ensures j < i && finished[j] == w[|w| - 1]
    decreases |w|
  {
    hide Edge, Closes;
    assert Edge(g, w[0], w[1]) && !Closes(cycles, w[0], w[1]);
    j :| 0 <= j < i && finished[j] == w[1];
    if |w| > 2 {
      var tail := w[1..];
      forall k | 0 <= k < |tail| - 1 ensures Edge(g, tail[k], tail[k + 1]) && !Closes(cycles, tail[k], tail[k + 1]) {
        assert Edge(g, w[k + 1], w[k + 2]) && !Closes(cycles, w[k + 1], w[k + 2]);
      }
      j := Descend(g, cycles, finished, tail, j);
    }
  }

  lemma {:induction false} UncutHasNoCycle(g: Links, cycles: set<seq<Path>>, finished: seq<Path>, w: seq<Path>, i: nat)
    requires Ranked(g, cycles, finished) && i < |finished| && w != [] && w[0] == finished[i]
    requires Walk(g, w) && |w| >= 2 && !Cut(cycles, w)
    ensures w[0] != w[|w| - 1]
    decreases i
  {
    var j := Descend(g, cycles, finished, w, i);
    if w[0] == w[|w| - 1] {
      UncutHasNoCycle(g, cycles, finished, w, j);
    }
  }

  // ---- The closure ---------------------------------------------------------------------------

  /** The traversal has seen exactly what the seeds reach. */
  lemma TraversalReaches(g: Links, states: Colours, cycles: set<seq<Path>>, finished: seq<Path>, seeds: set<Path>)
    requires Closed(g) && Sound(g, states, [], cycles, finished)
    requires forall p :: p in seeds ==> p in states
    requires forall p :: p in states ==> Reachable(g, seeds, p)
    ensures states.Keys == Reach(g, seeds)
    ensures forall p :: p in states ==> p in finished && Resolvable(g, p)
  {
    AllFinished(g, states, cycles, finished);
    hide Sound, Reachable, Edge;
    forall x | Reachable(g, seeds, x) ensures x in states {
      ReachStays(g, states.Keys, seeds, x);
    }
    forall x | x in states ensures x in g {
    }
  }

  lemma AllFinished(g: Links, states: Colours, cycles: set<seq<Path>>, finished: seq<Path>)
    requires Closed(g) && Sound(g, states, [], cycles, finished)
    ensures forall p :: p in states ==> p in finished && Resolvable(g, p)
    ensures forall a, b :: a in states.Keys && Edge(g, a, b) ==> b in states.Keys
  {
    var nobody: seq<Path> := [];
    forall p | p in states ensures p in finished {
      assert p !in nobody;
    }
    forall a, b | a in states.Keys && Edge(g, a, b) ensures b in states.Keys {
      assert a in finished;
    }
  }

  /**
   * Every cycle that the seeds reach contains the closing reference of a recorded cycle; so the
   * record is empty exactly if they reach none.
   */
  lemma CyclesExact(g: Links, states: Colours, cycles: set<seq<Path>>, finished: seq<Path>, seeds: set<Path>)
    requires Closed(g) && GenuineCycles(g, states, cycles) && Ranked(g, cycles, finished)
    requires forall p :: p in states <==> p in finished
    requires forall p :: p in states <==> p in g && Reachable(g, seeds, p)
    ensures forall w :: CycleWithin(g, seeds, w) ==> Cut(cycles, w)
    ensures cycles == {} <==> !exists w :: CycleWithin(g, seeds, w)
  {
    forall w | CycleWithin(g, seeds, w) ensures Cut(cycles, w) {
      var i :| 0 <= i < |finished| && finished[i] == w[0];
      if !Cut(cycles, w) {
        UncutHasNoCycle(g, cycles, finished, w, i);
      }
    }
    if cycles != {} {
      var c :| c in cycles;
      assert CycleWithin(g, seeds, c);
    }
  }

  /** The set of canonical seeds, listed; None where one of them is refused. */
  method Canonicalised(repo: Repository, raw: seq<string>) returns (r: Option<seq<Path>>)
    ensures r.Some? <==> forall s :: s in raw ==> repo.canonical(s).Some?
    ensures r.Some? ==> forall p :: p in r.value <==> p in CanonicalSeeds(repo, raw)
  {
    var seeds: seq<Path> := [];
    for i := 0 to |raw|
      invariant forall s :: s in raw[..i] ==> repo.canonical(s).Some? && repo.canonical(s).value in seeds
      invariant forall p :: p in seeds ==> p in CanonicalSeeds(repo, raw)
    {
      var seed := repo.canonical(raw[i]);
      assert raw[i] in raw && raw[..i + 1] == raw[..i] + [raw[i]];
      if seed.None? {
        return None;
      }
      seeds := seeds + [seed.value];
    }
    assert raw[..|raw|] == raw;
    return Some(seeds);
  }

  method VisitAll(walk: Traversal, seeds: seq<Path>, ghost roots: set<Path>) returns (ok: bool)
    requires walk.Valid() && walk.stack == [] && walk.states == map[]
    requires forall p :: p in seeds <==> p in roots
    requires forall p :: p in roots ==> p in walk.links
    modifies walk
    ensures ok ==> walk.Valid() && walk.stack == []
    ensures ok ==> forall p :: p in roots ==> p in walk.states
    ensures ok ==> forall p :: p in walk.states ==> Reachable(walk.links, roots, p)
    ensures !ok ==> exists p :: p in Reach(walk.links, roots) && !Resolvable(walk.links, p)
  {
    ghost var g := walk.links;
    for i := 0 to |seeds|
      invariant walk.Valid() && walk.stack == []
      invariant forall p :: p in seeds[..i] ==> p in walk.states
      invariant forall p :: p in walk.states ==> Reachable(g, roots, p)
    {
      ghost var before := walk.states;
      assert seeds[i] in seeds && seeds[..i + 1] == seeds[..i] + [seeds[i]];
      SeedReachable(g, roots, seeds[i]);
      ok := walk.Visit(seeds[i]);
      if !ok {
        ghost var p :| p in g && Reachable(g, {seeds[i]}, p) && !Resolvable(g, p);
        ReachTransitive(g, roots, seeds[i], p);
        assert p in Reach(g, roots);
        return;
      }
      forall p | p in walk.states ensures Reachable(g, roots, p) {
        if p !in before {
          ReachTransitive(g, roots, seeds[i], p);
        }
      }
    }
    assert seeds[..|seeds|] == seeds;
    return true;
  }

  /** `schema_dependency_closure`: None where the source raises. */
  method DependencyClosure(repo: Repository, raw: seq<string>) returns (r: Option<Closure>)
    requires Indexed(repo)
    ensures r.Some? <==>
              && (forall s :: s in raw ==> repo.canonical(s).Some?)
              && (forall p :: p in Reach(repo.links, CanonicalSeeds(repo, raw)) ==> Resolvable(repo.links, p))
    ensures r.Some? ==>
              var seeds := CanonicalSeeds(repo, raw);
              && r.value.paths == Reach(repo.links, seeds)
              && (r.value.cycles == {} <==> !exists w :: CycleWithin(repo.links, seeds, w))
              && (forall w :: CycleWithin(repo.links, seeds, w) ==> Cut(r.value.cycles, w))
              && (forall c :: c in r.value.cycles ==> Cycle(repo.links, c) && c[0] in r.value.paths)
  {
    hide Ranked, Closes, Cut, SuccessorsSeen, Walk, Cycle, Edge, Resolvable, Reachable, CycleWithin;
    ghost var g, roots := repo.links, CanonicalSeeds(repo, raw);
    var seeds := Canonicalised(repo, raw);
    if seeds.None? {
      return None;
    }
    var walk := new Traversal(repo.links);
    var ok := VisitAll(walk, seeds.value, roots);
    if !ok {
      return None;
    }
    TraversalReaches(g, walk.states, walk.cycles, walk.finished, roots);
    CyclesExact(g, walk.states, walk.cycles, walk.finished, roots);
    return Some(Closure(walk.states.Keys, walk.cycles));
  }

  // ---- Manifests built on the closure -----------------------------------------------------------

  /** The canonical paths of the schemas among some artifact names. */
  ghost function SeedsOf(repo: Repository, names: set<string>): set<Path> {
    set s | s in names && IsSchemaName(s) && repo.canonical(s).Some? :: repo.canonical(s).value
  }

  ghost function Dependencies(repo: Repository, names: set<string>): set<Path> {
    Reach(repo.links, SeedsOf(repo, names))
  }

  /** What the source demands of a manifest before it can be expanded. */
  ghost predicate Expandable(repo: Repository, names: set<string>) {
    && (forall s :: s in names && IsSchemaName(s) ==> repo.canonical(s).Some?)
    && (forall p :: p in Dependencies(repo, names) ==> Resolvable(repo.links, p))
  }

  ghost function Expanded(repo: Repository, artifacts: map<string, string>): map<string, string> {
    map p | p in artifacts.Keys + Dependencies(repo, artifacts.Keys) :: if p in artifacts then artifacts[p] else ROLE
  }

  /** Some listing of the schema names, as sorting them gives one. */
  method SchemaNames(names: set<string>) returns (listed: seq<string>)
    ensures forall s :: s in listed <==> s in names && IsSchemaName(s)
  {
    listed := [];
    var rest := names;
    while rest != {}
      invariant rest <= names
      invariant forall s :: s in listed <==> s in names - rest && IsSchemaName(s)
      decreases rest
    {
      var s :| s in rest;
      if IsSchemaName(s) {
        listed := listed + [s];
      }
      rest := rest - {s};
    }
  }

  /** `missing_schema_dependencies`. */
  method MissingDependencies(repo: Repository, names: set<string>) returns (r: Option<set<Path>>)
    requires Indexed(repo)
    ensures r.Some? <==> Expandable(repo, names)
    ensures r.Some? ==> r.value == Dependencies(repo, names) - names
  {
    hide Reach, Resolvable, Cycle, CycleWithin;
    var listed := SchemaNames(names);
    assert CanonicalSeeds(repo, listed) == SeedsOf(repo, names);
    var closure := DependencyClosure(repo, listed);
    return if closure.Some? then Some(closure.value.paths - names) else None;
  }

  /** `with_transitive_schema_dependencies`. */
  method WithTransitiveDependencies(repo: Repository, artifacts: map<string, string>)
      returns (r: Option<map<string, string>>)
    requires Indexed(repo)
    ensures r.Some? <==> Expandable(repo, artifacts.Keys)
    ensures r.Some? ==> r.value == Expanded(repo, artifacts)
  {
    hide Reach, Expanded, Resolvable, Cycle, CycleWithin;
    var listed := SchemaNames(artifacts.Keys);
    assert CanonicalSeeds(repo, listed) == SeedsOf(repo, artifacts.Keys);
    var closure := DependencyClosure(repo, listed);
    if closure.None? {
      return None;
    }
    var expanded := SetDefaults(artifacts, closure.value.paths);
    DefaultsExpand(repo, artifacts, closure.value.paths, expanded);
    return Some(expanded);
  }

  lemma DefaultsExpand(repo: Repository, artifacts: map<string, string>, paths: set<Path>,
                       expanded: map<string, string>)
    requires paths == Dependencies(repo, artifacts.Keys) && expanded.Keys == artifacts.Keys + paths
    requires forall p :: p in expanded ==> expanded[p] == if p in artifacts then artifacts[p] else ROLE
    ensures expanded == Expanded(repo, artifacts)
  {
    hide Dependencies;
  }

  /** The loop of `setdefault` calls. */
  method SetDefaults(artifacts: map<string, string>, paths: set<Path>) returns (expanded: map<string, string>)
    ensures expanded.Keys == artifacts.Keys + paths
    ensures forall p :: p in expanded ==> expanded[p] == if p in artifacts then artifacts[p] else ROLE
  {
    expanded := artifacts;
    var rest := paths;
    while rest != {}
      invariant rest <= paths
      invariant expanded.Keys == artifacts.Keys + (paths - rest)
      invariant forall p :: p in expanded ==> expanded[p] == if p in artifacts then artifacts[p] else ROLE
      decreases rest
    {
      var path :| path in rest;
      if path !in expanded {
        expanded := expanded[path := ROLE];
      }
      rest := rest - {path};
    }
  }

  // ---- What expanding a manifest means --------------------------------------------------------------

  lemma ExpandedKeeps(repo: Repository, artifacts: map<string, string>)
    ensures forall p :: p in artifacts ==>
              p in Expanded(repo, artifacts) && Expanded(repo, artifacts)[p] == artifacts[p]
    ensures Expanded(repo, artifacts).Keys == artifacts.Keys + Dependencies(repo, artifacts.Keys)
  {
  }

  /** Adding what is reachable to the names changes nothing of what is reachable. */
  lemma DependenciesClosed(repo: Repository, names: set<string>)
    requires Indexed(repo)
    ensures Dependencies(repo, names + Dependencies(repo, names)) == Dependencies(repo, names)
  {
    var g, few := repo.links, SeedsOf(repo, names);
    var all := names + Dependencies(repo, names);
    var many := SeedsOf(repo, all);
    forall x | x in Dependencies(repo, all) ensures x in Dependencies(repo, names) {
      var w :| Walk(g, w) && w[0] in many && w[|w| - 1] == x;
      var s :| s in all && IsSchemaName(s) && repo.canonical(s) == Some(w[0]);
      if s in names {
        assert w[0] in few;
      } else {
        assert s == w[0];
        assert Reachable(g, {s}, x);
        ReachTransitive(g, few, s, x);
      }
    }
    forall x | x in Dependencies(repo, names) ensures x in Dependencies(repo, all) {
      ReachGrows(g, few, many, x);
    }
  }

  /** Expanding is idempotent, stays possible, and leaves nothing missing. */
  lemma ExpandedComplete(repo: Repository, artifacts: map<string, string>)
    requires Indexed(repo) && Expandable(repo, artifacts.Keys)
    ensures Expandable(repo, Expanded(repo, artifacts).Keys)
    ensures Dependencies(repo, Expanded(repo, artifacts).Keys) <= Expanded(repo, artifacts).Keys
    ensures Expanded(repo, Expanded(repo, artifacts)) == Expanded(repo, artifacts)
  {
    DependenciesClosed(repo, artifacts.Keys);
    ExpandedKeeps(repo, artifacts);
  }

  /** A manifest misses nothing exactly if expanding it adds nothing. */
  lemma NothingMissingIffExpanded(repo: Repository, artifacts: map<string, string>)
    ensures Dependencies(repo, artifacts.Keys) - artifacts.Keys == {} <==> Expanded(repo, artifacts) == artifacts
  {
    var missing := Dependencies(repo, artifacts.Keys) - artifacts.Keys;
    ExpandedKeeps(repo, artifacts);
    assert Expanded(repo, artifacts).Keys == artifacts.Keys + missing;
    if missing == {} {
      assert Expanded(repo, artifacts).Keys == artifacts.Keys;
    } else {
      var p :| p in missing;
      assert p in Expanded(repo, artifacts).Keys && p !in artifacts.Keys;
    }
  }
}
