/** Reachability and cycles in the graph of schema references. */
module SchemaGraph {
  import opened Results

  type Path = string

  /** For every indexed schema its external references in document order; None is one that cannot be resolved. */
  type Links = map<Path, seq<Option<Path>>>

  /** Every resolved reference leads to an indexed schema. */
  ghost predicate Closed(g: Links) {
    forall p, i :: p in g && 0 <= i < |g[p]| && g[p][i].Some? ==> g[p][i].value in g
  }

  predicate Edge(g: Links, a: Path, b: Path) {
    a in g && Some(b) in g[a]
  }

  /** A walk along references. */
  predicate Walk(g: Links, w: seq<Path>) {
    && w != []
    && w[0] in g
    && forall i :: 0 <= i < |w| - 1 ==> Edge(g, w[i], w[i + 1])
  }

  ghost predicate Reachable(g: Links, seeds: set<Path>, x: Path) {
    exists w :: Walk(g, w) && w[0] in seeds && w[|w| - 1] == x
  }

  ghost function Reach(g: Links, seeds: set<Path>): set<Path> {
    set x | x in g && Reachable(g, seeds, x)
  }

  /** A closed walk that repeats nothing but its endpoint. */
  predicate Cycle(g: Links, w: seq<Path>) {
    && |w| >= 2
    && Walk(g, w)
    && w[0] == w[|w| - 1]
    && Distinct(w[..|w| - 1])
  }

  predicate Resolvable(g: Links, p: Path) {
    p in g && None !in g[p]
  }

  lemma ReachStep(g: Links, seeds: set<Path>, a: Path, b: Path)
    requires Closed(g) && Reachable(g, seeds, a) && Edge(g, a, b)
    ensures Reachable(g, seeds, b) && b in g
  {
    var w :| Walk(g, w) && w[0] in seeds && w[|w| - 1] == a;
    var longer := w + [b];
    assert Walk(g, longer) by {
      forall i | 0 <= i < |longer| - 1 ensures Edge(g, longer[i], longer[i + 1]) {
        if i < |w| - 1 {
          assert Edge(g, w[i], w[i + 1]);
        }
      }
    }
    assert longer[|longer| - 1] == b;
    var i :| 0 <= i < |g[a]| && g[a][i] == Some(b);
  }

  lemma SeedReachable(g: Links, seeds: set<Path>, x: Path)
    requires x in seeds && x in g
    ensures Reachable(g, seeds, x)
  {
    assert Walk(g, [x]);
  }

  /** A set that holds the start and all references out of itself holds the whole walk. */
  lemma {:induction false} WalkStays(g: Links, s: set<Path>, w: seq<Path>)
    requires w != [] && w[0] in s
    requires forall i :: 0 <= i < |w| - 1 ==> Edge(g, w[i], w[i + 1])
    requires forall a, b :: a in s && Edge(g, a, b) ==> b in s
    ensures w[|w| - 1] in s
  {
    if |w| > 1 {
      assert Edge(g, w[0], w[1]);
      var tail := w[1..];
      forall i | 0 <= i < |tail| - 1 ensures Edge(g, tail[i], tail[i + 1]) {
        assert Edge(g, w[i + 1], w[i + 2]);
      }
      WalkStays(g, s, tail);
    }
  }

  lemma ReachStays(g: Links, s: set<Path>, seeds: set<Path>, x: Path)
    requires Reachable(g, seeds, x) && seeds <= s
    requires forall a, b :: a in s && Edge(g, a, b) ==> b in s
    ensures x in s
  {
    var w :| Walk(g, w) && w[0] in seeds && w[|w| - 1] == x;
    WalkStays(g, s, w);
  }

  lemma ReachGrows(g: Links, fewer: set<Path>, more: set<Path>, x: Path)
    requires fewer <= more && Reachable(g, fewer, x)
    ensures Reachable(g, more, x)
  {
  }

  /** Walks compose. */
  lemma ReachTransitive(g: Links, seeds: set<Path>, a: Path, x: Path)
    requires Closed(g) && a in g && Reachable(g, seeds, a) && Reachable(g, {a}, x)
    ensures Reachable(g, seeds, x)
  {
    var s := set y | y in g && Reachable(g, seeds, y);
    forall p, q | p in s && Edge(g, p, q) ensures q in s {
      ReachStep(g, seeds, p, q);
    }
    var w :| Walk(g, w) && w[0] in {a} && w[|w| - 1] == x;
    WalkStays(g, s, w);
  }
}
