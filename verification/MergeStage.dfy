/**
 * The merge stage: the selected branches' finished arrays become features, and a merge
 * estimator is fitted and evaluated on them over the same folds.
 */
module MergeStage {
  import opened Results
  import opened OutOfFold
  import opened FoldLoop

  /** A merge variant: the selected branch of every column, the original columns kept, and the estimator. */
  datatype Merge = Merge(columns: seq<int>, extra: seq<Row>, estimator: int)

  /** Every sample has an observation, so that every branch's array is finished. */
  ghost predicate Complete(d: Study, folds: seq<Fold>) {
    && |d.x| == |d.rowSample|
    && (forall r :: 0 <= r < |d.rowSample| ==> d.rowSample[r] < |d.groups|)
    && (forall s: nat :: s < |d.groups| ==> s in d.rowSample)
    && Partition(folds, |d.groups|)
  }

  ghost predicate AgreeOff(val: seq<nat>, y1: seq<real>, y2: seq<real>) {
    && |y1| == |y2|
    && forall s :: 0 <= s < |y1| && s !in val ==> y1[s] == y2[s]
  }

  // ---- The finished arrays and the features made of them ---------------------------------------

  ghost predicate AllPredicted(folds: seq<Fold>, plan: seq<Option<seq<real>>>) {
    && |plan| == |folds|
    && forall f :: 0 <= f < |folds| ==> plan[f].Some? && |plan[f].value| == |folds[f].val|
  }

  /** The fold that holds out a sample. */
  ghost function FoldOf(folds: seq<Fold>, n: nat, s: nat): (f: nat)
    requires Partition(folds, n) && s < n
    ensures f < |folds| && s in folds[f].val
  {
    assert Held(folds, s);
    var f :| 0 <= f < |folds| && s in folds[f].val;
    f
  }

  ghost function ValueAt(val: seq<nat>, values: seq<real>, s: nat): real
    requires |val| == |values| && s in val
  {
    var j :| 0 <= j < |val| && val[j] == s;
    values[j]
  }

  /** The array a finished branch loop leaves; `HoldsDetermined` says that there is no other. */
  ghost function Finished(folds: seq<Fold>, plan: seq<Option<seq<real>>>, n: nat): (content: seq<real>)
    requires Partition(folds, n) && AllPredicted(folds, plan)
    ensures |content| == n && Holds(folds, plan, |folds|, content)
  {
    var content := seq(n, s requires 0 <= s < n =>
                      ValueAt(folds[FoldOf(folds, n, s)].val, plan[FoldOf(folds, n, s)].value, s));
    assert Holds(folds, plan, |folds|, content) by {
      forall f | 0 <= f < |folds| ensures Written(folds[f].val, plan[f], content) {
        FoldWritten(folds, plan, n, f, content);
      }
      forall s | 0 <= s < n ensures !Unwritten(folds, |folds|, s) {
        assert s in folds[FoldOf(folds, n, s)].val;
      }
    }
    content
  }

  lemma FoldWritten(folds: seq<Fold>, plan: seq<Option<seq<real>>>, n: nat, f: nat, content: seq<real>)
    requires Partition(folds, n) && AllPredicted(folds, plan) && f < |folds| && |content| == n
    requires forall s :: 0 <= s < n ==>
               content[s] == ValueAt(folds[FoldOf(folds, n, s)].val, plan[FoldOf(folds, n, s)].value, s)
    ensures Written(folds[f].val, plan[f], content)
  {
    forall j | 0 <= j < |folds[f].val|
      ensures folds[f].val[j] < n && content[folds[f].val[j]] == plan[f].value[j]
    {
      var s := folds[f].val[j];
      assert s in folds[f].val;
      assert FoldOf(folds, n, s) == f;
    }
  }

  /** Where every sample is observed no fold raises. */
  lemma PlanComplete(l: Learner, d: Study, y: seq<real>, folds: seq<Fold>, seed: int, estimator: int)
    requires Regular(l) && Complete(d, folds) && |y| == |d.groups|
    ensures AllPredicted(folds, Planned(l, d, y, folds, seed, estimator))
  {
    hide FoldPredictions, Regular;
    forall f | 0 <= f < |folds|
      ensures Planned(l, d, y, folds, seed, estimator)[f].Some?
      ensures |Planned(l, d, y, folds, seed, estimator)[f].value| == |folds[f].val|
    {
      FoldRaisesExactly(l, d, y, folds[f], seed + 1000 + f, estimator);
      forall s | s in folds[f].val ensures s in d.rowSample {
        assert s < |d.groups|;
      }
    }
  }

  /** One selected branch's array. */
  ghost function Column(l: Learner, d: Study, y: seq<real>, folds: seq<Fold>, seed: int, branch: int): (oof: seq<real>)
    requires Regular(l) && Complete(d, folds) && |y| == |d.groups|
    ensures |oof| == |y|
    ensures Holds(folds, Planned(l, d, y, folds, seed, branch), |folds|, oof)
  {
    PlanComplete(l, d, y, folds, seed, branch);
    Finished(folds, Planned(l, d, y, folds, seed, branch), |y|)
  }

  /** `merge_features`: the selected columns side by side, then the original ones. */
  ghost function MergeFeatures(l: Learner, d: Study, y: seq<real>, folds: seq<Fold>, seed: int, m: Merge)
      : (rows: seq<Row>)
    requires Regular(l) && Complete(d, folds) && |y| == |d.groups| == |m.extra|
    ensures |rows| == |y|
  {
    seq(|y|, s requires 0 <= s < |y| =>
      seq(|m.columns|, c requires 0 <= c < |m.columns| => Column(l, d, y, folds, seed, m.columns[c])[s]) + m.extra[s])
  }

  /** What fold `f` of the merge stage predicts for its validation samples. */
  ghost function MergeOut(l: Learner, d: Study, y: seq<real>, folds: seq<Fold>, f: nat, seed: int, m: Merge)
      : (r: seq<real>)
    requires Regular(l) && Complete(d, folds) && |y| == |d.groups| == |m.extra| && f < |folds|
  {
    FoldInRange(folds, f, |y|);
    MergePredictions(l, MergeFeatures(l, d, y, folds, seed, m), y, folds[f], m.estimator)
  }

  lemma FoldInRange(folds: seq<Fold>, f: nat, n: nat)
    requires Partition(folds, n) && f < |folds|
    ensures forall i :: 0 <= i < |folds[f].train| ==> folds[f].train[i] < n
    ensures forall i :: 0 <= i < |folds[f].val| ==> folds[f].val[i] < n
  {
    forall i | 0 <= i < |folds[f].train| ensures folds[f].train[i] < n {
      assert folds[f].train[i] in folds[f].train;
    }
    forall i | 0 <= i < |folds[f].val| ensures folds[f].val[i] < n {
      assert folds[f].val[i] in folds[f].val;
    }
  }

  // ---- The merge fold loop --------------------------------------------------------------------

  ghost function MergePlan(l: Learner, features: seq<Row>, y: seq<real>, folds: seq<Fold>, estimator: int)
      : (plan: seq<Option<seq<real>>>)
    requires |features| == |y| && Partition(folds, |y|)
    ensures |plan| == |folds|
  {
    seq(|folds|, f requires 0 <= f < |folds| =>
      FoldInRange(folds, f, |y|);
      Some(MergePredictions(l, features, y, folds[f], estimator)))
  }

  /** Every merge variant's fold loop: the array ends up holding the plan. */
  method RunMerge(l: Learner, features: seq<Row>, y: seq<real>, folds: seq<Fold>, estimator: int)
      returns (merged: array<real>)
    requires Regular(l) && |features| == |y| && Partition(folds, |y|)
    ensures merged.Length == |y|
    ensures Holds(folds, MergePlan(l, features, y, folds, estimator), |folds|, merged[..])
    ensures forall f :: 0 <= f < |folds| ==> MergedAt(l, features, y, folds[f], estimator, merged[..])
  {
    merged := new real[|y|](_ => 0.0);
    ghost var plan := MergePlan(l, features, y, folds, estimator);
    ZerosHold(folds, plan, merged[..]);
    for f := 0 to |folds|
      invariant Holds(folds, plan, f, merged[..])
    {
      FoldInRange(folds, f, |y|);
      var predicted := MergePredictions(l, features, y, folds[f], estimator);
      ghost var before := merged[..];
      Scatter(merged, folds[f].val, predicted);
      assert Written(folds[f].val, plan[f], merged[..]);
      HoldsGrows(folds, plan, f, before, merged[..]);
    }
    forall f | 0 <= f < |folds| ensures MergedAt(l, features, y, folds[f], estimator, merged[..]) {
      FoldInRange(folds, f, |y|);
      assert Written(folds[f].val, plan[f], merged[..]);
    }
  }

  /** A fold's positions hold what the estimator, fitted on the train samples, predicts for the validation samples. */
  ghost predicate MergedAt(l: Learner, features: seq<Row>, y: seq<real>, fold: Fold, estimator: int,
                           merged: seq<real>) {
    && |features| == |y| == |merged|
    && (forall i :: 0 <= i < |fold.train| ==> fold.train[i] < |y|)
    && (forall i :: 0 <= i < |fold.val| ==> fold.val[i] < |y|)
    && var fitted := l.fitPredict(estimator, Picked(features, fold.train), Picked(y, fold.train),
                                  Picked(features, fold.val));
       |fitted| == |fold.val| && forall j :: 0 <= j < |fold.val| ==> merged[fold.val[j]] == fitted[j]
  }

  // ---- Blind where the fold trains on nothing ---------------------------------------------------

  /** A branch's array does not depend on a fold's targets at the samples of that fold. */
  lemma ColumnIgnores(l: Learner, d: Study, y1: seq<real>, y2: seq<real>, folds: seq<Fold>, f: nat, seed: int,
                      branch: int, s: nat)
    requires Regular(l) && Complete(d, folds) && |y1| == |d.groups| && f < |folds| && s in folds[f].val && s < |y1|
    requires AgreeOff(folds[f].val, y1, y2)
    ensures Column(l, d, y1, folds, seed, branch)[s] == Column(l, d, y2, folds, seed, branch)[s]
  {
    NoLeakage(l, d, y1, y2, folds, f, s, seed, branch,
              Column(l, d, y1, folds, seed, branch), Column(l, d, y2, folds, seed, branch));
  }

  lemma FeaturesIgnore(l: Learner, d: Study, y1: seq<real>, y2: seq<real>, folds: seq<Fold>, f: nat, seed: int,
                       m: Merge, s: nat)
    requires Regular(l) && Complete(d, folds) && |y1| == |d.groups| == |m.extra| && f < |folds|
    requires AgreeOff(folds[f].val, y1, y2) && s in folds[f].val && s < |y1|
    ensures MergeFeatures(l, d, y1, folds, seed, m)[s] == MergeFeatures(l, d, y2, folds, seed, m)[s]
  {
    forall c | 0 <= c < |m.columns|
      ensures Column(l, d, y1, folds, seed, m.columns[c])[s] == Column(l, d, y2, folds, seed, m.columns[c])[s]
    {
      ColumnIgnores(l, d, y1, y2, folds, f, seed, m.columns[c], s);
    }
  }

  lemma UntrainedIsBlind(l: Learner, d: Study, y1: seq<real>, y2: seq<real>, folds: seq<Fold>, f: nat, seed: int,
                         m: Merge)
    requires Regular(l) && Complete(d, folds) && |y1| == |d.groups| == |m.extra| && f < |folds|
    requires AgreeOff(folds[f].val, y1, y2) && folds[f].train == []
    ensures MergeOut(l, d, y1, folds, f, seed, m) == MergeOut(l, d, y2, folds, f, seed, m)
  {
    FoldInRange(folds, f, |y1|);
    var val := folds[f].val;
    var x1, x2 := MergeFeatures(l, d, y1, folds, seed, m), MergeFeatures(l, d, y2, folds, seed, m);
    forall i | 0 <= i < |val| ensures x1[val[i]] == x2[val[i]] {
      FeaturesIgnore(l, d, y1, y2, folds, f, seed, m, val[i]);
    }
    assert Picked(x1, val) == Picked(x2, val);
    assert Picked(x1, []) == Picked(x2, []) && Picked(y1, []) == Picked(y2, []);
  }

  // ---- Not blind anywhere else --------------------------------------------------------------------

  function Total(values: seq<real>): real {
    if values == [] then 0.0 else values[0] + Total(values[1..])
  }

  function Firsts(rows: seq<Row>): seq<real> {
    seq(|rows|, i requires 0 <= i < |rows| => FirstOf(rows[i]))
  }

  /** Predicts the same for every row: the sum of the targets and of the first features it was fitted on. */
  function TotalPredict(e: int, x: seq<Row>, y: seq<real>, v: seq<Row>): seq<real> {
    seq(|v|, i => Total(y) + Total(Firsts(x)))
  }

  const TOTALS: Learner := Learner((x, seed) => x, row => row, TotalPredict, FirstOf)

  predicate Below(a: seq<real>, b: seq<real>) {
    |a| == |b| && forall i :: 0 <= i < |a| ==> a[i] <= b[i]
  }

  lemma {:induction false} TotalGrows(a: seq<real>, b: seq<real>)
    requires Below(a, b)
    ensures Total(a) <= Total(b)
    ensures (exists i :: 0 <= i < |a| && a[i] < b[i]) ==> Total(a) < Total(b)
  {
    if a != [] {
      TotalGrows(a[1..], b[1..]);
      if i :| 0 <= i < |a| && a[i] < b[i] {
        assert i > 0 ==> a[1..][i - 1] < b[1..][i - 1];
      }
    }
  }

  lemma TotalsRegular()
    ensures Regular(TOTALS)
  {
  }

  lemma {:induction false} SameEverywhere(rowSamples: seq<nat>, predictions: seq<real>, s: nat, c: real)
    requires |rowSamples| == |predictions| && forall i :: 0 <= i < |predictions| ==> predictions[i] == c
    ensures s in rowSamples ==> FirstOf(PredictionsFor(rowSamples, predictions, s)) == c
  {
    if rowSamples != [] {
      var n := |rowSamples| - 1;
      SameEverywhere(rowSamples[..n], predictions[..n], s, c);
      NoPredictionsIff(rowSamples[..n], predictions[..n], s);
      assert rowSamples == rowSamples[..n] + [rowSamples[n]];
    }
  }

  /** What TOTALS predicts throughout a fold. */
  function Level(d: Study, y: seq<real>, fold: Fold, seed: int): real
    requires WellShaped(d, y)
  {
    var split := SplitOf(TOTALS, d, y, fold, seed);
    Total(split.yFit) + Total(Firsts(Spectral(TOTALS, split.xFit)))
  }

  lemma FoldIsLevel(d: Study, y: seq<real>, fold: Fold, seed: int, estimator: int)
    requires WellShaped(d, y) && forall s :: s in fold.val ==> s in d.rowSample
    ensures FoldPredictions(TOTALS, d, y, fold, seed, estimator).Some?
    ensures var values := FoldPredictions(TOTALS, d, y, fold, seed, estimator).value;
            |values| == |fold.val| && forall j :: 0 <= j < |values| ==> values[j] == Level(d, y, fold, seed)
  {
    TotalsRegular();
    FoldRaisesExactly(TOTALS, d, y, fold, seed, estimator);
    var split := SplitOf(TOTALS, d, y, fold, seed);
    var predictions := TotalPredict(estimator, Spectral(TOTALS, split.xFit), split.yFit, Spectral(TOTALS, split.xVal));
    forall j | 0 <= j < |fold.val|
      ensures FirstOf(PredictionsFor(split.valRowSamples, predictions, fold.val[j])) == Level(d, y, fold, seed)
    {
      assert fold.val[j] in fold.val;
      KeptRows(d.rowSample, ToSet(fold.val), fold.val[j]);
      SameEverywhere(split.valRowSamples, predictions, fold.val[j], Level(d, y, fold, seed));
    }
  }

  /** Raising the target of one of a fold's observed training samples raises its level. */
  lemma LevelRises(d: Study, y1: seq<real>, y2: seq<real>, fold: Fold, seed: int, s: nat)
    requires WellShaped(d, y1) && WellShaped(d, y2) && Below(y1, y2)
    requires s in fold.train && s in d.rowSample && s < |y1| && y1[s] < y2[s]
    ensures Level(d, y1, fold, seed) < Level(d, y2, fold, seed)
  {
    var rows := RowsOf(d.rowSample, ToSet(fold.train));
    var t1, t2 := TargetsOf(d.rowSample, y1, rows), TargetsOf(d.rowSample, y2, rows);
    KeptRows(d.rowSample, ToSet(fold.train), s);
    var i :| 0 <= i < |rows| && SamplesOf(d.rowSample, rows)[i] == s;
    assert t1[i] < t2[i];
    assert (t1 + t1)[i] < (t2 + t2)[i];
    TotalGrows(t1 + t1, t2 + t2);
  }

  /** Off the fold whose targets rise, every branch value rises: each of those folds trains on the raised sample. */
  lemma ColumnRises(d: Study, y1: seq<real>, y2: seq<real>, folds: seq<Fold>, f: nat, seed: int, b1: int, b2: int,
                    s: nat, t: nat)
    requires Regular(TOTALS) && Complete(d, folds) && |y1| == |y2| == |d.groups| && f < |folds|
    requires Below(y1, y2) && s in folds[f].val && s < |y1| && y1[s] < y2[s]
    requires t < |y1| && t !in folds[f].val
    ensures Column(TOTALS, d, y1, folds, seed, b1)[t] < Column(TOTALS, d, y2, folds, seed, b2)[t]
  {
    var g := FoldOf(folds, |y1|, t);
    assert s in folds[g].train;
    ColumnLevel(d, y1, folds, seed, b1, g, t);
    ColumnLevel(d, y2, folds, seed, b2, g, t);
    LevelRises(d, y1, y2, folds[g], seed + 1000 + g, s);
  }

  lemma ColumnLevel(d: Study, y: seq<real>, folds: seq<Fold>, seed: int, branch: int, g: nat, t: nat)
    requires Regular(TOTALS) && Complete(d, folds) && |y| == |d.groups| && g < |folds| && t in folds[g].val && t < |y|
    ensures Column(TOTALS, d, y, folds, seed, branch)[t] == Level(d, y, folds[g], seed + 1000 + g)
  {
    hide FoldPredictions, Level;
    forall s | s in folds[g].val ensures s in d.rowSample {
      assert s < |d.groups|;
    }
    FoldIsLevel(d, y, folds[g], seed + 1000 + g, branch);
    var plan := Planned(TOTALS, d, y, folds, seed, branch);
    assert Written(folds[g].val, plan[g], Column(TOTALS, d, y, folds, seed, branch));
    var j :| 0 <= j < |folds[g].val| && folds[g].val[j] == t;
  }

  lemma FeatureRises(d: Study, y1: seq<real>, y2: seq<real>, folds: seq<Fold>, f: nat, seed: int, m1: Merge, m2: Merge,
                     s: nat, t: nat)
    requires Regular(TOTALS) && Complete(d, folds) && |y1| == |y2| == |d.groups| && f < |folds|
    requires |m1.extra| == |m2.extra| == |d.groups| && m1.columns != [] && m2.columns != []
    requires Below(y1, y2) && s in folds[f].val && s < |y1| && y1[s] < y2[s]
    requires t < |y1| && t !in folds[f].val
    ensures FirstOf(MergeFeatures(TOTALS, d, y1, folds, seed, m1)[t])
          < FirstOf(MergeFeatures(TOTALS, d, y2, folds, seed, m2)[t])
  {
    ColumnRises(d, y1, y2, folds, f, seed, m1.columns[0], m2.columns[0], s, t);
  }

  /**
   * Raising targets within a fold's validation samples raises every merge prediction TOTALS makes
   * for them if the fold trains at all, even if other branches are selected for the raised targets.
   */
  lemma MergeLeaks(d: Study, y1: seq<real>, y2: seq<real>, folds: seq<Fold>, f: nat, seed: int, m1: Merge, m2: Merge,
                   s: nat, j: nat)
    requires Regular(TOTALS) && Complete(d, folds) && |y1| == |y2| == |d.groups| && f < |folds| && folds[f].train != []
    requires |m1.extra| == |m2.extra| == |d.groups| && m1.columns != [] && m2.columns != []
    requires Below(y1, y2) && AgreeOff(folds[f].val, y1, y2)
    requires s in folds[f].val && s < |y1| && y1[s] < y2[s] && j < |folds[f].val|
    ensures |MergeOut(TOTALS, d, y1, folds, f, seed, m1)| == |MergeOut(TOTALS, d, y2, folds, f, seed, m2)|
            == |folds[f].val|
    ensures MergeOut(TOTALS, d, y1, folds, f, seed, m1)[j] < MergeOut(TOTALS, d, y2, folds, f, seed, m2)[j]
  {
    FoldInRange(folds, f, |y1|);
    var train := folds[f].train;
    var x1, x2 := MergeFeatures(TOTALS, d, y1, folds, seed, m1), MergeFeatures(TOTALS, d, y2, folds, seed, m2);
    forall i | 0 <= i < |train| ensures FirstOf(x1[train[i]]) < FirstOf(x2[train[i]]) {
      assert train[i] in train;
      FeatureRises(d, y1, y2, folds, f, seed, m1, m2, s, train[i]);
    }
    var a, b := Firsts(Picked(x1, train)), Firsts(Picked(x2, train));
    assert a[0] < b[0];
    TotalGrows(a, b);
    assert Below(Picked(y1, train), Picked(y2, train));
    TotalGrows(Picked(y1, train), Picked(y2, train));
  }

  // ---- Exactly when -------------------------------------------------------------------------------

  /** No learner's merge predictions for fold `f` depend on the targets of that fold's validation samples. */
  ghost predicate Blind(d: Study, folds: seq<Fold>, f: nat, seed: int, m: Merge)
    requires Complete(d, folds) && |m.extra| == |d.groups| && f < |folds|
  {
    forall l, y1, y2 ::
      Regular(l) && |y1| == |d.groups| && AgreeOff(folds[f].val, y1, y2)
      ==> MergeOut(l, d, y1, folds, f, seed, m) == MergeOut(l, d, y2, folds, f, seed, m)
  }

  /** For a fold that holds out anything: the merge stage is blind exactly if the fold trains on nothing. */
  lemma MergeBlindExactly(d: Study, folds: seq<Fold>, f: nat, seed: int, m: Merge)
    requires Complete(d, folds) && |m.extra| == |d.groups| && m.columns != [] && f < |folds| && folds[f].val != []
    ensures Blind(d, folds, f, seed, m) <==> folds[f].train == []
  {
    if folds[f].train == [] {
      forall l, y1, y2 | Regular(l) && |y1| == |d.groups| && AgreeOff(folds[f].val, y1, y2)
        ensures MergeOut(l, d, y1, folds, f, seed, m) == MergeOut(l, d, y2, folds, f, seed, m)
      {
        UntrainedIsBlind(l, d, y1, y2, folds, f, seed, m);
      }
    } else {
      var s := folds[f].val[0];
      assert s in folds[f].val;
      var y1 := seq(|d.groups|, _ => 0.0);
      var y2 := y1[s := 1.0];
      TotalsRegular();
      MergeLeaks(d, y1, y2, folds, f, seed, m, m, s, 0);
    }
  }

  // ---- The hypotheses can be met ------------------------------------------------------------------

  const PAIR := Study([[0.0], [0.0]], [0, 1], [0, 1])
  const HALVES := [Fold([1], [0]), Fold([0], [1])]

  /** Two samples held out in turn make a partition that keeps groups whole, trains and validates everywhere. */
  lemma HalvesComplete()
    ensures Complete(PAIR, HALVES) && GroupsWhole(HALVES, PAIR.groups)
    ensures forall f :: 0 <= f < 2 ==> HALVES[f].train != [] && HALVES[f].val != []
  {
    assert 0 in HALVES[0].val && 1 in HALVES[1].val;
    forall s: nat | s < 2 ensures Held(HALVES, s) && s in PAIR.rowSample {
      assert s in HALVES[s].val && PAIR.rowSample[s] == s;
    }
  }

  /** So no fold of theirs is blind, and a raised target of sample 0 raises its merge prediction. */
  lemma HalvesLeak(seed: int, m: Merge)
    requires m.columns != [] && |m.extra| == 2
    ensures Complete(PAIR, HALVES) && Regular(TOTALS)
    ensures !Blind(PAIR, HALVES, 0, seed, m) && !Blind(PAIR, HALVES, 1, seed, m)
    ensures MergeOut(TOTALS, PAIR, [0.0, 0.0], HALVES, 0, seed, m)
         != MergeOut(TOTALS, PAIR, [1.0, 0.0], HALVES, 0, seed, m)
  {
    HalvesComplete();
    TotalsRegular();
    MergeBlindExactly(PAIR, HALVES, 0, seed, m);
    MergeBlindExactly(PAIR, HALVES, 1, seed, m);
    MergeLeaks(PAIR, [0.0, 0.0], [1.0, 0.0], HALVES, 0, seed, m, m, 0, 0);
  }
}
