/**
 * What a branch's out-of-fold predictions are, and that they do not depend on the
 * targets of the samples they are made for. Estimators, augmentation noise and the
 * mean are deterministic functions about which nothing else is assumed.
 */
module OutOfFold {
  import opened Results

  type Row = seq<real>

  datatype Fold = Fold(train: seq<nat>, val: seq<nat>)

  /** Observations, the sample each one belongs to, and the group of every sample. */
  datatype Study = Study(x: seq<Row>, rowSample: seq<nat>, groups: seq<nat>)

  /** `fitPredict(e, x, y, v)` fits a clone of estimator `e` on x and y and predicts the rows v. */
  datatype Learner = Learner(
    perturb: (seq<Row>, int) -> seq<Row>,
    spectral: Row -> Row,
    fitPredict: (int, seq<Row>, seq<real>, seq<Row>) -> seq<real>,
    mean: seq<real> -> real)

  ghost predicate Regular(l: Learner) {
    && (forall x, seed :: |l.perturb(x, seed)| == |x|)
    && (forall e, x, y, v :: |l.fitPredict(e, x, y, v)| == |v|)
  }

  predicate WellShaped(d: Study, y: seq<real>) {
    && |d.x| == |d.rowSample| && |d.groups| == |y|
    && forall r :: 0 <= r < |d.rowSample| ==> d.rowSample[r] < |y|
  }

  function ToSet(s: seq<nat>): set<nat> { set v | v in s }

  ghost predicate Held(folds: seq<Fold>, s: nat) {
    exists f :: 0 <= f < |folds| && s in folds[f].val
  }

  /** The validation sets partition the samples 0..n and every train set is the complement. */
  ghost predicate Partition(folds: seq<Fold>, n: nat) {
    && (forall f :: 0 <= f < |folds| ==>
          && Distinct(folds[f].val)
          && (forall s :: s in folds[f].val ==> s < n)
          && (forall s: nat :: s in folds[f].train <==> s < n && s !in folds[f].val))
    && (forall f, g, s :: 0 <= f < |folds| && 0 <= g < |folds| && s in folds[f].val && s in folds[g].val ==> f == g)
    && (forall s: nat :: s < n ==> Held(folds, s))
  }

  /** No group is split between a validation set and another one. */
  ghost predicate GroupsWhole(folds: seq<Fold>, groups: seq<nat>) {
    forall f, s: nat, t: nat ::
      0 <= f < |folds| && s < |groups| && t < |groups| && groups[s] == groups[t] && s in folds[f].val
      ==> t in folds[f].val
  }

  // ---- One fold, as a function -----------------------------------------------------------

  /** The observations of some samples, in order. */
  function RowsOf(rowSample: seq<nat>, keep: set<nat>): (rows: seq<nat>)
    ensures forall i :: 0 <= i < |rows| ==> rows[i] < |rowSample| && rowSample[rows[i]] in keep
  {
    if rowSample == [] then []
    else
      var n := |rowSample| - 1;
      RowsOf(rowSample[..n], keep) + (if rowSample[n] in keep then [n] else [])
  }

  function Observed(x: seq<Row>, rows: seq<nat>): seq<Row>
    requires forall i :: 0 <= i < |rows| ==> rows[i] < |x|
  {
    seq(|rows|, i requires 0 <= i < |rows| => x[rows[i]])
  }

  function Spectral(l: Learner, x: seq<Row>): seq<Row> {
    seq(|x|, i requires 0 <= i < |x| => l.spectral(x[i]))
  }

  function TargetsOf(rowSample: seq<nat>, y: seq<real>, rows: seq<nat>): seq<real>
    requires forall i :: 0 <= i < |rows| ==> rows[i] < |rowSample| && rowSample[rows[i]] < |y|
  {
    seq(|rows|, i requires 0 <= i < |rows| => y[rowSample[rows[i]]])
  }

  /** The predictions made for the rows of one sample. */
  function PredictionsFor(rowSamples: seq<nat>, predictions: seq<real>, sample: nat): seq<real>
    requires |rowSamples| == |predictions|
  {
    if rowSamples == [] then []
    else
      var n := |rowSamples| - 1;
      PredictionsFor(rowSamples[..n], predictions[..n], sample)
      + (if rowSamples[n] == sample then [predictions[n]] else [])
  }

  /** `aggregate_by_sample`: the mean prediction per validation sample; None where the source raises. */
  function Aggregated(l: Learner, rowSamples: seq<nat>, predictions: seq<real>, samples: seq<nat>): Option<seq<real>>
    requires |rowSamples| == |predictions|
  {
    if exists i :: 0 <= i < |samples| && PredictionsFor(rowSamples, predictions, samples[i]) == [] then None
    else Some(seq(|samples|, i requires 0 <= i < |samples| =>
      l.mean(PredictionsFor(rowSamples, predictions, samples[i]))))
  }

  /** What `augment_train` returns without the count: the rows and a perturbed copy, the targets twice. */
  function Augmented(l: Learner, x: seq<Row>, y: seq<real>, seed: int): (seq<Row>, seq<real>) {
    (x + l.perturb(x, seed), y + y)
  }

  /** The matrices one fold is fitted and evaluated on. */
  datatype Split = Split(xFit: seq<Row>, yFit: seq<real>, xVal: seq<Row>, valRowSamples: seq<nat>)

  function SplitOf(l: Learner, d: Study, y: seq<real>, fold: Fold, seed: int): (split: Split)
    requires WellShaped(d, y)
    ensures |split.xVal| == |split.valRowSamples|
  {
    var trainRows, valRows := RowsOf(d.rowSample, ToSet(fold.train)), RowsOf(d.rowSample, ToSet(fold.val));
    var fit := Augmented(l, Observed(d.x, trainRows), TargetsOf(d.rowSample, y, trainRows), seed);
    Split(fit.0, fit.1, Observed(d.x, valRows), SamplesOf(d.rowSample, valRows))
  }

  /** The out-of-fold predictions of one estimator on a split, for the listed validation samples. */
  function SplitPredictions(l: Learner, split: Split, samples: seq<nat>, estimator: int): Option<seq<real>>
    requires |split.xVal| == |split.valRowSamples|
  {
    var predictions := l.fitPredict(estimator, Spectral(l, split.xFit), split.yFit, Spectral(l, split.xVal));
    if |predictions| != |split.valRowSamples| then None
    else Aggregated(l, split.valRowSamples, predictions, samples)
  }

  function FoldPredictions(l: Learner, d: Study, y: seq<real>, fold: Fold, seed: int, estimator: int): Option<seq<real>>
    requires WellShaped(d, y)
  {
    SplitPredictions(l, SplitOf(l, d, y, fold, seed), fold.val, estimator)
  }

  function SamplesOf(rowSample: seq<nat>, rows: seq<nat>): seq<nat>
    requires forall i :: 0 <= i < |rows| ==> rows[i] < |rowSample|
  {
    seq(|rows|, i requires 0 <= i < |rows| => rowSample[rows[i]])
  }

  function Picked<T>(values: seq<T>, samples: seq<nat>): seq<T>
    requires forall i :: 0 <= i < |samples| ==> samples[i] < |values|
  {
    seq(|samples|, i requires 0 <= i < |samples| => values[samples[i]])
  }

  // ---- What the rows of a fold are -----------------------------------------------------------

  /** The rows are exactly those of the listed samples, ascending and hence each once. */
  ghost predicate ListsRows(rows: seq<nat>, rowSample: seq<nat>, keep: set<nat>) {
    && (forall i, j :: 0 <= i < j < |rows| ==> rows[i] < rows[j])
    && (forall i :: 0 <= i < |rows| ==> rows[i] < |rowSample|)
    && (forall k: nat :: k < |rowSample| ==> (k in rows <==> rowSample[k] in keep))
  }

  lemma {:induction false} RowsListed(rowSample: seq<nat>, keep: set<nat>)
    ensures ListsRows(RowsOf(rowSample, keep), rowSample, keep)
  {
    if rowSample != [] {
      var n := |rowSample| - 1;
      RowsListed(rowSample[..n], keep);
      var before := RowsOf(rowSample[..n], keep);
      forall k: nat | k < n ensures k in RowsOf(rowSample, keep) <==> rowSample[k] in keep {
        assert rowSample[..n][k] == rowSample[k];
      }
      assert n !in before;
    }
  }

  /** The predictions of a sample are those at all of its rows, in order. */
  lemma {:induction false} PredictionsListed(rowSamples: seq<nat>, predictions: seq<real>, sample: nat)
    requires |rowSamples| == |predictions|
    ensures PredictionsFor(rowSamples, predictions, sample) == Picked(predictions, RowsOf(rowSamples, {sample}))
  {
    if rowSamples != [] {
      var n := |rowSamples| - 1;
      PredictionsListed(rowSamples[..n], predictions[..n], sample);
      var before, rows := RowsOf(rowSamples[..n], {sample}), RowsOf(rowSamples, {sample});
      assert Picked(predictions, rows)[..|before|] == Picked(predictions[..n], before);
      assert Picked(predictions, rows)
          == Picked(predictions, rows)[..|before|] + (if rowSamples[n] == sample then [predictions[n]] else []);
    }
  }

  function Sum(values: seq<real>): real {
    if values == [] then 0.0 else Sum(values[..|values| - 1]) + values[|values| - 1]
  }

  /** The predictions with those of other samples set to zero. */
  function Masked(rowSamples: seq<nat>, predictions: seq<real>, sample: nat): (r: seq<real>)
    requires |rowSamples| == |predictions|
    ensures |r| == |predictions|
  {
    seq(|predictions|, i requires 0 <= i < |predictions| => if rowSamples[i] == sample then predictions[i] else 0.0)
  }

  /** No repetition of a sample is left out, and none counts twice. */
  lemma {:induction false} SampleSum(rowSamples: seq<nat>, predictions: seq<real>, sample: nat)
    requires |rowSamples| == |predictions|
    ensures Sum(PredictionsFor(rowSamples, predictions, sample)) == Sum(Masked(rowSamples, predictions, sample))
  {
    if rowSamples != [] {
      var n := |rowSamples| - 1;
      SampleSum(rowSamples[..n], predictions[..n], sample);
      var before := PredictionsFor(rowSamples[..n], predictions[..n], sample);
      var masked := Masked(rowSamples, predictions, sample);
      assert masked[..n] == Masked(rowSamples[..n], predictions[..n], sample);
      assert (before + [predictions[n]])[..|before|] == before;
      assert before + [] == before;
    }
  }

  /** `value` is the mean prediction over all rows of a sample. */
  ghost predicate IsSampleMean(l: Learner, rowSamples: seq<nat>, predictions: seq<real>, sample: nat, value: real)
    requires |rowSamples| == |predictions|
  {
    exists rows :: ListsRows(rows, rowSamples, {sample}) && rows != [] && value == l.mean(Picked(predictions, rows))
  }

  lemma AggregatedExactly(l: Learner, rowSamples: seq<nat>, predictions: seq<real>, samples: seq<nat>)
    requires |rowSamples| == |predictions|
    ensures var r := Aggregated(l, rowSamples, predictions, samples);
            && (r.None? <==> exists s <- samples :: s !in rowSamples)
            && (r.Some? ==>
                  && |r.value| == |samples|
                  && forall j :: 0 <= j < |samples| ==>
                       IsSampleMean(l, rowSamples, predictions, samples[j], r.value[j]))
  {
    forall s | s in samples ensures PredictionsFor(rowSamples, predictions, s) == [] <==> s !in rowSamples {
      NoPredictionsIff(rowSamples, predictions, s);
    }
    if r :| Aggregated(l, rowSamples, predictions, samples) == Some(r) {
      forall j | 0 <= j < |samples| ensures IsSampleMean(l, rowSamples, predictions, samples[j], r[j]) {
        RowsListed(rowSamples, {samples[j]});
        PredictionsListed(rowSamples, predictions, samples[j]);
      }
    }
  }

  /**
   * What an out-of-fold value is, said once more and outright: the estimator is fitted on all rows of
   * the fold's train samples and a perturbed copy of them, with their targets twice; the value is the
   * mean of its predictions over all rows of the sample.
   */
  ghost predicate IsFoldValue(l: Learner, d: Study, y: seq<real>, fold: Fold, seed: int, estimator: int, sample: nat,
                              value: real)
    requires Regular(l) && WellShaped(d, y)
  {
    exists train, val ::
      && ListsRows(train, d.rowSample, set s | s in fold.train)
      && ListsRows(val, d.rowSample, set s | s in fold.val)
      && var x, t := Picked(d.x, train), Picked(y, Picked(d.rowSample, train));
         var xFit, xVal := Spectral(l, x + l.perturb(x, seed)), Spectral(l, Picked(d.x, val));
         var fitted := l.fitPredict(estimator, xFit, t + t, xVal);
         IsSampleMean(l, Picked(d.rowSample, val), fitted, sample, value)
  }

  lemma FoldValues(l: Learner, d: Study, y: seq<real>, fold: Fold, seed: int, estimator: int, j: nat)
    requires Regular(l) && WellShaped(d, y) && j < |fold.val|
    requires FoldPredictions(l, d, y, fold, seed, estimator).Some?
    ensures var values := FoldPredictions(l, d, y, fold, seed, estimator).value;
            |values| == |fold.val| && IsFoldValue(l, d, y, fold, seed, estimator, fold.val[j], values[j])
  {
    var train, val := RowsOf(d.rowSample, ToSet(fold.train)), RowsOf(d.rowSample, ToSet(fold.val));
    RowsListed(d.rowSample, ToSet(fold.train));
    RowsListed(d.rowSample, ToSet(fold.val));
    var split := SplitOf(l, d, y, fold, seed);
    var x, t := Picked(d.x, train), Picked(y, Picked(d.rowSample, train));
    assert Observed(d.x, train) == x && TargetsOf(d.rowSample, y, train) == t && Observed(d.x, val) == Picked(d.x, val);
    assert split.valRowSamples == Picked(d.rowSample, val);
    var fitted := l.fitPredict(estimator, Spectral(l, x + l.perturb(x, seed)), t + t, Spectral(l, Picked(d.x, val)));
    assert |fitted| == |val|;
    AggregatedExactly(l, split.valRowSamples, fitted, fold.val);
  }

  // ---- Noninterference ----------------------------------------------------------------------

  /** The training targets of a fold are the same for targets that agree outside its validation samples. */
  lemma TrainTargetsAgree(d: Study, y1: seq<real>, y2: seq<real>, fold: Fold)
    requires WellShaped(d, y1) && WellShaped(d, y2) && |y1| == |y2|
    requires forall s :: s in fold.train ==> s < |y1| && s !in fold.val
    requires forall s :: 0 <= s < |y1| && s !in fold.val ==> y1[s] == y2[s]
    ensures var rows := RowsOf(d.rowSample, ToSet(fold.train));
            TargetsOf(d.rowSample, y1, rows) == TargetsOf(d.rowSample, y2, rows)
  {
    var rows := RowsOf(d.rowSample, ToSet(fold.train));
    forall i | 0 <= i < |rows| ensures y1[d.rowSample[rows[i]]] == y2[d.rowSample[rows[i]]] {
      assert d.rowSample[rows[i]] in fold.train;
    }
  }

  /**
   * Two executions whose targets differ only on a fold's validation samples predict the
   * same values for all of them, whatever the estimator and the noise.
   */
  lemma OofIgnoresOwnTargets(l: Learner, d: Study, y1: seq<real>, y2: seq<real>,
                             folds: seq<Fold>, f: nat, seed: int, estimator: int)
    requires Regular(l) && WellShaped(d, y1) && WellShaped(d, y2) && |y1| == |y2|
    requires Partition(folds, |y1|) && f < |folds|
    requires forall s :: 0 <= s < |y1| && s !in folds[f].val ==> y1[s] == y2[s]
    ensures FoldPredictions(l, d, y1, folds[f], seed, estimator) == FoldPredictions(l, d, y2, folds[f], seed, estimator)
  {
    TrainTargetsAgree(d, y1, y2, folds[f]);
  }

  /** In particular the prediction for a sample ignores the targets of its whole group. */
  lemma OofIgnoresGroup(l: Learner, d: Study, y1: seq<real>, y2: seq<real>,
                        folds: seq<Fold>, f: nat, s: nat, seed: int, estimator: int)
    requires Regular(l) && WellShaped(d, y1) && WellShaped(d, y2) && |y1| == |y2|
    requires Partition(folds, |y1|) && GroupsWhole(folds, d.groups) && f < |folds| && s in folds[f].val
    requires forall t :: 0 <= t < |y1| && d.groups[t] != d.groups[s] ==> y1[t] == y2[t]
    ensures FoldPredictions(l, d, y1, folds[f], seed, estimator) == FoldPredictions(l, d, y2, folds[f], seed, estimator)
  {
    forall t | 0 <= t < |y1| && t !in folds[f].val ensures y1[t] == y2[t] {
      assert d.groups[t] != d.groups[s];
    }
    OofIgnoresOwnTargets(l, d, y1, y2, folds, f, seed, estimator);
  }

  /** A fold raises exactly if one of its validation samples has no observation. */
  lemma FoldRaisesExactly(l: Learner, d: Study, y: seq<real>, fold: Fold, seed: int, estimator: int)
    requires Regular(l) && WellShaped(d, y)
    ensures FoldPredictions(l, d, y, fold, seed, estimator).None?
       <==> exists s <- fold.val :: s !in d.rowSample
    ensures FoldPredictions(l, d, y, fold, seed, estimator).Some?
        ==> |FoldPredictions(l, d, y, fold, seed, estimator).value| == |fold.val|
  {
    var valRows := RowsOf(d.rowSample, ToSet(fold.val));
    var samples := SamplesOf(d.rowSample, valRows);
    forall s, predictions | s in fold.val && |predictions| == |samples|
      ensures PredictionsFor(samples, predictions, s) == [] <==> s !in d.rowSample
    {
      NoPredictionsIff(samples, predictions, s);
      KeptRows(d.rowSample, ToSet(fold.val), s);
    }
  }

  lemma {:induction false} NoPredictionsIff(rowSamples: seq<nat>, predictions: seq<real>, s: nat)
    requires |rowSamples| == |predictions|
    ensures PredictionsFor(rowSamples, predictions, s) == [] <==> s !in rowSamples
  {
    if rowSamples != [] {
      var n := |rowSamples| - 1;
      NoPredictionsIff(rowSamples[..n], predictions[..n], s);
      assert rowSamples == rowSamples[..n] + [rowSamples[n]];
    }
  }

  lemma {:induction false} KeptRows(rowSample: seq<nat>, keep: set<nat>, s: nat)
    requires s in keep
    ensures s in SamplesOf(rowSample, RowsOf(rowSample, keep)) <==> s in rowSample
  {
    if rowSample != [] {
      var n := |rowSample| - 1;
      KeptRows(rowSample[..n], keep, s);
      assert rowSample == rowSample[..n] + [rowSample[n]];
      var before, rows := RowsOf(rowSample[..n], keep), RowsOf(rowSample, keep);
      assert SamplesOf(rowSample, rows)[..|before|] == SamplesOf(rowSample[..n], before);
      assert SamplesOf(rowSample, rows)
          == SamplesOf(rowSample, rows)[..|before|] + (if rowSample[n] in keep then [rowSample[n]] else []);
    }
  }

  // ---- The merge stage on two samples ----------------------------------------------------------

  /** One fold of the merge stage: fitted on the out-of-fold features of its train samples. */
  function MergePredictions(l: Learner, features: seq<Row>, y: seq<real>, fold: Fold, estimator: int): seq<real>
    requires |features| == |y|
    requires forall i :: 0 <= i < |fold.train| ==> fold.train[i] < |y|
    requires forall i :: 0 <= i < |fold.val| ==> fold.val[i] < |y|
  {
    l.fitPredict(estimator, Picked(features, fold.train), Picked(y, fold.train), Picked(features, fold.val))
  }

  function FirstOf(s: seq<real>): real { if s == [] then 0.0 else s[0] }

  /** Predicts the first feature plus the first target it was fitted on. */
  function ProbePredict(e: int, x: seq<Row>, y: seq<real>, v: seq<Row>): seq<real> {
    seq(|v|, i => (if x == [] then 0.0 else FirstOf(x[0])) + FirstOf(y))
  }

  const PROBE: Learner := Learner((x, seed) => x, row => row, ProbePredict, FirstOf)

  lemma {:induction false} PairRows(rowSample: seq<nat>, keep: nat)
    requires rowSample == [0, 1] && keep < 2
    ensures RowsOf(rowSample, {keep}) == [keep]
  {
    assert rowSample[..1] == [0] && rowSample[..1][..0] == [];
    assert RowsOf(rowSample[..1][..0], {keep}) == [];
    assert RowsOf(rowSample[..1], {keep}) == if keep == 0 then [0] else [];
  }

  /** What a split is once the rows it selects are known. */
  lemma SplitFrom(l: Learner, d: Study, y: seq<real>, fold: Fold, seed: int, t: nat, v: nat)
    requires WellShaped(d, y) && t < |d.x| && v < |d.x|
    requires RowsOf(d.rowSample, ToSet(fold.train)) == [t] && RowsOf(d.rowSample, ToSet(fold.val)) == [v]
    ensures SplitOf(l, d, y, fold, seed)
         == Split([d.x[t]] + l.perturb([d.x[t]], seed), [y[d.rowSample[t]], y[d.rowSample[t]]],
                  [d.x[v]], [d.rowSample[v]])
  {
    assert Observed(d.x, [t]) == [d.x[t]];
    assert Observed(d.x, [v]) == [d.x[v]];
    assert TargetsOf(d.rowSample, y, [t]) == [y[d.rowSample[t]]];
    assert SamplesOf(d.rowSample, [v]) == [d.rowSample[v]];
    assert [y[d.rowSample[t]]] + [y[d.rowSample[t]]] == [y[d.rowSample[t]], y[d.rowSample[t]]];
  }

  lemma PairSplit(l: Learner, d: Study, y: seq<real>, train: nat, val: nat, seed: int)
    requires WellShaped(d, y) && d.rowSample == [0, 1] && |y| == 2 && train < 2 && val < 2
    ensures SplitOf(l, d, y, Fold([train], [val]), seed)
         == Split([d.x[train]] + l.perturb([d.x[train]], seed), [y[train], y[train]], [d.x[val]], [val])
  {
    assert ToSet([train]) == {train} && ToSet([val]) == {val};
    PairRows(d.rowSample, train);
    PairRows(d.rowSample, val);
    SplitFrom(l, d, y, Fold([train], [val]), seed, train, val);
  }

  lemma OnePrediction(l: Learner, split: Split, val: nat, estimator: int, value: real)
    requires |split.xVal| == |split.valRowSamples| && split.valRowSamples == [val]
    requires l.fitPredict(estimator, Spectral(l, split.xFit), split.yFit, Spectral(l, split.xVal)) == [value]
    ensures SplitPredictions(l, split, [val], estimator) == Some([l.mean([value])])
  {
    var rows, found := [val], [value];
    assert PredictionsFor(rows, found, val) == [value] by {
      assert rows[..0] == [] && found[..0] == [];
    }
    assert SplitPredictions(l, split, [val], estimator).value == [l.mean([value])];
  }

  /** With two samples held out in turn, each one's branch prediction is the other one's target. */
  lemma PairBranch(d: Study, y: seq<real>, train: nat, val: nat)
    requires d.x == [[0.0], [0.0]] && d.rowSample == [0, 1] && |d.groups| == |y| == 2 && train < 2 && val < 2
    ensures FoldPredictions(PROBE, d, y, Fold([train], [val]), 0, 0) == Some([y[train]])
  {
    PairSplit(PROBE, d, y, train, val, 0);
    var split := SplitOf(PROBE, d, y, Fold([train], [val]), 0);
    var x, v := Spectral(PROBE, split.xFit), Spectral(PROBE, split.xVal);
    assert x[0] == [0.0] && |v| == 1;
    assert ProbePredict(0, x, split.yFit, v) == [y[train]];
    OnePrediction(PROBE, split, val, 0, y[train]);
  }

  /** Merge predictions do depend on the sample's own target, through the other samples' features. */
  lemma MergeSeesOwnTarget(d: Study, y: seq<real>)
    requires d.x == [[0.0], [0.0]] && d.rowSample == [0, 1] && |d.groups| == |y| == 2
    ensures FoldPredictions(PROBE, d, y, Fold([1], [0]), 0, 0) == Some([y[1]])
    ensures FoldPredictions(PROBE, d, y, Fold([0], [1]), 0, 0) == Some([y[0]])
    ensures MergePredictions(PROBE, [[y[1]], [y[0]]], y, Fold([1], [0]), 0) == [y[0] + y[1]]
  {
    PairBranch(d, y, 1, 0);
    PairBranch(d, y, 0, 1);
    assert Picked([[y[1]], [y[0]]], [1]) == [[y[0]]] && Picked(y, [1]) == [y[1]];
    assert Picked([[y[1]], [y[0]]], [0]) == [[y[1]]];
    assert ProbePredict(0, [[y[0]]], [y[1]], [[y[1]]]) == [y[0] + y[1]];
  }
}
