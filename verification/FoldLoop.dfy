/** The fold loop that fills one out-of-fold array per branch. */
module FoldLoop {
  import opened Results
  import opened OutOfFold

  /** A branch is its estimator; the arrays are listed in branch order. */
  type Branches = seq<int>

  method SelectRows(rowSample: seq<nat>, keep: set<nat>) returns (rows: seq<nat>)
    ensures rows == RowsOf(rowSample, keep)
    ensures ListsRows(rows, rowSample, keep)
  {
    RowsListed(rowSample, keep);
    rows := [];
    for i := 0 to |rowSample|
      invariant rows == RowsOf(rowSample[..i], keep)
    {
      assert rowSample[..i + 1][..i] == rowSample[..i];
      if rowSample[i] in keep {
        rows := rows + [i];
      }
    }
    assert rowSample[..|rowSample|] == rowSample;
  }

  method SamplePredictions(rowSamples: seq<nat>, predictions: seq<real>, sample: nat) returns (found: seq<real>)
    requires |rowSamples| == |predictions|
    ensures found == PredictionsFor(rowSamples, predictions, sample)
  {
    found := [];
    for i := 0 to |rowSamples|
      invariant found == PredictionsFor(rowSamples[..i], predictions[..i], sample)
    {
      assert rowSamples[..i + 1][..i] == rowSamples[..i] && predictions[..i + 1][..i] == predictions[..i];
      if rowSamples[i] == sample {
        found := found + [predictions[i]];
      }
    }
    assert rowSamples[..|rowSamples|] == rowSamples && predictions[..|predictions|] == predictions;
  }

  method AggregateBySample(l: Learner, rowSamples: seq<nat>, predictions: seq<real>, samples: seq<nat>)
      returns (r: Option<seq<real>>)
    requires |rowSamples| == |predictions|
    ensures r == Aggregated(l, rowSamples, predictions, samples)
    ensures r.None? <==> exists s <- samples :: s !in rowSamples
    ensures r.Some? ==> |r.value| == |samples|
    ensures r.Some? ==> forall j :: 0 <= j < |samples| ==>
              IsSampleMean(l, rowSamples, predictions, samples[j], r.value[j])
  {
    hide ListsRows, IsSampleMean;
    var values: seq<real> := [];
    for i := 0 to |samples|
      invariant |values| == i
      invariant forall j :: 0 <= j < i ==> PredictionsFor(rowSamples, predictions, samples[j]) != []
      invariant forall j :: 0 <= j < i ==> values[j] == l.mean(PredictionsFor(rowSamples, predictions, samples[j]))
    {
      var found := SamplePredictions(rowSamples, predictions, samples[i]);
      if found == [] {
        r := None;
        AggregatedExactly(l, rowSamples, predictions, samples);
        return;
      }
      values := values + [l.mean(found)];
    }
    assert values == Aggregated(l, rowSamples, predictions, samples).value;
    r := Some(values);
    AggregatedExactly(l, rowSamples, predictions, samples);
  }

  /** `oof[samples] = values`: every listed position is written, each once, and no other. */
  method Scatter(target: array<real>, samples: seq<nat>, values: seq<real>)
    requires |samples| == |values| && Distinct(samples)
    requires forall s :: s in samples ==> s < target.Length
    modifies target
    ensures forall j :: 0 <= j < |samples| ==> samples[j] in samples && target[samples[j]] == values[j]
    ensures forall s :: 0 <= s < target.Length && s !in samples ==> target[s] == old(target[s])
  {
    for i := 0 to |samples|
      invariant forall j :: 0 <= j < i ==> samples[j] in samples && target[samples[j]] == values[j]
      invariant forall s :: 0 <= s < target.Length && s !in samples[..i] ==> target[s] == old(target[s])
    {
      assert samples[i] in samples && samples[..i + 1] == samples[..i] + [samples[i]];
      target[samples[i]] := values[i];
    }
    assert samples[..|samples|] == samples;
  }

  /** What every fold predicts for one branch, None where aggregation raises. */
  function Planned(l: Learner, d: Study, y: seq<real>, folds: seq<Fold>, seed: int, estimator: int)
      : seq<Option<seq<real>>>
    requires WellShaped(d, y)
  {
    seq(|folds|, f requires 0 <= f < |folds| => FoldPredictions(l, d, y, folds[f], seed + 1000 + f, estimator))
  }

  ghost predicate Unwritten(folds: seq<Fold>, done: nat, s: nat)
    requires done <= |folds|
  {
    forall f :: 0 <= f < done ==> s !in folds[f].val
  }

  /** Fold `f` of the plan predicts one value per validation sample, and the array holds them there. */
  ghost predicate Written(val: seq<nat>, planned: Option<seq<real>>, content: seq<real>) {
    && planned.Some? && |planned.value| == |val|
    && forall j :: 0 <= j < |val| ==> val[j] < |content| && content[val[j]] == planned.value[j]
  }

  /** An array after `done` folds: what those folds predict at their samples, and zero elsewhere. */
  ghost predicate Holds(folds: seq<Fold>, plan: seq<Option<seq<real>>>, done: nat, content: seq<real>) {
    && done <= |folds| == |plan|
    && (forall f :: 0 <= f < done ==> Written(folds[f].val, plan[f], content))
    && (forall s :: 0 <= s < |content| && Unwritten(folds, done, s) ==> content[s] == 0.0)
  }

  lemma HoldsGrows(folds: seq<Fold>, plan: seq<Option<seq<real>>>, f: nat, before: seq<real>, after: seq<real>)
    requires Partition(folds, |before|) && f < |folds| && |after| == |before|
    requires Holds(folds, plan, f, before) && Written(folds[f].val, plan[f], after)
    requires forall s :: 0 <= s < |after| && s !in folds[f].val ==> after[s] == before[s]
    ensures Holds(folds, plan, f + 1, after)
  {
    forall g | 0 <= g < f ensures Written(folds[g].val, plan[g], after) {
      forall j | 0 <= j < |folds[g].val| ensures after[folds[g].val[j]] == plan[g].value[j] {
        assert folds[g].val[j] in folds[g].val;
      }
    }
    forall s | 0 <= s < |after| && Unwritten(folds, f + 1, s) ensures after[s] == 0.0 {
      assert Unwritten(folds, f, s);
    }
  }

  ghost predicate Separate(tables: seq<array<real>>) {
    forall a, b :: 0 <= a < b < |tables| ==> tables[a] != tables[b]
  }

  /** One branch's turn in the branch loop; false where aggregation raises. */
  method RunBranch(l: Learner, split: Split, val: seq<nat>, estimator: int, target: array<real>)
      returns (ok: bool, ghost values: seq<real>)
    requires Regular(l) && |split.xVal| == |split.valRowSamples|
    requires Distinct(val) && forall s :: s in val ==> s < target.Length
    modifies target
    ensures ok == SplitPredictions(l, split, val, estimator).Some?
    ensures ok ==> SplitPredictions(l, split, val, estimator) == Some(values) && |values| == |val|
    ensures ok ==> forall j :: 0 <= j < |val| ==> val[j] in val && target[val[j]] == values[j]
    ensures ok ==> forall s :: 0 <= s < target.Length && s !in val ==> target[s] == old(target[s])
  {
    var predicted := l.fitPredict(estimator, Spectral(l, split.xFit), split.yFit, Spectral(l, split.xVal));
    var aggregated := AggregateBySample(l, split.valRowSamples, predicted, val);
    values := [];
    if aggregated.None? {
      return false, values;
    }
    values := aggregated.value;
    Scatter(target, val, aggregated.value);
    return true, values;
  }

  /** The same, for an array that already holds the earlier folds. */
  method ExtendBranch(l: Learner, split: Split, folds: seq<Fold>, ghost plan: seq<Option<seq<real>>>, f: nat,
                      estimator: int, target: array<real>) returns (ok: bool)
    requires Regular(l) && |split.xVal| == |split.valRowSamples| && Partition(folds, target.Length) && f < |folds|
    requires Holds(folds, plan, f, target[..]) && plan[f] == SplitPredictions(l, split, folds[f].val, estimator)
    modifies target
    ensures ok == plan[f].Some?
    ensures ok ==> Holds(folds, plan, f + 1, target[..])
  {
    ghost var before, values := target[..], [];
    ok, values := RunBranch(l, split, folds[f].val, estimator, target);
    if ok {
      assert Written(folds[f].val, plan[f], target[..]);
      HoldsGrows(folds, plan, f, before, target[..]);
    }
  }

  /** The branch loop of fold `f`; false where aggregation raises. */
  method RunBranches(l: Learner, split: Split, folds: seq<Fold>, ghost plans: seq<seq<Option<seq<real>>>>, f: nat,
                     branches: Branches, ghost n: nat, tables: seq<array<real>>) returns (ok: bool)
    requires Regular(l) && |split.xVal| == |split.valRowSamples| && Partition(folds, n) && f < |folds|
    requires |tables| == |branches| == |plans| && Separate(tables)
    requires forall b :: 0 <= b < |tables| ==> tables[b].Length == n && Holds(folds, plans[b], f, tables[b][..])
    requires forall b :: 0 <= b < |tables| ==>
               |plans[b]| == |folds| && plans[b][f] == SplitPredictions(l, split, folds[f].val, branches[b])
    modifies tables
    ensures ok ==> forall b :: 0 <= b < |tables| ==> Holds(folds, plans[b], f + 1, tables[b][..])
    ensures !ok ==> exists b :: 0 <= b < |tables| && |plans[b]| == |folds| && plans[b][f].None?
  {
    hide Holds, Partition, SplitPredictions;
    for b := 0 to |branches|
      invariant forall c :: 0 <= c < b ==> Holds(folds, plans[c], f + 1, tables[c][..])
      invariant forall c :: b <= c < |tables| ==> Holds(folds, plans[c], f, tables[c][..])
    {
      ok := ExtendBranch(l, split, folds, plans[b], f, branches[b], tables[b]);
      if !ok {
        return;
      }
    }
    return true;
  }

  /** The matrices of one fold, selected row by row. */
  method MakeSplit(l: Learner, d: Study, y: seq<real>, fold: Fold, seed: int) returns (split: Split)
    requires WellShaped(d, y)
    ensures split == SplitOf(l, d, y, fold, seed)
  {
    var trainRows := SelectRows(d.rowSample, ToSet(fold.train));
    var valRows := SelectRows(d.rowSample, ToSet(fold.val));
    var fit := Augmented(l, Observed(d.x, trainRows), TargetsOf(d.rowSample, y, trainRows), seed);
    split := Split(fit.0, fit.1, Observed(d.x, valRows), SamplesOf(d.rowSample, valRows));
  }

  ghost function Plans(l: Learner, d: Study, y: seq<real>, folds: seq<Fold>, seed: int, branches: Branches)
      : (r: seq<seq<Option<seq<real>>>>)
    requires WellShaped(d, y)
    ensures |r| == |branches|
    ensures forall b :: 0 <= b < |r| ==> r[b] == Planned(l, d, y, folds, seed, branches[b]) && |r[b]| == |folds|
  {
    seq(|branches|, b requires 0 <= b < |branches| => Planned(l, d, y, folds, seed, branches[b]))
  }

  /** One array of zeros per branch. */
  method ZeroTables(count: nat, n: nat) returns (tables: seq<array<real>>)
    ensures |tables| == count && Separate(tables)
    ensures forall b :: 0 <= b < count ==> fresh(tables[b]) && tables[b].Length == n
    ensures forall b, s :: 0 <= b < count && 0 <= s < n ==> tables[b][s] == 0.0
  {
    tables := [];
    for b := 0 to count
      invariant |tables| == b && Separate(tables)
      invariant forall c :: 0 <= c < b ==> fresh(tables[c]) && tables[c].Length == n
      invariant forall c, s :: 0 <= c < b && 0 <= s < n ==> tables[c][s] == 0.0
    {
      var zeros := new real[n](_ => 0.0);
      tables := tables + [zeros];
    }
  }

  /** The fold loop of `run_demo`: every branch's array ends up holding its plan, or some sample has no observation. */
  method RunFolds(l: Learner, d: Study, y: seq<real>, folds: seq<Fold>, branches: Branches, seed: int)
      returns (tables: seq<array<real>>, ok: bool)
    requires Regular(l) && WellShaped(d, y) && Partition(folds, |y|)
    ensures |tables| == |branches|
    ensures ok ==> forall b :: 0 <= b < |tables| ==>
              && tables[b].Length == |y|
              && Holds(folds, Planned(l, d, y, folds, seed, branches[b]), |folds|, tables[b][..])
    ensures !ok ==> exists s :: 0 <= s < |y| && s !in d.rowSample
  {
    hide *;
    tables := ZeroTables(|branches|, |y|);
    ghost var plans := Plans(l, d, y, folds, seed, branches);
    forall b | 0 <= b < |tables| ensures Holds(folds, plans[b], 0, tables[b][..]) {
      ZerosHold(folds, plans[b], tables[b][..]);
    }
    for f := 0 to |folds|
      invariant forall b :: 0 <= b < |tables| ==> Holds(folds, plans[b], f, tables[b][..])
    {
      var split := MakeSplit(l, d, y, folds[f], seed + 1000 + f);
      forall b | 0 <= b < |tables|
        ensures |plans[b]| == |folds| && plans[b][f] == SplitPredictions(l, split, folds[f].val, branches[b])
      {
        PlanAt(l, d, y, folds, seed, branches, b, f);
      }
      ok := RunBranches(l, split, folds, plans, f, branches, |y|, tables);
      if !ok {
        ghost var b :| 0 <= b < |tables| && |plans[b]| == |folds| && plans[b][f].None?;
        PlanAt(l, d, y, folds, seed, branches, b, f);
        MissingObservation(l, d, y, folds, f, seed + 1000 + f, branches[b]);
        return;
      }
    }
    return tables, true;
  }

  lemma ZerosHold(folds: seq<Fold>, plan: seq<Option<seq<real>>>, content: seq<real>)
    requires |plan| == |folds| && forall s :: 0 <= s < |content| ==> content[s] == 0.0
    ensures Holds(folds, plan, 0, content)
  {
  }

  lemma PlanAt(l: Learner, d: Study, y: seq<real>, folds: seq<Fold>, seed: int, branches: Branches, b: nat, f: nat)
    requires WellShaped(d, y) && f < |folds| && b < |branches|
    ensures var plan := Plans(l, d, y, folds, seed, branches)[b];
            && |plan| == |folds| && plan[f] == FoldPredictions(l, d, y, folds[f], seed + 1000 + f, branches[b])
            && plan[f] == SplitPredictions(l, SplitOf(l, d, y, folds[f], seed + 1000 + f), folds[f].val, branches[b])
  {
  }

  lemma MissingObservation(l: Learner, d: Study, y: seq<real>, folds: seq<Fold>, f: nat, seed: int, estimator: int)
    requires Regular(l) && WellShaped(d, y) && Partition(folds, |y|) && f < |folds|
    requires FoldPredictions(l, d, y, folds[f], seed, estimator).None?
    ensures exists s :: 0 <= s < |y| && s !in d.rowSample
  {
    FoldRaisesExactly(l, d, y, folds[f], seed, estimator);
    var s :| s in folds[f].val && s !in d.rowSample;
    assert s < |y|;
  }

  /** Every position of a finished array holds what its own fold, seed and estimator give. */
  lemma OofAt(l: Learner, d: Study, y: seq<real>, folds: seq<Fold>, f: nat, s: nat, seed: int, estimator: int,
              oof: seq<real>)
    requires Regular(l) && WellShaped(d, y) && f < |folds| && s in folds[f].val
    requires Holds(folds, Planned(l, d, y, folds, seed, estimator), |folds|, oof)
    ensures s < |oof| && IsFoldValue(l, d, y, folds[f], seed + 1000 + f, estimator, s, oof[s])
  {
    hide IsFoldValue, FoldPredictions, WellShaped, Regular;
    var plan := Planned(l, d, y, folds, seed, estimator);
    assert Written(folds[f].val, plan[f], oof);
    var j :| 0 <= j < |folds[f].val| && folds[f].val[j] == s;
    FoldValues(l, d, y, folds[f], seed + 1000 + f, estimator, j);
  }

  // ---- What the finished arrays say -----------------------------------------------------------

  /** Every position was written in exactly one fold, so the plan determines the whole array. */
  lemma HoldsDetermined(folds: seq<Fold>, plan: seq<Option<seq<real>>>, content: seq<real>, other: seq<real>)
    requires Partition(folds, |content|) && |other| == |content|
    requires Holds(folds, plan, |folds|, content) && Holds(folds, plan, |folds|, other)
    ensures content == other
  {
    forall s: nat | s < |content| ensures content[s] == other[s] {
      assert Held(folds, s);
      var f :| 0 <= f < |folds| && s in folds[f].val;
      SamePlanSameValue(folds, plan, plan, f, s, content, other);
    }
  }

  /** The loop finishes only if every sample has an observation: together with RunFolds, exactly then. */
  lemma FinishedMeansObserved(l: Learner, d: Study, y: seq<real>, folds: seq<Fold>, seed: int, estimator: int,
                              content: seq<real>, s: nat)
    requires Regular(l) && WellShaped(d, y) && Partition(folds, |y|) && s < |y|
    requires Holds(folds, Planned(l, d, y, folds, seed, estimator), |folds|, content)
    ensures s in d.rowSample
  {
    hide FoldPredictions, WellShaped, Regular;
    assert Held(folds, s);
    var f :| 0 <= f < |folds| && s in folds[f].val;
    assert Written(folds[f].val, Planned(l, d, y, folds, seed, estimator)[f], content);
    FoldRaisesExactly(l, d, y, folds[f], seed + 1000 + f, estimator);
  }

  lemma SamePlanSameValue(folds: seq<Fold>, plan1: seq<Option<seq<real>>>, plan2: seq<Option<seq<real>>>, f: nat,
                          s: nat, oof1: seq<real>, oof2: seq<real>)
    requires f < |folds| && s in folds[f].val
    requires Holds(folds, plan1, |folds|, oof1) && Holds(folds, plan2, |folds|, oof2) && plan1[f] == plan2[f]
    ensures s < |oof1| && s < |oof2| && oof1[s] == oof2[s]
  {
    assert Written(folds[f].val, plan1[f], oof1) && Written(folds[f].val, plan2[f], oof2);
    var j :| 0 <= j < |folds[f].val| && folds[f].val[j] == s;
  }

  /**
   * Two whole executions whose targets differ only on the samples of s's validation fold end
   * with the same out-of-fold value at s, for every branch.
   */
  lemma NoLeakage(l: Learner, d: Study, y1: seq<real>, y2: seq<real>, folds: seq<Fold>, f: nat, s: nat, seed: int,
                  estimator: int, oof1: seq<real>, oof2: seq<real>)
    requires Regular(l) && WellShaped(d, y1) && WellShaped(d, y2) && |y1| == |y2|
    requires Partition(folds, |y1|) && f < |folds| && s in folds[f].val
    requires forall t :: 0 <= t < |y1| && t !in folds[f].val ==> y1[t] == y2[t]
    requires Holds(folds, Planned(l, d, y1, folds, seed, estimator), |folds|, oof1)
    requires Holds(folds, Planned(l, d, y2, folds, seed, estimator), |folds|, oof2)
    ensures s < |oof1| && s < |oof2| && oof1[s] == oof2[s]
  {
    OofIgnoresOwnTargets(l, d, y1, y2, folds, f, seed + 1000 + f, estimator);
    SamePlanSameValue(folds, Planned(l, d, y1, folds, seed, estimator), Planned(l, d, y2, folds, seed, estimator),
                      f, s, oof1, oof2);
  }

  /** The same with targets that differ anywhere within the group of s. */
  lemma NoGroupLeakage(l: Learner, d: Study, y1: seq<real>, y2: seq<real>, folds: seq<Fold>, f: nat, s: nat, seed: int,
                       estimator: int, oof1: seq<real>, oof2: seq<real>)
    requires Regular(l) && WellShaped(d, y1) && WellShaped(d, y2) && |y1| == |y2|
    requires Partition(folds, |y1|) && GroupsWhole(folds, d.groups) && f < |folds| && s in folds[f].val
    requires forall t :: 0 <= t < |y1| && d.groups[t] != d.groups[s] ==> y1[t] == y2[t]
    requires Holds(folds, Planned(l, d, y1, folds, seed, estimator), |folds|, oof1)
    requires Holds(folds, Planned(l, d, y2, folds, seed, estimator), |folds|, oof2)
    ensures s < |oof1| && s < |oof2| && oof1[s] == oof2[s]
  {
    OofIgnoresGroup(l, d, y1, y2, folds, f, s, seed + 1000 + f, estimator);
    SamePlanSameValue(folds, Planned(l, d, y1, folds, seed, estimator), Planned(l, d, y2, folds, seed, estimator),
                      f, s, oof1, oof2);
  }
}
