/** What every run of host and adapter keeps, and exactly which files the adapter recovers. */
module HpoRuns {
  import opened Results
  import opened HpoTrials
  import opened HpoAdapter
  import opened HpoHost

  // ---- What the adapter's file keeps ---------------------------------------

  ghost predicate WellNumbered(table: seq<Trial>) {
    forall i :: 0 <= i < |table| ==> table[i].id == i
  }

  /** The prospective checkpoint is history, or it is one trial ahead and names that trial as the table does. */
  ghost predicate PreparedFits(d: Snapshot, committed: Checkpoint) {
    d.prepared.Some? ==>
      var p, n := d.prepared.value, |committed.trials|;
      && p.binding == committed.binding
      && (|| |p.trials| <= n
          || (&& ExtendsByOne(p, committed)
              && n < |d.table|
              && d.table[n].params == p.trials[n].params))
  }

  /** A trial cannot become what a terminal says: it is settled otherwise, or it runs and was to be pruned already. */
  predicate Contradicts(trial: Trial, t: Terminal, i: nat) {
    if trial.status == RUNNING then t.Pruned? else !Matches(trial, t, i)
  }

  /** The prospective checkpoint that recovery must finish contradicts the table. */
  predicate Contradicted(d: Snapshot, native: Checkpoint) {
    var n := |native.trials|;
    && ToFinish(d, native).Some?
    && n < |d.table|
    && Contradicts(d.table[n], ToFinish(d, native).value.trials[n], n)
  }

  ghost predicate OrphanAt(table: seq<Trial>, k: nat, o: Orphan) {
    k < |table| && o == Orphan(k, table[k].params) && table[k].status == FAILED
  }

  /** The recorded orphans are the failed trials that follow the accounted ones. */
  ghost predicate OrphansFit(table: seq<Trial>, orphans: seq<Orphan>, from: nat) {
    && (orphans == [] || from + |orphans| <= |table|)
    && forall j {:trigger orphans[j]} :: 0 <= j < |orphans| ==> OrphanAt(table, from + j, orphans[j])
  }

  /** An acknowledged checkpoint the host did not publish adds only interrupted trials to what recovery finishes. */
  ghost predicate AheadOfNative(d: Snapshot, committed: Checkpoint, native: Checkpoint) {
    var paired := PairedCount(d, native);
    && native.trials <= committed.trials
    && paired <= |committed.trials|
    && committed.trials[paired..] == FailedTrials(OrphansOf(committed.trials[paired..]))
  }

  ghost predicate FileFits(search: Search, d: Snapshot, native: Option<Checkpoint>) {
    && d.contract == search.contract
    && WellNumbered(d.table)
    && (d.committed.None? ==> d == Fresh(search.contract) && native.None?)
    && (d.committed.Some? ==>
          var committed := d.committed.value;
          && committed.binding == search.binding
          && Agrees(d.table, committed.trials)
          && PreparedFits(d, committed)
          && (native != d.committed && d.prepared.Some? ==> |d.prepared.value.trials| <= |committed.trials|)
          && (native.Some? ==>
                && native.value.binding == search.binding
                && (native == d.committed || |native.value.trials| < |committed.trials|)
                && (native == d.committed ==> OrphansFit(d.table, d.orphans, PairedCount(d, native.value)))
                && (native != d.committed && native == d.previous ==> AheadOfNative(d, committed, native.value))))
  }

  /** The two files a restart finds cannot be reconciled any more. */
  predicate Stranded(d: Snapshot, native: Option<Checkpoint>) {
    if native.None? then d.committed.Some?
    else
      || (native != d.committed && native != d.previous)
      || Contradicted(d, native.value)
      || exists k :: Unaccounted(d, native.value) <= k < |d.table| && d.table[k].status != RUNNING
  }

  // ---- One restart ----------------------------------------------------------

  /** Which prospective checkpoint recovery finds, and that both histories agree with the table before it. */
  lemma PreparedShape(search: Search, d: Snapshot, native: Checkpoint)
    requires FileFits(search, d, Some(native)) && d.committed.Some?
    requires Some(native) == d.committed || Some(native) == d.previous
    requires ToFinish(d, native).Some?
    ensures var p, n := ToFinish(d, native).value, |native.trials|;
            && ExtendsByOne(p, native)
            && n < |d.table| && d.table[n].params == p.trials[n].params
            && Agrees(d.table, native.trials)
            && (Some(native) != d.committed ==> p.trials <= d.committed.value.trials && !Contradicted(d, native))
  {
    var p, n := ToFinish(d, native).value, |native.trials|;
    var committed := d.committed.value;
    if Some(native) != d.committed {
      assert Matches(d.table[n], committed.trials[n], n);
      assert p.trials[n] == committed.trials[n];
      assert forall i :: 0 <= i < n ==> native.trials[i] == committed.trials[i] == p.trials[i];
    }
    forall i | 0 <= i < n ensures Matches(d.table[i], native.trials[i], i) {
      assert Matches(d.table[i], committed.trials[i], i);
    }
  }

  /** `_finish_prepared` on a table that agrees with everything before the prospective trial. */
  lemma FinishedExactly(table: seq<Trial>, p: Checkpoint, n: nat)
    requires |p.trials| == n + 1 && p.trials[n].index == n
    requires n < |table| && table[n].id == n && table[n].params == p.trials[n].params
    requires Agrees(table, p.trials[..n])
    ensures Finished(table, p).Ok? <==> !Contradicts(table[n], p.trials[n], n)
    ensures Finished(table, p).Ok? ==>
              && |Finished(table, p).value| == |table|
              && Agrees(Finished(table, p).value, p.trials)
              && Finished(table, p).value[n].id == n
              && Finished(table, p).value[n].params == table[n].params
              && forall k :: 0 <= k < |table| && k != n ==> Finished(table, p).value[k] == table[k]
  {
    var t := p.trials[n];
    var after := if table[n].status != RUNNING then table
                 else if t.Complete? then table[n := table[n].(status := COMPLETED, score := Some(t.score))]
                 else table[n := table[n].(status := FAILED, score := None)];
    forall i | 0 <= i < n ensures Matches(after[i], p.trials[i], i) {
      assert Matches(table[i], p.trials[..n][i], i);
    }
    assert Agrees(after, p.trials) <==> Matches(after[n], t, n);
  }

  /** Finishing the prospective trial succeeds exactly if it does not contradict the table. */
  lemma FinishesPrepared(search: Search, d: Snapshot, native: Checkpoint)
    requires FileFits(search, d, Some(native)) && d.committed.Some?
    requires Some(native) == d.committed || Some(native) == d.previous
    requires ToFinish(d, native).Some?
    ensures ExtendsByOne(ToFinish(d, native).value, native)
    ensures var finished := Finished(d.table, ToFinish(d, native).value);
            && (finished.Ok? <==> !Contradicted(d, native))
            && (finished.Ok? ==>
                  && |finished.value| == |d.table|
                  && Agrees(finished.value, ToFinish(d, native).value.trials)
                  && Agrees(finished.value, d.committed.value.trials)
                  && WellNumbered(finished.value)
                  && forall k :: 0 <= k < |d.table| && k != |native.trials| ==> finished.value[k] == d.table[k])
  {
    PreparedShape(search, d, native);
    var p, n := ToFinish(d, native).value, |native.trials|;
    assert p.trials[..n] == native.trials;
    FinishedExactly(d.table, p, n);
    if Finished(d.table, p).Ok? {
      FinishedKeepsCommitted(search, d, native, Finished(d.table, p).value);
    }
  }

  lemma FinishedKeepsCommitted(search: Search, d: Snapshot, native: Checkpoint, table: seq<Trial>)
    requires FileFits(search, d, Some(native)) && d.committed.Some? && ToFinish(d, native).Some?
    requires || Some(native) == d.committed
             || (Some(native) == d.previous && ToFinish(d, native).value.trials <= d.committed.value.trials)
    requires Agrees(table, ToFinish(d, native).value.trials) && |table| == |d.table|
    requires forall k :: 0 <= k < |d.table| && k != |native.trials| ==> table[k] == d.table[k]
    ensures Agrees(table, d.committed.value.trials)
  {
    var committed, p := d.committed.value, ToFinish(d, native).value;
    forall i | 0 <= i < |committed.trials| ensures Matches(table[i], committed.trials[i], i) {
      assert Matches(d.table[i], committed.trials[i], i);
      if i == |native.trials| {
        assert Matches(table[i], p.trials[i], i) && p.trials[i] == committed.trials[i];
      }
    }
  }

  /** What reconciling the two files leaves in the table. */
  lemma Reconciles(search: Search, d: Snapshot, native: Checkpoint)
    requires FileFits(search, d, Some(native)) && d.committed.Some?
    requires Some(native) == d.committed || Some(native) == d.previous
    ensures ToFinish(d, native).Some? ==> ExtendsByOne(ToFinish(d, native).value, native)
    ensures var r := Reconciled(d, native);
            && (r.Ok? <==> !Contradicted(d, native))
            && (r.Ok? ==>
                  && |r.value| == |d.table|
                  && WellNumbered(r.value)
                  && Agrees(r.value, d.committed.value.trials)
                  && Agrees(r.value,
                            if ToFinish(d, native).Some? then ToFinish(d, native).value.trials else native.trials)
                  && forall k :: PairedCount(d, native) <= k < |d.table| ==> r.value[k] == d.table[k])
  {
    var committed := d.committed.value;
    assert native.trials <= committed.trials;
    assert Agrees(d.table, native.trials) by {
      forall i | 0 <= i < |native.trials| ensures Matches(d.table[i], native.trials[i], i) {
        assert Matches(d.table[i], committed.trials[i], i);
      }
    }
    if Some(native) != d.committed {
      var tail := committed.trials[PairedCount(d, native)..];
      forall t | t in tail ensures IsInterrupted(t) {
        var i :| 0 <= i < |tail| && tail[i] == t;
        assert FailedTrials(OrphansOf(tail))[i] == t;
      }
    }
    assert Unpairable(d, native).None?;
    if ToFinish(d, native).Some? {
      FinishesPrepared(search, d, native);
    }
  }

  /** The interrupted trials the files tell of are the failed trials right after the accounted ones. */
  lemma KnownInterruptedFit(search: Search, d: Snapshot, native: Checkpoint)
    requires FileFits(search, d, Some(native)) && d.committed.Some?
    requires Some(native) == d.committed || Some(native) == d.previous
    ensures OrphansFit(d.table, KnownInterrupted(d, native), PairedCount(d, native))
    ensures Some(native) != d.committed ==> Unaccounted(d, native) == |d.committed.value.trials|
  {
    if Some(native) != d.committed {
      var committed, paired := d.committed.value, PairedCount(d, native);
      var tail := committed.trials[paired..];
      forall j | 0 <= j < |tail|
        ensures OrphanAt(d.table, paired + j, OrphansOf(tail)[j])
      {
        assert Matches(d.table[paired + j], committed.trials[paired + j], paired + j);
        assert FailedTrials(OrphansOf(tail))[j] == tail[j];
      }
    }
  }

  /** Main step: a restart succeeds exactly when the two files are not stranded. */
  lemma RestartExactly(search: Search, d: Snapshot, native: Option<Checkpoint>)
    requires FileFits(search, d, native)
    ensures Opened(Some(d), search.contract, native).Err? <==> Stranded(d, native)
  {
    if native.Some? && d.committed.Some? && (native == d.committed || native == d.previous) {
      var n := native.value;
      Reconciles(search, d, n);
      if !Contradicted(d, n) {
        var table := Reconciled(d, n).value;
        assert forall k :: Unaccounted(d, n) <= k < |d.table| ==> table[k] == d.table[k];
      }
    }
  }

  /** The trials of the checkpoint the host resumes from. */
  function ResumedTrials(native: Checkpoint, recovery: Recovery): seq<Terminal> {
    (if recovery.prepared.Some? then recovery.prepared.value.trials else native.trials)
    + FailedTrials(recovery.interrupted)
  }

  /** What a successful recovery leaves of the file it found, before anything is known about that file. */
  lemma RecoveredShape(d: Snapshot, native: Checkpoint, recovery: Recovery)
    requires Recovered(d, Some(native)) == Ok(recovery)
    ensures d.committed.Some? && (Some(native) == d.committed || Some(native) == d.previous)
    ensures recovery.memory == d.(orphans := recovery.interrupted, table := recovery.memory.table)
    ensures recovery.prepared == ToFinish(d, native) == ToFinish(recovery.memory, native)
    ensures PairedCount(recovery.memory, native) == PairedCount(d, native)
    ensures Reconciled(d, native).Ok? && StillRunning(Reconciled(d, native).value, Unaccounted(d, native))
    ensures recovery.memory.table == FailedFrom(Reconciled(d, native).value, Unaccounted(d, native))
    ensures recovery.interrupted
         == KnownInterrupted(d, native) + OrphansFrom(Reconciled(d, native).value, Unaccounted(d, native))
  {
  }

  lemma FailedWellNumbered(table: seq<Trial>, from: nat)
    requires WellNumbered(table)
    ensures WellNumbered(FailedFrom(table, from))
  {
  }

  lemma OrphansStay(before: seq<Trial>, after: seq<Trial>, known: seq<Orphan>, paired: nat)
    requires OrphansFit(before, known, paired) && |after| == |before|
    requires forall k :: paired <= k < paired + |known| ==> after[k] == before[k]
    ensures OrphansFit(after, known, paired)
  {
    forall j | 0 <= j < |known|
      ensures OrphanAt(after, paired + j, known[j])
    {
      var k := paired + j;
      assert OrphanAt(before, k, known[j]);
      assert after[k] == before[k];
    }
  }

  lemma EarlierKept(table: seq<Trial>, from: nat)
    requires from <= |table|
    ensures forall k :: 0 <= k < from ==> FailedFrom(table, from)[k] == table[k]
  {
  }

  lemma OrphansMade(table: seq<Trial>, from: nat)
    requires from <= |table|
    ensures OrphansFit(FailedFrom(table, from), OrphansFrom(table, from), from)
  {
    var after, rest := FailedFrom(table, from), OrphansFrom(table, from);
    forall j | 0 <= j < |rest|
      ensures OrphanAt(after, from + j, rest[j])
    {
      var k := from + j;
      assert after[k] == table[k].(status := FAILED, score := None);
    }
  }

  /** Failing the rest of the table extends the known interrupted trials contiguously. */
  lemma OrphansExtend(before: seq<Trial>, table: seq<Trial>, known: seq<Orphan>, paired: nat)
    requires |before| == |table| && paired <= |table|
    requires OrphansFit(before, known, paired) && forall k :: paired <= k < |table| ==> table[k] == before[k]
    ensures var from := paired + |known|;
            && from <= |table| && |OrphansFrom(table, from)| == |table| - from
            && OrphansFit(FailedFrom(table, from), known + OrphansFrom(table, from), paired)
  {
    assert known == [] || paired + |known| <= |table|;
    hide OrphansFit, FailedFrom, OrphansFrom;
    var from := paired + |known|;
    EarlierKept(table, from);
    OrphansStay(before, FailedFrom(table, from), known, paired);
    OrphansMade(table, from);
    OrphansJoin(FailedFrom(table, from), known, OrphansFrom(table, from), paired);
  }

  lemma OrphansJoin(table: seq<Trial>, known: seq<Orphan>, rest: seq<Orphan>, paired: nat)
    requires paired + |known| + |rest| <= |table|
    requires OrphansFit(table, known, paired) && OrphansFit(table, rest, paired + |known|)
    ensures OrphansFit(table, known + rest, paired)
  {
    var all := known + rest;
    forall j | 0 <= j < |all|
      ensures OrphanAt(table, paired + j, all[j])
    {
      if j < |known| {
        assert OrphanAt(table, paired + j, known[j]);
      } else {
        assert OrphanAt(table, (paired + |known|) + (j - |known|), rest[j - |known|]);
      }
    }
  }

  /** The interrupted list of a successful recovery: the rest of the table, failed, in order. */
  lemma InterruptedShape(search: Search, d: Snapshot, native: Checkpoint, recovery: Recovery)
    requires FileFits(search, d, Some(native)) && d.committed.Some?
    requires Recovered(d, Some(native)) == Ok(recovery)
    ensures |recovery.memory.table| == |d.table| == PairedCount(d, native) + |recovery.interrupted|
    ensures WellNumbered(recovery.memory.table)
    ensures OrphansFit(recovery.memory.table, recovery.interrupted, PairedCount(d, native))
    ensures forall k :: 0 <= k < PairedCount(d, native) ==> recovery.memory.table[k] == Reconciled(d, native).value[k]
  {
    hide FileFits, Recovered, Reconciled, KnownInterrupted, WellNumbered, OrphansFit, ToFinish, OrphansFrom,
         StillRunning;
    RecoveredShape(d, native, recovery);
    Reconciles(search, d, native);
    KnownInterruptedFit(search, d, native);
    FailedWellNumbered(Reconciled(d, native).value, Unaccounted(d, native));
    OrphansExtend(d.table, Reconciled(d, native).value, KnownInterrupted(d, native), PairedCount(d, native));
  }

  lemma InterruptedAgree(table: seq<Trial>, base: seq<Terminal>, interrupted: seq<Orphan>)
    requires WellNumbered(table) && |table| == |base| + |interrupted|
    requires Agrees(table, base) && OrphansFit(table, interrupted, |base|)
    ensures Agrees(table, base + FailedTrials(interrupted))
  {
    var all := base + FailedTrials(interrupted);
    forall i | |base| <= i < |all| ensures Matches(table[i], all[i], i) {
      var j := i - |base|;
      assert OrphanAt(table, |base| + j, interrupted[j]);
      assert all[i] == FailedTrials(interrupted)[j];
    }
  }

  lemma AgreesPrefix(before: seq<Trial>, after: seq<Trial>, trials: seq<Terminal>)
    requires Agrees(before, trials) && |after| >= |trials|
    requires forall k :: 0 <= k < |trials| ==> after[k] == before[k]
    ensures Agrees(after, trials)
  {
    forall i | 0 <= i < |trials| ensures Matches(after[i], trials[i], i) {
      assert Matches(before[i], trials[i], i);
    }
  }

  lemma ResumedAgrees(search: Search, d: Snapshot, native: Checkpoint, recovery: Recovery)
    requires FileFits(search, d, Some(native)) && d.committed.Some?
    requires Recovered(d, Some(native)) == Ok(recovery)
    ensures |ResumedTrials(native, recovery)| == |recovery.memory.table|
    ensures Agrees(recovery.memory.table, ResumedTrials(native, recovery))
  {
    hide FileFits, Recovered, Reconciled, KnownInterrupted, OrphansFrom, FailedFrom, StillRunning, Unaccounted,
         OrphansFit, Agrees, WellNumbered, FailedTrials;
    RecoveredShape(d, native, recovery);
    Reconciles(search, d, native);
    InterruptedShape(search, d, native, recovery);
    var base := if recovery.prepared.Some? then recovery.prepared.value.trials else native.trials;
    AgreesPrefix(Reconciled(d, native).value, recovery.memory.table, base);
    InterruptedAgree(recovery.memory.table, base, recovery.interrupted);
  }

  /**
   * Recovery conserves trials: nothing is left RUNNING, and the whole table is the native
   * history, at most one prepared trial, and the contiguous interrupted ones. The host
   * adopts the answer unless a parameter of an interrupted trial has a blank name.
   */
  lemma RecoveryConserves(search: Search, d: Snapshot, native: Checkpoint, recovery: Recovery)
    requires FileFits(search, d, Some(native)) && d.committed.Some?
    requires Recovered(d, Some(native)) == Ok(recovery)
    ensures |recovery.memory.table| == PairedCount(d, native) + |recovery.interrupted|
    ensures forall k :: 0 <= k < |recovery.memory.table| ==> recovery.memory.table[k].status != RUNNING
    ensures recovery.prepared.Some? ==> ExtendsByOne(recovery.prepared.value, native)
    ensures Contiguous(recovery.interrupted, PairedCount(d, native))
    ensures Agrees(recovery.memory.table, ResumedTrials(native, recovery))
    ensures |ResumedTrials(native, recovery)| == |recovery.memory.table|
    ensures RecoverInterrupted(native, recovery.prepared, recovery.interrupted)
         == if exists o <- recovery.interrupted :: !Named(o.params) then Err(InterruptedNotContiguous)
            else Ok(Checkpoint(search.binding, ResumedTrials(native, recovery)))
    ensures d.committed.value.trials <= ResumedTrials(native, recovery)
  {
    RestartExactly(search, d, Some(native));
    Reconciles(search, d, native);
    InterruptedShape(search, d, native, recovery);
    ResumedAgrees(search, d, native, recovery);
    CommittedSurvives(search, d, native, recovery);
    var after, resumed := recovery.memory.table, ResumedTrials(native, recovery);
    forall k | 0 <= k < |after| ensures after[k].status != RUNNING {
      assert Matches(after[k], resumed[k], k);
    }
  }

  /** What was acknowledged before the crash is a prefix of what the host resumes from. */
  lemma CommittedSurvives(search: Search, d: Snapshot, native: Checkpoint, recovery: Recovery)
    requires FileFits(search, d, Some(native)) && d.committed.Some?
    requires Recovered(d, Some(native)) == Ok(recovery)
    ensures d.committed.value.trials <= ResumedTrials(native, recovery)
  {
    hide Recovered, Reconciled, FailedFrom, OrphansFrom, StillRunning, Agrees, OrphansFit;
    RecoveredShape(d, native, recovery);
    Reconciles(search, d, native);
    KnownInterruptedFit(search, d, native);
    var committed, paired := d.committed.value, PairedCount(d, native);
    var resumed := ResumedTrials(native, recovery);
    var base := if recovery.prepared.Some? then recovery.prepared.value.trials else native.trials;
    if Some(native) != d.committed {
      var tail := committed.trials[paired..];
      forall i | 0 <= i < |committed.trials| ensures resumed[i] == committed.trials[i] {
        if i < paired {
          assert base <= committed.trials;
        } else {
          assert recovery.interrupted[i - paired] == OrphansOf(tail)[i - paired];
          assert FailedTrials(OrphansOf(tail))[i - paired] == tail[i - paired];
        }
      }
    }
  }

  // ---- The invariant of every run -------------------------------------------

  /** The candidates the host waits for are exactly the table's unfinished end. */
  ghost predicate CandidatesFit(table: seq<Trial>, from: nat, pending: seq<Candidate>) {
    && |table| == from + |pending|
    && forall j {:trigger pending[j]} :: 0 <= j < |pending| ==>
         && table[from + j].params == pending[j].params
         && table[from + j].status == (if pending[j].pruned then PRUNED else RUNNING)
  }

  ghost predicate NothingAhead(m: Snapshot, n: nat) {
    m.orphans == [] && (m.prepared.Some? ==> |m.prepared.value.trials| <= n)
  }

  /** The file may lag behind the memory by pruning decisions only. */
  ghost predicate LagsByPruning(d: Snapshot, m: Snapshot) {
    && d == m.(table := d.table)
    && |d.table| == |m.table|
    && forall i :: 0 <= i < |d.table| ==>
         d.table[i] == m.table[i] || (d.table[i].status == RUNNING && m.table[i].status == PRUNED)
  }

  ghost predicate ResumingFits(search: Search, m: Snapshot, native: Option<Checkpoint>, resume: Checkpoint) {
    && resume.binding == search.binding
    && |resume.trials| == |m.table|
    && Agrees(m.table, resume.trials)
    && if native.None? then m == Fresh(search.contract)
       else
         var n := native.value;
         var paired := PairedCount(m, n);
         && m.committed.Some?
         && (native == m.committed || native == m.previous)
         && n.trials <= resume.trials
         && m.committed.value.trials <= resume.trials
         && (ToFinish(m, n).Some? ==> ToFinish(m, n).value.trials <= resume.trials)
         && (m.prepared.Some? ==> |m.prepared.value.trials| <= |resume.trials|)
         && paired <= |resume.trials|
         && resume.trials[paired..] == FailedTrials(OrphansOf(resume.trials[paired..]))
         && (native == m.committed ==> Unaccounted(m, n) == |m.table|)
  }

  ghost predicate PreparedHolds(m: Snapshot, next: Checkpoint) {
    && m.committed.Some?
    && ExtendsByOne(next, m.committed.value)
    && m.prepared == Some(next)
    && m.orphans == []
  }

  ghost predicate Inv(search: Search, s: System) {
    && (s.disk.None? ==> s == INITIAL)
    && (s.memory.Some? <==> !s.host.Down?)
    && (s.disk.Some? ==> FileFits(search, s.disk.value, s.native))
    && (s.memory.Some? ==>
          var m, d := s.memory.value, s.disk.value;
          && FileFits(search, m, s.native)
          && match s.host
             case Resuming(resume) => m == d && ResumingFits(search, m, s.native, resume)
             case Searching(current, pending) =>
               && LagsByPruning(d, m)
               && m.committed == s.native == Some(current)
               && NothingAhead(m, |current.trials|)
               && CandidatesFit(m.table, |current.trials|, pending)
             case Prepared(next, pending) =>
               && m == d
               && m.committed == s.native
               && PreparedHolds(m, next)
               && pending != []
               && CandidatesFit(m.table, |next.trials| - 1, pending)
               && pending[0].params == next.trials[|next.trials| - 1].params
             case Transitioned(next, pending) =>
               && m == d
               && m.committed == s.native
               && PreparedHolds(m, next)
               && Agrees(m.table, next.trials)
               && CandidatesFit(m.table, |next.trials|, pending)
             case Unpublished(next, pending) =>
               && m == d
               && m.committed == Some(next)
               && NothingAhead(m, |next.trials|)
               && CandidatesFit(m.table, |next.trials|, pending)
             case Down => true)
  }

  // ---- Each step keeps it, and no event of a live host is refused -------------

  lemma StartKeeps(search: Search, s: System)
    requires Inv(search, s) && s.host.Down?
    ensures Inv(search, Apply(search, s, Start))
    ensures Opened(s.disk, search.contract, s.native).Ok? && s.native.None? ==> Apply(search, s, Start).host.Resuming?
    ensures Opened(s.disk, search.contract, s.native).Ok? && s.native.Some? ==>
              var resumed := ResumedTrials(s.native.value, Recovered(s.disk.value, s.native).value);
              (Apply(search, s, Start).host.Resuming? <==> AllAdmitted(search, resumed))
  {
    if s.disk.Some? && Opened(s.disk, search.contract, s.native).Ok? {
      var d := s.disk.value;
      var recovery := Recovered(d, s.native).value;
      if s.native.Some? {
        RestartExactly(search, d, s.native);
        StartFromPair(search, d, s.native.value, recovery);
      }
    }
  }

  lemma StartFromPair(search: Search, d: Snapshot, native: Checkpoint, recovery: Recovery)
    requires FileFits(search, d, Some(native)) && d.committed.Some?
    requires Recovered(d, Some(native)) == Ok(recovery)
    ensures FileFits(search, recovery.memory, Some(native))
    ensures ResumingFits(search, recovery.memory, Some(native),
                         Checkpoint(search.binding, ResumedTrials(native, recovery)))
    ensures var resumed := ResumedTrials(native, recovery);
            if AllAdmitted(search, resumed)
            then Resumption(search, Some(native), recovery) == Ok(Checkpoint(search.binding, resumed))
            else Resumption(search, Some(native), recovery).Err?
  {
    hide Recovered, Reconciled, ResumedTrials, FileFits, ResumingFits, Agrees, OrphansFit;
    RecoveredShape(d, native, recovery);
    InterruptedShape(search, d, native, recovery);
    RecoveryConserves(search, d, native, recovery);
    RecoveredFileFits(search, d, native, recovery);
    ResumptionFits(search, d, native, recovery);
    if AllAdmitted(search, ResumedTrials(native, recovery)) {
      InterruptedNamed(search, native, recovery);
    }
  }

  /** Trials admitted to a checkpoint have named parameters, and the interrupted ones are among them. */
  lemma InterruptedNamed(search: Search, native: Checkpoint, recovery: Recovery)
    requires AllAdmitted(search, ResumedTrials(native, recovery))
    ensures forall o <- recovery.interrupted :: Named(o.params)
  {
    var failed := FailedTrials(recovery.interrupted);
    forall o | o in recovery.interrupted ensures Named(o.params) {
      var j :| 0 <= j < |recovery.interrupted| && recovery.interrupted[j] == o;
      assert failed[j] in failed && failed[j] in ResumedTrials(native, recovery);
      assert Admitted(search, failed[j]);
    }
  }

  lemma RecoveredFileFits(search: Search, d: Snapshot, native: Checkpoint, recovery: Recovery)
    requires FileFits(search, d, Some(native)) && d.committed.Some?
    requires Recovered(d, Some(native)) == Ok(recovery)
    ensures FileFits(search, recovery.memory, Some(native))
  {
    hide Recovered, Reconciled;
    RecoveredShape(d, native, recovery);
    InterruptedShape(search, d, native, recovery);
    RecoveryConserves(search, d, native, recovery);
    var m, committed, resumed := recovery.memory, d.committed.value, ResumedTrials(native, recovery);
    forall i | 0 <= i < |committed.trials| ensures Matches(m.table[i], committed.trials[i], i) {
      assert Matches(m.table[i], resumed[i], i) && committed.trials[i] == resumed[i];
    }
    PreparedStillFits(search, d, native, recovery);
  }

  lemma ResumptionFits(search: Search, d: Snapshot, native: Checkpoint, recovery: Recovery)
    requires FileFits(search, d, Some(native)) && d.committed.Some?
    requires Recovered(d, Some(native)) == Ok(recovery)
    ensures ResumingFits(search, recovery.memory, Some(native),
                         Checkpoint(search.binding, ResumedTrials(native, recovery)))
  {
    hide Recovered, Reconciled;
    RecoveredShape(d, native, recovery);
    InterruptedShape(search, d, native, recovery);
    RecoveryConserves(search, d, native, recovery);
    PreparedStillFits(search, d, native, recovery);
    var resumed, paired := ResumedTrials(native, recovery), PairedCount(d, native);
    assert resumed[paired..] == FailedTrials(recovery.interrupted);
    assert OrphansOf(FailedTrials(recovery.interrupted)) == recovery.interrupted;
  }

  lemma PreparedStillFits(search: Search, d: Snapshot, native: Checkpoint, recovery: Recovery)
    requires FileFits(search, d, Some(native)) && d.committed.Some?
    requires Recovered(d, Some(native)) == Ok(recovery)
    requires Agrees(recovery.memory.table, ResumedTrials(native, recovery))
    requires |ResumedTrials(native, recovery)| == |recovery.memory.table| == |d.table|
    requires WellNumbered(recovery.memory.table)
    requires d.committed.value.trials <= ResumedTrials(native, recovery)
    ensures PreparedFits(recovery.memory, d.committed.value)
    ensures d.prepared.Some? ==> |d.prepared.value.trials| <= |recovery.memory.table|
  {
    var m, n := recovery.memory, |d.committed.value.trials|;
    if d.prepared.Some? && |d.prepared.value.trials| == n + 1 {
      Reconciles(search, d, native);
      RestartExactly(search, d, Some(native));
      assert ToFinish(d, native) == d.prepared;
      assert Matches(m.table[n], ResumedTrials(native, recovery)[n], n);
    }
  }

  lemma AskKeeps(search: Search, s: System, proposal: Params)
    requires Inv(search, s) && Enabled(s, AskNext(proposal))
    ensures Inv(search, Apply(search, s, AskNext(proposal)))
    ensures Respond(s.memory.value, EventOf(s, AskNext(proposal))).reply == Reply.Params(proposal)
  {
    var m := s.memory.value;
    var t := m.table + [Trial(|m.table|, proposal, RUNNING, None)];
    AgreesExtends(m.table, t, s.host.current.trials);
  }

  lemma ReportEffect(search: Search, s: System, offset: nat, prune: bool)
    requires Inv(search, s) && Enabled(s, Report(offset, prune))
    ensures var m, k := s.memory.value, |s.host.current.trials| + offset;
            && k < |m.table|
            && (s.host.pending[offset].pruned <==> m.table[k].status != RUNNING)
            && Respond(m, EventOf(s, Report(offset, prune)))
               == if s.host.pending[offset].pruned then Handled(m, false, Error(OptimizerRefused))
                  else Handled(if prune then m.(table := Moved(m.table, k, PRUNED, None).value) else m,
                               false, Prune(prune))
  {
    hide FileFits;
    var m, k := s.memory.value, |s.host.current.trials| + offset;
    assert m.table[k].status == if s.host.pending[offset].pruned then PRUNED else RUNNING;
  }

  /** A pruning decision for a candidate beyond the committed history changes nothing recovery relies on. */
  lemma PrunedFits(search: Search, m: Snapshot, k: nat)
    requires FileFits(search, m, m.committed) && m.committed.Some?
    requires NothingAhead(m, |m.committed.value.trials|)
    requires |m.committed.value.trials| <= k < |m.table| && m.table[k].status == RUNNING
    ensures FileFits(search, m.(table := Moved(m.table, k, PRUNED, None).value), m.committed)
  {
    AgreesExtends(m.table, Moved(m.table, k, PRUNED, None).value, m.committed.value.trials);
  }

  lemma ReportKeeps(search: Search, s: System, offset: nat, prune: bool)
    requires Inv(search, s) && Enabled(s, Report(offset, prune))
    ensures Inv(search, Apply(search, s, Report(offset, prune)))
    ensures Respond(s.memory.value, EventOf(s, Report(offset, prune))).reply
         == if s.host.pending[offset].pruned then Error(OptimizerRefused) else Prune(prune)
  {
    ReportEffect(search, s, offset, prune);
    if prune && !s.host.pending[offset].pruned {
      PrunedFits(search, s.memory.value, |s.host.current.trials| + offset);
    }
    hide FileFits;
  }

  lemma PrepareKeeps(search: Search, s: System, t: Terminal)
    requires Inv(search, s) && Enabled(s, Prepare(t))
    ensures Inv(search, Apply(search, s, Prepare(t)))
    ensures Respond(s.memory.value, EventOf(s, Prepare(t))).reply == Acknowledged
  {
    var m, n := s.memory.value, |s.host.current.trials|;
    assert m.table[n].id == n;
    assert m.table[n + 0].status == (if s.host.pending[0].pruned then PRUNED else RUNNING);
  }

  /** The host's terminal contradicts what the adapter has already made of the trial. */
  predicate Mispaired(s: System) {
    && s.host.Prepared? && s.host.next.trials != [] && s.host.pending != []
    && s.host.next.trials[|s.host.next.trials| - 1].Pruned? != s.host.pending[0].pruned
  }

  lemma NextTrial(search: Search, s: System)
    requires Inv(search, s) && Enabled(s, Transition)
    ensures var m, n := s.memory.value, |s.host.next.trials| - 1;
            && s.host.pending != [] && n < |m.table| && m.table[n].id == n
            && m.table[n].status == (if s.host.pending[0].pruned then PRUNED else RUNNING)
            && m.table[n].params == s.host.next.trials[n].params
            && s.host.next.trials[n].index == n
            && (Contradicts(m.table[n], s.host.next.trials[n], n) <==> Mispaired(s))
  {
    var m, n := s.memory.value, |s.host.next.trials| - 1;
    assert m.table[n].id == n;
    assert m.table[n + 0].status == (if s.host.pending[0].pruned then PRUNED else RUNNING);
  }

  /** The trial named in a tell, pruned or fail event takes the outcome that was prepared, or the event is refused. */
  lemma TransitionEffect(search: Search, s: System)
    requires Inv(search, s) && Enabled(s, Transition)
    ensures var h := Respond(s.memory.value, EventOf(s, Transition));
            var n := |s.host.next.trials| - 1;
            && (h.reply.Error? <==> Mispaired(s))
            && (!Mispaired(s) ==>
                  && h.reply == Acknowledged && h.saved
                  && h.memory == s.memory.value.(table := h.memory.table)
                  && |h.memory.table| == |s.memory.value.table|
                  && Matches(h.memory.table[n], s.host.next.trials[n], n)
                  && h.memory.table[n].params == s.memory.value.table[n].params
                  && forall i :: 0 <= i < |h.memory.table| && i != n ==> h.memory.table[i] == s.memory.value.table[i])
  {
    NextTrial(search, s);
    hide FileFits, Inv;
  }

  lemma FinishedFits(search: Search, m: Snapshot, next: Checkpoint, table: seq<Trial>)
    requires FileFits(search, m, m.committed) && PreparedHolds(m, next)
    requires |table| == |m.table| && |next.trials| <= |table|
    requires Matches(table[|next.trials| - 1], next.trials[|next.trials| - 1], |next.trials| - 1)
    requires forall i :: 0 <= i < |table| && i != |next.trials| - 1 ==> table[i] == m.table[i]
    requires table[|next.trials| - 1].params == m.table[|next.trials| - 1].params
    ensures Agrees(table, next.trials)
    ensures FileFits(search, m.(table := table), m.committed)
  {
    var committed := m.committed.value;
    forall i | 0 <= i < |next.trials| ensures Matches(table[i], next.trials[i], i) {
      if i < |next.trials| - 1 {
        assert Matches(m.table[i], committed.trials[i], i);
      }
    }
    forall i | 0 <= i < |committed.trials| ensures Matches(table[i], committed.trials[i], i) {
      assert Matches(table[i], next.trials[i], i);
    }
  }

  lemma FollowersFit(before: seq<Trial>, after: seq<Trial>, n: nat, pending: seq<Candidate>)
    requires pending != [] && CandidatesFit(before, n, pending)
    requires |after| == |before|
    requires forall i :: n < i < |after| ==> after[i] == before[i]
    ensures CandidatesFit(after, n + 1, pending[1..])
  {
    forall j | 0 <= j < |pending[1..]|
      ensures after[n + 1 + j].params == pending[1..][j].params
      ensures after[n + 1 + j].status == (if pending[1..][j].pruned then PRUNED else RUNNING)
    {
      assert before[n + (j + 1)].params == pending[j + 1].params;
    }
  }

  lemma TransitionKeeps(search: Search, s: System)
    requires Inv(search, s) && Enabled(s, Transition)
    ensures Inv(search, Apply(search, s, Transition))
    ensures Respond(s.memory.value, EventOf(s, Transition)).reply.Error? <==> Mispaired(s)
  {
    TransitionEffect(search, s);
    if Mispaired(s) {
      return;
    }
    var m, table := s.memory.value, Respond(s.memory.value, EventOf(s, Transition)).memory.table;
    FinishedFits(search, m, s.host.next, table);
    FollowersFit(m.table, table, |s.host.next.trials| - 1, s.host.pending);
    hide FileFits, Agrees;
  }

  /** Acknowledging a checkpoint that extends the committed one keeps the file fit for recovery. */
  lemma AcknowledgedFits(search: Search, m: Snapshot, native: Option<Checkpoint>, next: Checkpoint)
    requires FileFits(search, m, native) && next.binding == search.binding && Agrees(m.table, next.trials)
    requires var after := m.(previous := m.committed, committed := Some(next), orphans := []);
             && PreparedFits(after, next)
             && (m.prepared.Some? && native != Some(next) ==> |m.prepared.value.trials| <= |next.trials|)
             && (native.Some? && native != Some(next) ==>
                   && |native.value.trials| < |next.trials|
                   && (native == m.committed ==> AheadOfNative(after, next, native.value)))
    ensures FileFits(search, m.(previous := m.committed, committed := Some(next), orphans := []), native)
  {
  }

  lemma AcknowledgeEffect(search: Search, s: System)
    requires Inv(search, s) && Enabled(s, Acknowledge)
    ensures var m, next := s.memory.value, HostCheckpoint(s.host);
            Respond(m, EventOf(s, Acknowledge))
            == Handled(m.(previous := m.committed, committed := Some(next), orphans := []), true, Acknowledged)
  {
    var m, next := s.memory.value, HostCheckpoint(s.host);
    assert Agrees(m.table, next.trials);
  }

  lemma AcknowledgeFileFits(search: Search, s: System)
    requires Inv(search, s) && Enabled(s, Acknowledge)
    ensures var m, next := s.memory.value, HostCheckpoint(s.host);
            FileFits(search, m.(previous := m.committed, committed := Some(next), orphans := []), s.native)
  {
    var m, next := s.memory.value, HostCheckpoint(s.host);
    var after := m.(previous := m.committed, committed := Some(next), orphans := []);
    if s.native.Some? && s.native != Some(next) && s.native == m.committed {
      var native := s.native.value;
      assert native.trials <= next.trials;
      assert native.trials != next.trials;
      if s.host.Resuming? {
        assert ToFinish(after, native) == ToFinish(m, native);
      } else {
        assert ToFinish(after, native) == Some(next);
        assert next.trials[|next.trials|..] == [] == FailedTrials(OrphansOf([]));
      }
      assert AheadOfNative(after, next, native);
    }
    AcknowledgedFits(search, m, s.native, next);
  }

  lemma AcknowledgeKeeps(search: Search, s: System)
    requires Inv(search, s) && Enabled(s, Acknowledge)
    ensures Inv(search, Apply(search, s, Acknowledge))
    ensures Respond(s.memory.value, EventOf(s, Acknowledge)).reply == Acknowledged
  {
    AcknowledgeEffect(search, s);
    AcknowledgeFileFits(search, s);
    hide FileFits, Agrees;
  }

  lemma PublishKeeps(search: Search, s: System)
    requires Inv(search, s) && Enabled(s, Publish)
    ensures Inv(search, Apply(search, s, Publish))
  {
  }

  /** The events of a live host that the adapter refuses: a report on a pruned trial, and a contradicting transition. */
  predicate Refuses(s: System, a: Action) {
    match a
    case Report(offset, _) => s.host.Searching? && offset < |s.host.pending| && s.host.pending[offset].pruned
    case Transition => Mispaired(s)
    case _ => false
  }

  lemma StepKeeps(search: Search, s: System, a: Action)
    requires Inv(search, s) && Enabled(s, a)
    ensures Inv(search, Apply(search, s, a))
    ensures !a.Start? && !a.Publish? && !a.Crash? ==>
              (Respond(s.memory.value, EventOf(s, a)).reply.Error? <==> Refuses(s, a))
  {
    match a
    case Start => StartKeeps(search, s);
    case AskNext(proposal) => AskKeeps(search, s, proposal);
    case Report(offset, prune) => ReportKeeps(search, s, offset, prune);
    case Prepare(t) => PrepareKeeps(search, s, t);
    case Transition => TransitionKeeps(search, s);
    case Acknowledge => AcknowledgeKeeps(search, s);
    case Publish => PublishKeeps(search, s);
    case Crash =>
  }

  lemma {:induction false} RunKeeps(search: Search, run: seq<Action>)
    ensures Inv(search, After(search, run))
  {
    if run != [] {
      var prefix, a := run[..|run| - 1], run[|run| - 1];
      RunKeeps(search, prefix);
      if Enabled(After(search, prefix), a) {
        StepKeeps(search, After(search, prefix), a);
      }
    }
  }

  // ---- Which events are accepted -------------------------------------------------

  /**
   * In every run the adapter accepts a host event exactly unless it reports on a trial already
   * pruned, or asks for the transition to a terminal of the other kind.
   */
  lemma LiveEventsAccepted(search: Search, run: seq<Action>, a: Action)
    requires Enabled(After(search, run), a) && !a.Start? && !a.Publish? && !a.Crash?
    ensures !Respond(After(search, run).memory.value, EventOf(After(search, run), a)).reply.Error?
       <==> !Refuses(After(search, run), a)
  {
    RunKeeps(search, run);
    StepKeeps(search, After(search, run), a);
  }
}
