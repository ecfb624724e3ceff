/**
 * When host and adapter start again: the adapter unless the two files are stranded, and the
 * host if it accepts the parameters of every interrupted trial on top of that.
 */
module HpoAdmission {
  import opened Results
  import opened HpoTrials
  import opened HpoAdapter
  import opened HpoHost
  import opened HpoRuns

  lemma AfterOne(search: Search, run: seq<Action>, a: Action)
    ensures After(search, run + [a])
         == (if Enabled(After(search, run), a) then Apply(search, After(search, run), a) else After(search, run))
  {
    assert (run + [a])[..|run + [a]| - 1] == run;
  }

  // ---- What the host has looked at ------------------------------------------------------

  predicate RowsResumable(search: Search, table: seq<Trial>) {
    forall k :: 0 <= k < |table| ==> Resumable(search, table[k].params)
  }

  predicate CheckpointAdmitted(search: Search, c: Option<Checkpoint>) {
    c.Some? ==> AllAdmitted(search, c.value.trials)
  }

  predicate FileAdmitted(search: Search, d: Snapshot) {
    CheckpointAdmitted(search, d.committed) && CheckpointAdmitted(search, d.prepared)
  }

  predicate PendingAdmissible(search: Search, pending: seq<Candidate>) {
    forall j :: 0 <= j < |pending| ==> Admissible(search, pending[j].params)
  }

  /**
   * Every checkpoint is made of trials whose parameters the host has accepted; while it is up, that
   * is so of the whole table. Only a proposal it has just refused can stand in the file otherwise.
   */
  predicate Screened(search: Search, s: System) {
    && CheckpointAdmitted(search, s.native)
    && (s.disk.Some? ==> FileAdmitted(search, s.disk.value))
    && (s.memory.Some? ==> FileAdmitted(search, s.memory.value))
    && (!s.host.Down? ==>
          && s.memory.Some? && s.disk.Some?
          && RowsResumable(search, s.memory.value.table) && RowsResumable(search, s.disk.value.table)
          && AllAdmitted(search, HostCheckpoint(s.host).trials)
          && PendingAdmissible(search, Pending(s.host)))
  }

  /** Unless it asks, an event leaves the parameters in the table as they are. */
  lemma RowsKept(search: Search, m: Snapshot, e: Event)
    requires RowsResumable(search, m.table) && (e.Ask? ==> Resumable(search, e.proposal))
    ensures RowsResumable(search, Respond(m, e).memory.table)
  {
    hide Resumable;
  }

  lemma StepScreened(search: Search, s: System, a: Action)
    requires Inv(search, s) && Enabled(s, a) && Screened(search, s)
    ensures Screened(search, Apply(search, s, a))
  {
    hide Inv, RowsResumable, AllAdmitted, Respond;
    match a
    case Start => StartScreened(search, s);
    case Crash =>
    case Publish =>
    case AskNext(proposal) => AskScreened(search, s, proposal);
    case Prepare(t) =>
      RowsKept(search, s.memory.value, EventOf(s, a));
      PrepareScreened(search, s, t);
    case Report(_, _) => MovedScreened(search, s, a);
    case Transition => MovedScreened(search, s, a);
    case Acknowledge => MovedScreened(search, s, a);
  }

  /** A reply moves trials of the table, or adopts the host's checkpoint. */
  lemma MovedScreened(search: Search, s: System, a: Action)
    requires Inv(search, s) && Enabled(s, a) && Screened(search, s)
    requires a.Report? || a.Transition? || a.Acknowledge?
    ensures Screened(search, Apply(search, s, a))
  {
    hide Inv, RowsResumable, AllAdmitted, Admissible;
    RowsKept(search, s.memory.value, EventOf(s, a));
  }

  lemma AgreedRows(search: Search, table: seq<Trial>, trials: seq<Terminal>)
    requires Agrees(table, trials) && |trials| == |table| && AllAdmitted(search, trials)
    ensures RowsResumable(search, table)
  {
    forall k | 0 <= k < |table| ensures Resumable(search, table[k].params) {
      assert Matches(table[k], trials[k], k) && trials[k] in trials;
      assert Admitted(search, trials[k]);
    }
  }

  lemma StartScreened(search: Search, s: System)
    requires Inv(search, s) && s.host.Down? && Screened(search, s)
    ensures Screened(search, Apply(search, s, Start))
  {
    hide FileFits, Agrees, AllAdmitted, Admissible, Reconciled;
    StartKeeps(search, s);
    var up := Apply(search, s, Start);
    if up.host.Resuming? {
      AgreedRows(search, up.memory.value.table, up.host.resume.trials);
    }
  }

  lemma AskScreened(search: Search, s: System, proposal: Params)
    requires Inv(search, s) && Enabled(s, AskNext(proposal)) && Screened(search, s)
    ensures Screened(search, Apply(search, s, AskNext(proposal)))
  {
  }

  lemma PrepareScreened(search: Search, s: System, t: Terminal)
    requires Inv(search, s) && Enabled(s, Prepare(t)) && Screened(search, s)
    ensures Screened(search, Apply(search, s, Prepare(t)))
  {
  }

  lemma {:induction false} RunScreened(search: Search, run: seq<Action>)
    ensures Screened(search, After(search, run))
  {
    if run != [] {
      var prefix, a := run[..|run| - 1], run[|run| - 1];
      RunScreened(search, prefix);
      RunKeeps(search, prefix);
      if Enabled(After(search, prefix), a) {
        StepScreened(search, After(search, prefix), a);
      }
    }
  }

  // ---- When a restart succeeds -----------------------------------------------------------

  predicate Strands(s: System) {
    s.disk.Some? && Stranded(s.disk.value, s.native)
  }

  /** A trial beyond the paired history has parameters that the host does not accept. */
  predicate Unroutable(search: Search, d: Snapshot, native: Checkpoint) {
    exists k :: PairedCount(d, native) <= k < |d.table| && !Resumable(search, d.table[k].params)
  }

  /** No restart can succeed with these two files. */
  predicate Hopeless(search: Search, s: System) {
    Strands(s) || (s.disk.Some? && s.native.Some? && Unroutable(search, s.disk.value, s.native.value))
  }

  /** The trials a recovery interrupts carry the parameters of the rows beyond the paired history. */
  lemma InterruptedRows(search: Search, d: Snapshot, native: Checkpoint, recovery: Recovery)
    requires FileFits(search, d, Some(native)) && d.committed.Some?
    requires Recovered(d, Some(native)) == Ok(recovery)
    ensures |d.table| == PairedCount(d, native) + |recovery.interrupted| == |recovery.memory.table|
    ensures forall j :: 0 <= j < |recovery.interrupted| ==>
              recovery.interrupted[j].params == d.table[PairedCount(d, native) + j].params
    ensures forall k :: PairedCount(d, native) <= k < |d.table| ==> recovery.memory.table[k].params == d.table[k].params
    ensures PairedCount(recovery.memory, native) == PairedCount(d, native)
  {
    hide FileFits, Recovered, Reconciled, KnownInterrupted, WellNumbered, Agrees, ToFinish, OrphansFrom, StillRunning;
    RecoveredShape(d, native, recovery);
    Reconciles(search, d, native);
    InterruptedShape(search, d, native, recovery);
    forall j | 0 <= j < |recovery.interrupted|
      ensures recovery.interrupted[j].params == d.table[PairedCount(d, native) + j].params
    {
      assert OrphanAt(recovery.memory.table, PairedCount(d, native) + j, recovery.interrupted[j]);
    }
  }

  lemma AdmittedJoin(search: Search, base: seq<Terminal>, interrupted: seq<Orphan>)
    requires AllAdmitted(search, base)
    ensures AllAdmitted(search, base + FailedTrials(interrupted))
       <==> forall j :: 0 <= j < |interrupted| ==> Resumable(search, interrupted[j].params)
  {
    hide Admissible;
    var failed := FailedTrials(interrupted);
    forall j | 0 <= j < |failed|
      ensures failed[j] in base + failed
      ensures Admitted(search, failed[j]) <==> Resumable(search, interrupted[j].params)
    {
    }
    if AllAdmitted(search, base + failed) {
      forall j | 0 <= j < |interrupted| ensures Resumable(search, interrupted[j].params) {
        assert Admitted(search, failed[j]);
      }
    }
  }

  lemma AdmittedExactly(search: Search, d: Snapshot, native: Checkpoint, recovery: Recovery)
    requires FileFits(search, d, Some(native)) && d.committed.Some?
    requires Recovered(d, Some(native)) == Ok(recovery)
    requires FileAdmitted(search, d) && AllAdmitted(search, native.trials)
    ensures AllAdmitted(search, ResumedTrials(native, recovery)) <==> !Unroutable(search, d, native)
  {
    hide FileFits, Recovered, Reconciled, Resumable, FailedTrials, AllAdmitted, KnownInterrupted;
    InterruptedRows(search, d, native, recovery);
    RecoveredShape(d, native, recovery);
    var base := if recovery.prepared.Some? then recovery.prepared.value.trials else native.trials;
    AdmittedJoin(search, base, recovery.interrupted);
    var paired := PairedCount(d, native);
    forall k | paired <= k < |d.table| ensures d.table[k].params == recovery.interrupted[k - paired].params {
      assert d.table[paired + (k - paired)].params == recovery.interrupted[k - paired].params;
    }
  }

  /**
   * After any run, with crashes anywhere, the adapter refuses a restart if and only if the two
   * files are stranded; and host and adapter both start if and only if, moreover, the host
   * accepts the parameters of every trial beyond the paired history.
   */
  lemma RestartRefusesExactly(search: Search, run: seq<Action>)
    requires After(search, run).host.Down?
    ensures var s := After(search, run);
            && (Opened(s.disk, search.contract, s.native).Err? <==> Strands(s))
            && (Apply(search, s, Start).host.Resuming? <==> !Hopeless(search, s))
  {
    var s := After(search, run);
    RunKeeps(search, run);
    RunScreened(search, run);
    StartExactly(search, s);
  }

  lemma StartExactly(search: Search, s: System)
    requires Inv(search, s) && Screened(search, s) && s.host.Down?
    ensures Opened(s.disk, search.contract, s.native).Err? <==> Strands(s)
    ensures Apply(search, s, Start).host.Resuming? <==> !Hopeless(search, s)
  {
    hide FileFits, Stranded, Unroutable, Recovered, AllAdmitted;
    StartKeeps(search, s);
    if s.disk.Some? {
      var d := s.disk.value;
      RestartExactly(search, d, s.native);
      FileBasics(search, d, s.native);
      if s.native.Some? && Opened(s.disk, search.contract, s.native).Ok? {
        AdmittedExactly(search, d, s.native.value, Recovered(d, s.native).value);
      }
    }
  }

  lemma FileBasics(search: Search, d: Snapshot, native: Option<Checkpoint>)
    requires FileFits(search, d, native)
    ensures d.contract == search.contract && (native.Some? ==> d.committed.Some?)
  {
  }

  // ---- No way back ------------------------------------------------------------------------

  /** A restart that fails leaves the parameters beyond the paired history in the file. */
  lemma HopelessStart(search: Search, s: System)
    requires Inv(search, s) && Screened(search, s) && s.host.Down? && Hopeless(search, s)
    ensures Apply(search, s, Start).host.Down? && Hopeless(search, Apply(search, s, Start))
  {
    hide FileFits, Stranded, Recovered, Admissible;
    StartExactly(search, s);
    StartKeeps(search, s);
    FileBasics(search, s.disk.value, s.native);
    if Opened(s.disk, search.contract, s.native).Ok? {
      var d, native := s.disk.value, s.native.value;
      InterruptedRows(search, d, native, Recovered(d, s.native).value);
      var k :| PairedCount(d, native) <= k < |d.table| && !Resumable(search, d.table[k].params);
      var m := Apply(search, s, Start).disk.value;
      assert m == Recovered(d, s.native).value.memory;
      assert !Resumable(search, m.table[k].params);
    }
  }

  /** Once no restart can succeed, host and adapter never run again. */
  lemma {:induction false} HopelessForever(search: Search, run: seq<Action>, more: seq<Action>)
    requires After(search, run).host.Down? && Hopeless(search, After(search, run))
    ensures After(search, run + more).host.Down? && Hopeless(search, After(search, run + more))
  {
    if more == [] {
      assert run + more == run;
    } else {
      var prefix, a := more[..|more| - 1], more[|more| - 1];
      HopelessForever(search, run, prefix);
      assert run + more == (run + prefix) + [a];
      AfterOne(search, run + prefix, a);
      RunKeeps(search, run + prefix);
      RunScreened(search, run + prefix);
      if a.Start? {
        HopelessStart(search, After(search, run + prefix));
      }
    }
  }

  /**
   * A proposal the host does not accept is saved before it is looked at: the host stops there, and
   * unless the proposal is empty neither it nor any later one ever runs again.
   */
  lemma RefusedProposal(search: Search, run: seq<Action>, proposal: Params)
    requires Enabled(After(search, run), AskNext(proposal))
    ensures After(search, run + [AskNext(proposal)]).host.Down? <==> !Admissible(search, proposal)
    ensures !Resumable(search, proposal) ==> Hopeless(search, After(search, run + [AskNext(proposal)]))
  {
    var s := After(search, run);
    RunKeeps(search, run);
    AfterOne(search, run, AskNext(proposal));
    AskRefused(search, s, proposal);
  }

  lemma AskRefused(search: Search, s: System, proposal: Params)
    requires Inv(search, s) && Enabled(s, AskNext(proposal))
    ensures Apply(search, s, AskNext(proposal)).host.Down? <==> !Admissible(search, proposal)
    ensures !Resumable(search, proposal) ==> Hopeless(search, Apply(search, s, AskNext(proposal)))
  {
    hide FileFits, Resumable, Admissible;
    AskKeeps(search, s, proposal);
    var m, n, later := s.memory.value, |s.memory.value.table|, Apply(search, s, AskNext(proposal));
    if !Resumable(search, proposal) {
      assert later.disk.value.table[n].params == proposal;
      assert PairedCount(later.disk.value, s.native.value) <= n;
    }
  }

  /** While the host is up it has accepted every row, so a crash alone never makes it refuse one. */
  lemma CrashRoutable(search: Search, s: System)
    requires Screened(search, s) && !s.host.Down? && s.native.Some?
    ensures !Unroutable(search, s.disk.value, s.native.value)
  {
  }
}
