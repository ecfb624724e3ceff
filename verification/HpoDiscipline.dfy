/**
 * Which crashes strand the two files, and a discipline on the runs under which
 * no restart is ever refused.
 */
module HpoDiscipline {
  import opened Results
  import opened HpoTrials
  import opened HpoAdapter
  import opened HpoHost
  import opened HpoRuns
  import opened HpoAdmission

  /** No restart, and nothing else, ever brings stranded files back together. */
  lemma {:induction false} StrandedForever(search: Search, run: seq<Action>, more: seq<Action>)
    requires After(search, run).host.Down? && Strands(After(search, run))
    ensures After(search, run + more) == After(search, run)
  {
    if more == [] {
      assert run + more == run;
    } else {
      var prefix, a := more[..|more| - 1], more[|more| - 1];
      StrandedForever(search, run, prefix);
      assert run + more == (run + prefix) + [a];
      AfterOne(search, run + prefix, a);
      RestartRefusesExactly(search, run);
    }
  }

  // ---- Three ways to strand the files, wherever they occur -----------------------

  /** The host has no file yet when the adapter has already committed: a crash here is fatal. */
  lemma CrashBeforeFirstPublish(search: Search, run: seq<Action>)
    requires After(search, run).host.Unpublished? && After(search, run).native.None?
    ensures After(search, run + [Crash]).host.Down? && Strands(After(search, run + [Crash]))
  {
    RunKeeps(search, run);
    AfterOne(search, run, Crash);
  }

  /** The host acknowledged something it has not published, and the adapter still knows the published one. */
  predicate LosesAck(s: System) {
    && Running(s) && s.host.Unpublished?
    && s.native.Some? && s.native != Some(s.host.next)
    && s.native == s.memory.value.previous
    && !Strands(s)
  }

  /** After that crash a restart resumes from a longer checkpoint and still knows both files. */
  lemma RestartAfterLostAck(search: Search, run: seq<Action>)
    requires LosesAck(After(search, run))
    ensures var s, up := After(search, run), After(search, run + [Crash] + [Start]);
            && Running(up) && up.host.Resuming? && up.native == s.native && up.native.Some?
            && up.memory.value.committed == Some(s.host.next) && up.native != up.memory.value.committed
            && |s.native.value.trials| < |s.host.next.trials| <= |up.host.resume.trials|
  {
    var s := After(search, run);
    RunKeeps(search, run);
    RunScreened(search, run);
    CrashRoutable(search, s);
    AfterOne(search, run, Crash);
    RestartRefusesExactly(search, run + [Crash]);
    AfterOne(search, run + [Crash], Start);
    RunKeeps(search, run + [Crash] + [Start]);
  }

  lemma CrashKeepsFiles(search: Search, run: seq<Action>)
    requires !After(search, run).host.Down?
    ensures var s, down := After(search, run), After(search, run + [Crash]);
            down.host.Down? && down.disk == s.disk && down.native == s.native
  {
    AfterOne(search, run, Crash);
  }

  lemma AcknowledgeWhileResuming(search: Search, s: System)
    requires Inv(search, s) && Running(s) && s.host.Resuming?
    requires s.native.Some? && s.memory.value.committed.Some? && s.native != s.memory.value.committed
    requires |s.native.value.trials| < |s.host.resume.trials|
    ensures var again := Apply(search, s, Acknowledge);
            again.host.Unpublished? && Strands(again)
  {
    AcknowledgeEffect(search, s);
    var again := Apply(search, s, Acknowledge);
    assert again.disk.value.committed == Some(s.host.resume) && again.disk.value.previous == s.memory.value.committed;
    assert again.native == s.native;
  }

  /** Acknowledging again after such a crash forgets the published checkpoint: the second crash is fatal. */
  lemma SecondLostAcknowledgement(search: Search, run: seq<Action>)
    requires LosesAck(After(search, run))
    ensures var again := After(search, run + [Crash] + [Start] + [Acknowledge]);
            && again.host.Unpublished? && Strands(again)
            && After(search, run + [Crash] + [Start] + [Acknowledge] + [Crash]).host.Down?
            && Strands(After(search, run + [Crash] + [Start] + [Acknowledge] + [Crash]))
  {
    hide Inv, After, Stranded, Apply, LosesAck;
    RestartAfterLostAck(search, run);
    var up := After(search, run + [Crash] + [Start]);
    RunKeeps(search, run + [Crash] + [Start]);
    AcknowledgeWhileResuming(search, up);
    AfterOne(search, run + [Crash] + [Start], Acknowledge);
    CrashKeepsFiles(search, run + [Crash] + [Start] + [Acknowledge]);
  }

  lemma RecoveredTwice(search: Search, d: Snapshot, native: Checkpoint, recovery: Recovery)
    requires FileFits(search, d, Some(native)) && d.committed.Some? && Some(native) != d.committed
    requires Recovered(d, Some(native)) == Ok(recovery)
    requires |d.committed.value.trials| < |d.table|
    ensures Stranded(recovery.memory, Some(native))
  {
    RestartExactly(search, d, Some(native));
    Reconciles(search, d, native);
    KnownInterruptedFit(search, d, native);
    var m := recovery.memory;
    assert Unaccounted(m, native) == Unaccounted(d, native);
    assert m.table == FailedFrom(Reconciled(d, native).value, Unaccounted(d, native));
    assert m.table[Unaccounted(m, native)].status == FAILED;
  }

  /** A candidate asked for beyond the lost checkpoint is failed by the first restart and rejected by the second. */
  lemma RestartTwiceLosesOrphans(search: Search, run: seq<Action>)
    requires LosesAck(After(search, run)) && After(search, run).host.pending != []
    ensures var up := After(search, run + [Crash] + [Start]);
            up.host.Resuming? && Strands(up)
  {
    var s := After(search, run);
    RunKeeps(search, run);
    RunScreened(search, run);
    CrashRoutable(search, s);
    AfterOne(search, run, Crash);
    RestartRefusesExactly(search, run + [Crash]);
    AfterOne(search, run + [Crash], Start);
    RecoveredTwice(search, s.disk.value, s.native.value, Recovered(s.disk.value, s.native).value);
  }

  /** A step after which the adapter has saved its memory. */
  predicate Saves(a: Action) {
    a.AskNext? || a.Prepare? || a.Acknowledge?
  }

  lemma SavedPruned(search: Search, s: System, offset: nat, a: Action)
    requires Inv(search, s) && s.host.Searching? && Enabled(s, a) && Saves(a)
    requires offset < |s.host.pending| && s.host.pending[offset].pruned
    requires a.Prepare? ==> offset > 0
    ensures Strands(Apply(search, s, a))
  {
    var k := |s.host.current.trials| + offset;
    StepKeeps(search, s, a);
    var later := Apply(search, s, a);
    var d := later.disk.value;
    assert s.memory.value.table[|s.host.current.trials| + offset].params == s.host.pending[offset].params;
    assert d.table[k].status == PRUNED;
    assert Unaccounted(d, later.native.value) <= k;
  }

  /**
   * A prune reply is written to the file by the next event that saves. Unless that event prepares
   * the terminal of this very candidate, a crash then is fatal.
   */
  lemma PruneAheadStrands(search: Search, run: seq<Action>, offset: nat, a: Action)
    requires After(search, run).host.Searching? && Enabled(After(search, run), a) && Saves(a)
    requires offset < |After(search, run).host.pending| && After(search, run).host.pending[offset].pruned
    requires a.Prepare? ==> offset > 0
    ensures Strands(After(search, run + [a]))
  {
    RunKeeps(search, run);
    AfterOne(search, run, a);
    SavedPruned(search, After(search, run), offset, a);
  }

  lemma PreparedContradiction(search: Search, s: System, t: Terminal)
    requires Inv(search, s) && Enabled(s, Prepare(t)) && t.Pruned? != s.host.pending[0].pruned
    ensures Strands(Apply(search, s, Prepare(t)))
    ensures Mispaired(Apply(search, s, Prepare(t)))
  {
    PrepareKeeps(search, s, t);
    var later := Apply(search, s, Prepare(t));
    NextTrial(search, later);
    assert ToFinish(later.disk.value, later.native.value) == later.disk.value.prepared;
  }

  /**
   * An evaluation that fails after the adapter has pruned its candidate, or a prune reply the host
   * never reads: the terminal it prepares contradicts the table. The files cannot be reconciled from
   * then on, and the transition that follows is refused.
   */
  lemma ContradictionStrands(search: Search, run: seq<Action>, t: Terminal)
    requires Enabled(After(search, run), Prepare(t)) && t.Pruned? != After(search, run).host.pending[0].pruned
    ensures Strands(After(search, run + [Prepare(t)]))
    ensures var refused := After(search, run + [Prepare(t)] + [Transition]);
            refused.host.Down? && Strands(refused)
  {
    RunKeeps(search, run);
    AfterOne(search, run, Prepare(t));
    PreparedContradiction(search, After(search, run), t);
    RunKeeps(search, run + [Prepare(t)]);
    var s := After(search, run + [Prepare(t)]);
    hide Inv, Strands;
    TransitionEffect(search, s);
    AfterOne(search, run + [Prepare(t)], Transition);
    TransitionRefused(search, s);
  }

  lemma TransitionRefused(search: Search, s: System)
    requires Inv(search, s) && Enabled(s, Transition) && Mispaired(s)
    ensures Apply(search, s, Transition) == s.(host := Down, memory := None)
  {
    TransitionEffect(search, s);
  }

  // ---- The discipline ---------------------------------------------------------------

  /** Whether an acknowledgement lost to a crash is still unpublished after the step `a`. */
  predicate StillLost(s: System, ackLost: bool, a: Action) {
    if a.Publish? then false
    else if a.Crash? && s.host.Unpublished? && Some(s.host.next) != s.native then true
    else ackLost
  }

  /** A crash hit an acknowledged, unpublished checkpoint, and nothing has been published since. */
  predicate AckLost(search: Search, run: seq<Action>) {
    if run == [] then false
    else
      var s, a, before := After(search, run[..|run| - 1]), run[|run| - 1], AckLost(search, run[..|run| - 1]);
      if Enabled(s, a) then StillLost(s, before, a) else before
  }

  /** A prune reply that has not led to its terminal yet. */
  predicate PruneOpen(s: System) {
    s.host.Searching? && s.host.pending != [] && s.host.pending[0].pruned
  }

  /** The host resumes from what was acknowledged before: no candidate ran ahead of it. */
  predicate NothingRanAhead(s: System) {
    && s.host.Resuming? && s.memory.Some? && s.memory.value.committed.Some?
    && |s.host.resume.trials| == |s.memory.value.committed.value.trials|
  }

  /** One step that keeps the pair of files recoverable. */
  predicate Careful(search: Search, s: System, ackLost: bool, a: Action) {
    // No proposal but the empty one is of a kind that the host refuses.
    && (a.AskNext? ==> Resumable(search, a.proposal))
    // Nothing crashes between the first acknowledgement and the first published file, nor a second
    // time before an acknowledgement lost to a crash has been published, unless no candidate had run
    // ahead of it and it has not been acknowledged again.
    && (a.Crash? ==> !(s.host.Unpublished? && s.native.None?) && (ackLost ==> NothingRanAhead(s)))
    // Only the candidate next in order is pruned, nothing but its terminal is saved then,
    // and that terminal is of the kind the adapter knows of.
    && (a.Report? && a.prune ==> a.offset == 0)
    && (PruneOpen(s) && Saves(a) ==> a.Prepare?)
    && (a.Prepare? && s.host.Searching? && s.host.pending != [] ==> a.terminal.Pruned? == s.host.pending[0].pruned)
  }

  predicate Disciplined(search: Search, run: seq<Action>) {
    run == []
    || (&& Disciplined(search, run[..|run| - 1])
        && Careful(search, After(search, run[..|run| - 1]), AckLost(search, run[..|run| - 1]), run[|run| - 1]))
  }

  ghost predicate NonePruned(pending: seq<Candidate>, from: nat) {
    forall j :: from <= j < |pending| ==> !pending[j].pruned
  }

  ghost predicate AllRunning(table: seq<Trial>, from: nat) {
    forall k :: from <= k < |table| ==> table[k].status == RUNNING
  }

  lemma CandidatesRun(table: seq<Trial>, n: nat, pending: seq<Candidate>, from: nat)
    requires CandidatesFit(table, n, pending) && NonePruned(pending, from)
    ensures AllRunning(table, n + from)
  {
    forall k | n + from <= k < |table| ensures table[k].status == RUNNING {
      var j := k - n;
      assert !pending[j].pruned && table[n + j].status == RUNNING;
    }
  }

  ghost predicate Recoverable(search: Search, s: System, ackLost: bool) {
    && (!s.host.Down? ==> s.memory.Some? && s.disk.Some?)
    && match s.host
       case Down =>
         && !Hopeless(search, s)
         && (ackLost <==> s.native.Some? && s.disk.Some? && s.native != s.disk.value.committed)
       case Resuming(_) =>
         ackLost <==> s.native.Some? && s.memory.value.committed != s.native
       case Searching(current, pending) =>
         !ackLost && NonePruned(pending, 1) && AllRunning(s.disk.value.table, |current.trials|)
       case Prepared(_, pending) => !ackLost && NonePruned(pending, 1) && !Mispaired(s)
       case Transitioned(_, pending) => !ackLost && NonePruned(pending, 0)
       case Unpublished(_, pending) =>
         && NonePruned(pending, 0)
         && (ackLost ==> s.native.Some? && s.native != s.memory.value.committed && s.native != s.memory.value.previous)
         && (!ackLost && s.native.Some? ==>
               s.native == s.memory.value.committed || s.native == s.memory.value.previous)
  }

  /** Whether a crash in a recoverable state is fatal. */
  predicate Fatal(s: System, ackLost: bool) {
    (s.host.Unpublished? && s.native.None?) || (ackLost && !NothingRanAhead(s))
  }

  lemma CrashResuming(search: Search, s: System, ackLost: bool)
    requires Inv(search, s) && Running(s) && s.host.Resuming? && Recoverable(search, s, ackLost)
    ensures Strands(s) <==> Fatal(s, ackLost)
  {
    if s.native.Some? {
      var m, n := s.memory.value, s.native.value;
      KnownInterruptedFit(search, m, n);
      assert m.previous == s.native || m.committed == s.native;
      ResumedNotContradicted(search, m, n, s.host.resume);
      if ackLost {
        var committed := m.committed.value.trials;
        assert Unaccounted(m, n) == |committed|;
        forall k | |committed| <= k < |m.table| ensures m.table[k].status != RUNNING {
          assert Matches(m.table[k], s.host.resume.trials[k], k);
        }
        if |committed| < |m.table| {
          assert m.table[|committed|].status != RUNNING;
        }
        assert Stranded(m, s.native) <==> |committed| < |m.table|;
      } else {
        assert Unaccounted(m, n) == |m.table|;
      }
    }
  }

  /** What the host resumes from agrees with the table, so nothing left to finish contradicts it. */
  lemma ResumedNotContradicted(search: Search, m: Snapshot, n: Checkpoint, resume: Checkpoint)
    requires ResumingFits(search, m, Some(n), resume)
    ensures !Contradicted(m, n)
  {
    if ToFinish(m, n).Some? && |n.trials| < |m.table| {
      var p, i := ToFinish(m, n).value, |n.trials|;
      assert Matches(m.table[i], resume.trials[i], i);
      assert p.trials[i] == resume.trials[i];
    }
  }

  lemma CrashSearching(search: Search, s: System)
    requires Inv(search, s) && Running(s) && Recoverable(search, s, false)
    requires s.host.Searching? || s.host.Prepared? || s.host.Transitioned? || (s.host.Unpublished? && s.native.Some?)
    ensures !Strands(s)
  {
    KnownInterruptedFit(search, s.disk.value, s.native.value);
    var table := s.disk.value.table;
    match s.host
    case Searching(current, pending) =>
    case Prepared(next, pending) =>
      CandidatesRun(table, |next.trials| - 1, pending, 1);
      assert table[|next.trials| - 1 + 0].status == if pending[0].pruned then PRUNED else RUNNING;
    case Transitioned(next, pending) => CandidatesRun(table, |next.trials|, pending, 0);
    case Unpublished(next, pending) => CandidatesRun(table, |next.trials|, pending, 0);
  }

  /** A crash strands the files in exactly the situations that the discipline excludes. */
  lemma CrashExactly(search: Search, s: System, ackLost: bool)
    requires Inv(search, s) && Enabled(s, Crash) && Recoverable(search, s, ackLost)
    ensures Strands(s) <==> Fatal(s, ackLost)
  {
    if s.host.Resuming? {
      CrashResuming(search, s, ackLost);
    } else if !ackLost && s.native.Some? {
      CrashSearching(search, s);
    }
  }

  lemma CarefulAsk(search: Search, s: System, proposal: Params)
    requires Inv(search, s) && Screened(search, s) && Enabled(s, AskNext(proposal))
    requires Recoverable(search, s, false) && !PruneOpen(s) && Resumable(search, proposal)
    ensures Recoverable(search, Apply(search, s, AskNext(proposal)), false)
  {
    hide FileFits, Admissible;
    CandidatesRun(s.memory.value.table, |s.host.current.trials|, s.host.pending, 0);
    if !Admissible(search, proposal) {
      UnansweredAsk(search, s, proposal);
    }
  }

  lemma SearchingHolds(search: Search, s: System)
    requires Inv(search, s) && s.host.Searching?
    ensures s.memory.Some? && s.memory.value.committed == s.native == Some(s.host.current)
    ensures NothingAhead(s.memory.value, |s.host.current.trials|)
  {
  }

  /** An empty proposal stops the host, and becomes an interrupted trial of the next start. */
  lemma UnansweredAsk(search: Search, s: System, proposal: Params)
    requires Inv(search, s) && Screened(search, s) && Enabled(s, AskNext(proposal))
    requires AllRunning(s.memory.value.table, |s.host.current.trials|)
    requires Resumable(search, proposal) && !Admissible(search, proposal)
    ensures !Hopeless(search, Apply(search, s, AskNext(proposal)))
  {
    hide FileFits, Admissible, Inv;
    var m, n := s.memory.value, |s.host.current.trials|;
    var later := Apply(search, s, AskNext(proposal));
    SearchingHolds(search, s);
    AskKeeps(search, s, proposal);
    assert later.disk.value == m.(table := m.table + [Trial(|m.table|, proposal, RUNNING, None)]);
  }

  lemma CarefulReport(search: Search, s: System, prune: bool, offset: nat)
    requires Inv(search, s) && Enabled(s, Report(offset, prune)) && Recoverable(search, s, false)
    requires prune ==> offset == 0
    ensures Recoverable(search, Apply(search, s, Report(offset, prune)), false)
  {
    ReportKeeps(search, s, offset, prune);
  }

  lemma CarefulTerminal(search: Search, s: System, a: Action)
    requires Inv(search, s) && Enabled(s, a) && Recoverable(search, s, false)
    requires (a.Prepare? && a.terminal.Pruned? == s.host.pending[0].pruned) || a.Transition?
    ensures Recoverable(search, Apply(search, s, a), false)
  {
    if a.Prepare? {
      PrepareKeeps(search, s, a.terminal);
    } else {
      TransitionEffect(search, s);
    }
  }

  lemma CarefulAcknowledge(search: Search, s: System, ackLost: bool)
    requires Inv(search, s) && Enabled(s, Acknowledge) && Recoverable(search, s, ackLost) && !PruneOpen(s)
    ensures Recoverable(search, Apply(search, s, Acknowledge), ackLost)
  {
    AcknowledgeKeeps(search, s);
  }

  lemma CarefulPublish(search: Search, s: System, ackLost: bool)
    requires Inv(search, s) && Enabled(s, Publish) && Recoverable(search, s, ackLost)
    ensures Recoverable(search, Apply(search, s, Publish), false)
  {
    CandidatesRun(s.memory.value.table, |s.host.next.trials|, s.host.pending, 0);
  }

  lemma CarefulStart(search: Search, s: System, ackLost: bool)
    requires Inv(search, s) && Screened(search, s) && s.host.Down? && Recoverable(search, s, ackLost)
    ensures Recoverable(search, Apply(search, s, Start), ackLost)
  {
    hide FileFits, ResumingFits, Hopeless, Recovered, Stranded, AllAdmitted;
    StartExactly(search, s);
    StartKeeps(search, s);
    var up := Apply(search, s, Start);
    if s.native.Some? {
      FileBasics(search, s.disk.value, s.native);
      RecoveredShape(s.disk.value, s.native.value, Recovered(s.disk.value, s.native).value);
      assert up.memory.value.committed == s.disk.value.committed;
    }
  }

  lemma CarefulCrash(search: Search, s: System, ackLost: bool)
    requires Inv(search, s) && Screened(search, s) && Enabled(s, Crash)
    requires Recoverable(search, s, ackLost) && Careful(search, s, ackLost, Crash)
    ensures Recoverable(search, Apply(search, s, Crash), StillLost(s, ackLost, Crash))
  {
    hide FileFits, Stranded, Unroutable, RowsResumable, AllAdmitted;
    CrashExactly(search, s, ackLost);
    if s.native.Some? {
      CrashRoutable(search, s);
    }
  }

  lemma CarefulKeeps(search: Search, s: System, ackLost: bool, a: Action)
    requires Inv(search, s) && Screened(search, s) && Enabled(s, a)
    requires Recoverable(search, s, ackLost) && Careful(search, s, ackLost, a)
    ensures Recoverable(search, Apply(search, s, a), StillLost(s, ackLost, a))
  {
    match a
    case Start => CarefulStart(search, s, ackLost);
    case Crash => CarefulCrash(search, s, ackLost);
    case AskNext(proposal) => CarefulAsk(search, s, proposal);
    case Report(offset, prune) => CarefulReport(search, s, prune, offset);
    case Acknowledge => CarefulAcknowledge(search, s, ackLost);
    case Publish => CarefulPublish(search, s, ackLost);
    case _ => CarefulTerminal(search, s, a);
  }

  lemma {:induction false} DisciplinedKeeps(search: Search, run: seq<Action>)
    requires Disciplined(search, run)
    ensures Recoverable(search, After(search, run), AckLost(search, run))
  {
    if run != [] {
      var prefix, a := run[..|run| - 1], run[|run| - 1];
      DisciplinedKeeps(search, prefix);
      RunKeeps(search, prefix);
      RunScreened(search, prefix);
      if Enabled(After(search, prefix), a) {
        CarefulKeeps(search, After(search, prefix), AckLost(search, prefix), a);
      }
    }
  }

  /** In every disciplined run, whatever its length and wherever it crashes, the restart succeeds. */
  lemma DisciplinedNeverRefuses(search: Search, run: seq<Action>)
    requires Disciplined(search, run) && After(search, run).host.Down?
    ensures Opened(After(search, run).disk, search.contract, After(search, run).native).Ok?
    ensures After(search, run + [Start]).host.Resuming?
  {
    DisciplinedKeeps(search, run);
    RestartRefusesExactly(search, run);
    AfterOne(search, run, Start);
  }

  /**
   * And every clause on what saves or crashes is needed: after a disciplined run, a step that
   * breaks one of them leaves files with which no restart succeeds. The adapter refuses them too
   * unless all that is wrong is the proposal.
   */
  lemma CarelessStrands(search: Search, run: seq<Action>, a: Action)
    requires Disciplined(search, run) && Enabled(After(search, run), a) && !a.Report?
    requires !Careful(search, After(search, run), AckLost(search, run), a)
    ensures Hopeless(search, After(search, run + [a]))
    ensures Strands(After(search, run + [a])) || (a.AskNext? && !Resumable(search, a.proposal))
  {
    var s := After(search, run);
    DisciplinedKeeps(search, run);
    RunKeeps(search, run);
    AfterOne(search, run, a);
    if a.Crash? {
      CrashExactly(search, s, AckLost(search, run));
    } else if PruneOpen(s) && Saves(a) && !a.Prepare? {
      SavedPruned(search, s, 0, a);
    } else if a.AskNext? {
      RefusedProposal(search, run, a.proposal);
    } else {
      PreparedContradiction(search, s, a.terminal);
    }
  }
}
