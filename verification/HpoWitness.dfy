/** Concrete runs that reach the situations the discipline rules out, in any search that routes one point. */
module HpoWitness {
  import opened Results
  import opened HpoTrials
  import opened HpoAdapter
  import opened HpoHost
  import opened HpoRuns
  import opened HpoAdmission
  import opened HpoDiscipline

  const POINT: Params := map["n" := IntValue(1)]
  const FIRST := Complete(0, POINT, 0.5, "")

  const ACKED: seq<Action> := [] + [Start] + [Acknowledge]

  /** The empty checkpoint is acknowledged, the native file does not exist yet. */
  lemma FirstAckReached(search: Search)
    ensures After(search, ACKED)
         == System(Unpublished(Checkpoint(search.binding, []), []),
                   Some(Fresh(search.contract).(committed := Some(Checkpoint(search.binding, [])))),
                   Some(Fresh(search.contract).(committed := Some(Checkpoint(search.binding, [])))), None)
  {
    AfterOne(search, [], Start);
    AfterOne(search, [] + [Start], Acknowledge);
  }

  lemma PublishedReached(search: Search)
    ensures var empty := Checkpoint(search.binding, []);
            var m := Some(Fresh(search.contract).(committed := Some(empty)));
            After(search, ACKED + [Publish]) == System(Searching(empty, []), m, m, Some(empty))
  {
    FirstAckReached(search);
    AfterOne(search, ACKED, Publish);
  }

  const TWO_ASKED: seq<Action> := ACKED + [Publish] + [AskNext(POINT)] + [AskNext(POINT)]

  lemma TwoAskedReached(search: Search)
    requires search.routes(POINT)
    ensures var s := After(search, TWO_ASKED);
            var empty := Checkpoint(search.binding, []);
            && s.host == Searching(empty, [Candidate(POINT, false), Candidate(POINT, false)])
            && s.native == Some(empty) && s.memory == s.disk
            && s.memory == Some(Snapshot(search.contract, Some(empty), None, None, [],
                                         [Trial(0, POINT, RUNNING, None), Trial(1, POINT, RUNNING, None)]))
  {
    PublishedReached(search);
    NamedPoint();
    AfterOne(search, ACKED + [Publish], AskNext(POINT));
    var one := After(search, ACKED + [Publish] + [AskNext(POINT)]);
    assert one.memory.value.table == [Trial(0, POINT, RUNNING, None)];
    assert one.host.pending == [Candidate(POINT, false)];
    AfterOne(search, ACKED + [Publish] + [AskNext(POINT)], AskNext(POINT));
    var two := After(search, TWO_ASKED);
    assert two.memory.value.table == [Trial(0, POINT, RUNNING, None), Trial(1, POINT, RUNNING, None)];
    assert two.host.pending == [Candidate(POINT, false), Candidate(POINT, false)];
  }

  lemma NamedPoint()
    ensures Named(POINT) && POINT != map[]
  {
    assert "n"[0] in "n" && !Blank('n');
    assert "n" in POINT.Keys;
  }

  /** Trial 0 told, its checkpoint not acknowledged yet. */
  lemma ToldReached(search: Search)
    requires search.routes(POINT)
    ensures var empty, one := Checkpoint(search.binding, []), Checkpoint(search.binding, [FIRST]);
            var m := Snapshot(search.contract, Some(empty), None, Some(one), [],
                              [Trial(0, POINT, COMPLETED, Some(0.5)), Trial(1, POINT, RUNNING, None)]);
            After(search, TWO_ASKED + [Prepare(FIRST)] + [Transition])
            == System(Transitioned(one, [Candidate(POINT, false)]), Some(m), Some(m), Some(empty))
  {
    TwoAskedReached(search);
    AfterOne(search, TWO_ASKED, Prepare(FIRST));
    var asked := After(search, TWO_ASKED);
    assert asked.host.current.trials + [FIRST] == [FIRST];
    AfterOne(search, TWO_ASKED + [Prepare(FIRST)], Transition);
    assert asked.host.pending[1..] == [Candidate(POINT, false)];
    var moved := asked.memory.value.table[0 := Trial(0, POINT, COMPLETED, Some(0.5))];
    assert moved == [Trial(0, POINT, COMPLETED, Some(0.5)), Trial(1, POINT, RUNNING, None)];
  }

  /** Trial 0 told and acknowledged, its checkpoint not published, trial 1 still running. */
  lemma LostAckReached(search: Search)
    requires search.routes(POINT)
    ensures var s := After(search, TWO_ASKED + [Prepare(FIRST)] + [Transition] + [Acknowledge]);
            LosesAck(s) && s.host.pending == [Candidate(POINT, false)]
  {
    hide After;
    ToldReached(search);
    AfterOne(search, TWO_ASKED + [Prepare(FIRST)] + [Transition], Acknowledge);
    var told, s := After(search, TWO_ASKED + [Prepare(FIRST)] + [Transition]),
                   After(search, TWO_ASKED + [Prepare(FIRST)] + [Transition] + [Acknowledge]);
    assert Agrees(told.memory.value.table, [FIRST]);
    var d, native := s.disk.value, s.native.value;
    assert ToFinish(d, native) == d.prepared;
    assert Unaccounted(d, native) == 1;
  }

  /** What the parallel search does: trial 1 is pruned while trial 0 is not terminal yet. */
  lemma PruneAheadReached(search: Search)
    requires search.routes(POINT)
    ensures var s := After(search, TWO_ASKED + [Report(1, true)]);
            Enabled(s, Prepare(FIRST)) && |s.host.pending| == 2 && s.host.pending[1].pruned
    ensures Strands(After(search, TWO_ASKED + [Report(1, true)] + [Prepare(FIRST)]))
  {
    PrunedReached(search, 1);
    PruneAheadStrands(search, TWO_ASKED + [Report(1, true)], 1, Prepare(FIRST));
  }

  lemma PrunedReached(search: Search, offset: nat)
    requires search.routes(POINT) && offset < 2
    ensures var s := After(search, TWO_ASKED + [Report(offset, true)]);
            && Running(s) && s.host == Searching(Checkpoint(search.binding, []),
                 [Candidate(POINT, false), Candidate(POINT, false)][offset := Candidate(POINT, true)])
  {
    TwoAskedReached(search);
    RunKeeps(search, TWO_ASKED);
    AfterOne(search, TWO_ASKED, Report(offset, true));
    ReportKeeps(search, After(search, TWO_ASKED), offset, true);
  }

  const LATE_FAILURE := Failed(0, POINT, "pruned host HPO trial lost native fold score evidence", "")

  /** Trial 0 is pruned, and its evaluation fails afterwards: its failed terminal strands the files. */
  lemma FailedAfterPruneReached(search: Search)
    requires search.routes(POINT)
    ensures Enabled(After(search, TWO_ASKED + [Report(0, true)]), Prepare(LATE_FAILURE))
    ensures Strands(After(search, TWO_ASKED + [Report(0, true)] + [Prepare(LATE_FAILURE)]))
    ensures After(search, TWO_ASKED + [Report(0, true)] + [Prepare(LATE_FAILURE)] + [Transition]).host.Down?
  {
    PrunedReached(search, 0);
    ContradictionStrands(search, TWO_ASKED + [Report(0, true)], LATE_FAILURE);
  }

  /** Trial 0 is pruned, and the next candidate is asked for before its terminal is prepared. */
  lemma SavedPruneReached(search: Search)
    requires search.routes(POINT)
    ensures Strands(After(search, TWO_ASKED + [Report(0, true)] + [AskNext(POINT)]))
  {
    PrunedReached(search, 0);
    NamedPoint();
    PruneAheadStrands(search, TWO_ASKED + [Report(0, true)], 0, AskNext(POINT));
  }

  const NAMELESS: Params := map[" " := IntValue(1)]

  /**
   * An axis whose name is a blank: the first proposal is saved and then refused by the host. The
   * adapter accepts the next restart, the host does not, and neither runs in any continuation.
   */
  lemma NamelessReached(search: Search, more: seq<Action>)
    ensures var s := After(search, ACKED + [Publish] + [AskNext(NAMELESS)]);
            s.host.Down? && !Strands(s) && Opened(s.disk, search.contract, s.native).Ok?
    ensures After(search, ACKED + [Publish] + [AskNext(NAMELESS)] + more).host.Down?
  {
    PublishedReached(search);
    var run := ACKED + [Publish];
    assert " " in NAMELESS.Keys && forall c <- " " :: Blank(c);
    RefusedProposal(search, run, NAMELESS);
    AfterOne(search, run, AskNext(NAMELESS));
    var s := After(search, run + [AskNext(NAMELESS)]);
    assert s.disk.value.table == [Trial(0, NAMELESS, RUNNING, None)];
    RestartRefusesExactly(search, run + [AskNext(NAMELESS)]);
    HopelessForever(search, run + [AskNext(NAMELESS)], more);
  }
}
