/**
 * What the adapter keeps for any sequence of inputs whatsoever: no assumption is
 * made here on who sends the events, in which order, or where the process dies.
 */
module HpoHistory {
  import opened Results
  import opened HpoTrials
  import opened HpoAdapter

  datatype Input = Init(contract: string, native: Option<Checkpoint>) | Deliver(event: Event) | Die

  /** The adapter's memory, if the process is up, and its file. */
  datatype Stores = Stores(memory: Option<Snapshot>, disk: Option<Snapshot>)

  function Step(s: Stores, i: Input): Stores {
    match i
    case Die => s.(memory := None)
    case Init(contract, native) =>
      // A second init, and one that is refused, change nothing.
      if s.memory.Some? || Opened(s.disk, contract, native).Err? then s
      else
        var memory := Opened(s.disk, contract, native).value.memory;
        Stores(Some(memory), Some(memory))
    case Deliver(e) =>
      if s.memory.None? then s
      else
        var h := Respond(s.memory.value, e);
        Stores(Some(h.memory), if h.saved then Some(h.memory) else s.disk)
  }

  function StoresAfter(inputs: seq<Input>): Stores {
    if inputs == [] then Stores(None, None) else Step(StoresAfter(inputs[..|inputs| - 1]), inputs[|inputs| - 1])
  }

  /** The committed checkpoint tells the same story as the trial table, index by index. */
  ghost predicate Sound(s: Snapshot) {
    s.committed.Some? ==> Agrees(s.table, s.committed.value.trials)
  }

  ghost predicate SoundStores(s: Stores) {
    && (s.disk.Some? ==> Sound(s.disk.value))
    && (s.memory.Some? ==> s.disk.Some? && Sound(s.memory.value) && Extends(s.disk.value.table, s.memory.value.table))
  }

  lemma RespondSound(s: Snapshot, e: Event)
    requires Sound(s)
    ensures Sound(Respond(s, e).memory)
    ensures Extends(s.table, Respond(s, e).memory.table)
  {
    var after := Respond(s, e).memory;
    assert Extends(s.table, after.table);
    if s.committed.Some? {
      AgreesExtends(s.table, after.table, s.committed.value.trials);
    }
  }

  lemma ReconciledExtends(s: Snapshot, native: Checkpoint)
    requires Reconciled(s, native).Ok?
    ensures Extends(s.table, Reconciled(s, native).value)
  {
    hide Agrees, Unpairable;
  }

  lemma RecoveredExtends(s: Snapshot, native: Option<Checkpoint>)
    requires Recovered(s, native).Ok?
    ensures Extends(s.table, Recovered(s, native).value.memory.table)
  {
    if native.Some? {
      var table, start := Reconciled(s, native.value).value, Unaccounted(s, native.value);
      ReconciledExtends(s, native.value);
      hide Reconciled, Unaccounted, StillRunning, KnownInterrupted, OrphansFrom;
      var after := FailedFrom(table, start);
      forall i | 0 <= i < |table|
        ensures table[i].id == after[i].id && table[i].params == after[i].params
        ensures table[i].status != RUNNING ==> table[i] == after[i]
      {
      }
      ExtendsTransitive(s.table, table, after);
    }
  }

  lemma StepSound(s: Stores, i: Input)
    requires SoundStores(s)
    ensures SoundStores(Step(s, i))
    ensures s.disk.Some? ==> Step(s, i).disk.Some? && Extends(s.disk.value.table, Step(s, i).disk.value.table)
  {
    match i
    case Die =>
    case Deliver(e) =>
      if s.memory.Some? {
        RespondSound(s.memory.value, e);
        ExtendsTransitive(s.disk.value.table, s.memory.value.table, Respond(s.memory.value, e).memory.table);
      }
    case Init(contract, native) =>
      if s.disk.Some? && Opened(s.disk, contract, native).Ok? {
        var d := s.disk.value;
        RecoveredExtends(d, native);
        if d.committed.Some? {
          AgreesExtends(d.table, Recovered(d, native).value.memory.table, d.committed.value.trials);
        }
      }
  }

  /** In every reachable state the committed checkpoint agrees with the table, in memory and in the file. */
  lemma {:induction false} CommittedAgreesAlways(inputs: seq<Input>)
    ensures SoundStores(StoresAfter(inputs))
  {
    if inputs != [] {
      CommittedAgreesAlways(inputs[..|inputs| - 1]);
      StepSound(StoresAfter(inputs[..|inputs| - 1]), inputs[|inputs| - 1]);
    }
  }

  /** Outright: every committed outcome is the table's, with its index, parameters, status and score. */
  lemma CommittedOutright(inputs: seq<Input>, k: nat)
    requires StoresAfter(inputs).disk.Some? && StoresAfter(inputs).disk.value.committed.Some?
    requires k < |StoresAfter(inputs).disk.value.committed.value.trials|
    ensures var table := StoresAfter(inputs).disk.value.table;
            var t := StoresAfter(inputs).disk.value.committed.value.trials[k];
            && k < |table| && table[k].id == k && t.index == k && table[k].params == t.params
            && match t
               case Complete(_, _, score, _) => table[k].status == COMPLETED && table[k].score == Some(score)
               case Pruned(_, _, _) => table[k].status == PRUNED
               case Failed(_, _, _, _) => table[k].status == FAILED
  {
    CommittedAgreesAlways(inputs);
    var d := StoresAfter(inputs).disk.value;
    assert Matches(d.table[k], d.committed.value.trials[k], k);
  }

  /** A trial that is terminal in one saved file is the same trial in every later one. */
  lemma {:induction false} FinishedTrialsFrozen(inputs: seq<Input>, n: nat)
    requires n <= |inputs| && StoresAfter(inputs[..n]).disk.Some?
    ensures StoresAfter(inputs).disk.Some?
    ensures Extends(StoresAfter(inputs[..n]).disk.value.table, StoresAfter(inputs).disk.value.table)
  {
    if n == |inputs| {
      assert inputs[..n] == inputs;
    } else {
      var prefix := inputs[..|inputs| - 1];
      assert prefix[..n] == inputs[..n];
      FinishedTrialsFrozen(prefix, n);
      CommittedAgreesAlways(prefix);
      StepSound(StoresAfter(prefix), inputs[|inputs| - 1]);
      ExtendsTransitive(StoresAfter(inputs[..n]).disk.value.table, StoresAfter(prefix).disk.value.table,
                        StoresAfter(inputs).disk.value.table);
    }
  }

  // ---- Recovering twice ----------------------------------------------------------

  lemma ReconciledAgain(s: Snapshot, native: Checkpoint)
    requires Recovered(s, Some(native)).Ok?
    ensures Reconciled(Recovered(s, Some(native)).value.memory, native)
         == Ok(Recovered(s, Some(native)).value.memory.table)
  {
    var m := Recovered(s, Some(native)).value.memory;
    var table, start := Reconciled(s, native).value, Unaccounted(s, native);
    assert ToFinish(m, native) == ToFinish(s, native);
    assert Unpairable(m, native).None?;
    var trials := if ToFinish(s, native).Some? then ToFinish(s, native).value.trials else native.trials;
    assert Agrees(table, trials);
    assert |trials| == PairedCount(s, native) <= start;
    forall i | 0 <= i < |trials| ensures Matches(m.table[i], trials[i], i) {
      assert Matches(table[i], trials[i], i);
    }
    assert Agrees(m.table, native.trials) by {
      forall i | 0 <= i < |native.trials| ensures Matches(m.table[i], native.trials[i], i) {
        assert Matches(s.table[i], native.trials[i], i);
        assert m.table[i] == table[i];
        if ToFinish(s, native).Some? {
          var last := |trials| - 1;
          assert Matches(table[last], trials[last], last);
          assert table[i] == s.table[i];
        }
      }
    }
  }

  /** Recovery is idempotent whenever the native file is the committed one. */
  lemma RecoverTwicePaired(s: Snapshot, native: Checkpoint)
    requires s.committed == Some(native) && Recovered(s, Some(native)).Ok?
    ensures Recovered(Recovered(s, Some(native)).value.memory, Some(native)) == Recovered(s, Some(native))
  {
    ReconciledAgain(s, native);
    var recovery := Recovered(s, Some(native)).value;
    var m, start := recovery.memory, Unaccounted(recovery.memory, native);
    assert start == PairedCount(s, native) + |recovery.interrupted| >= |m.table|;
    assert FailedFrom(m.table, start) == m.table;
    assert m.orphans + OrphansFrom(m.table, start) == m.orphans;
  }

  /** After a lost acknowledgement it is so exactly when no trial lies beyond the acknowledged ones. */
  lemma RecoverTwiceUnpaired(s: Snapshot, native: Checkpoint)
    requires s.committed != Some(native) && Recovered(s, Some(native)).Ok?
    ensures Recovered(Recovered(s, Some(native)).value.memory, Some(native))
         == (if |s.table| <= Unaccounted(s, native) then Recovered(s, Some(native)) else Err(UnpairedTrial))
  {
    ReconciledAgain(s, native);
    var recovery := Recovered(s, Some(native)).value;
    var m, start := recovery.memory, Unaccounted(s, native);
    assert Unaccounted(m, native) == start;
    assert |m.table| == |s.table|;
    if |s.table| <= start {
      assert FailedFrom(m.table, start) == m.table;
      assert KnownInterrupted(m, native) + OrphansFrom(m.table, start) == m.orphans;
    } else {
      assert m.table[start].status == FAILED;
    }
  }

  // ---- A start with a native checkpoint -----------------------------------------------

  /**
   * Whatever happened before, a process that comes up with a native checkpoint holds that history
   * in its table and has committed one: it never starts afresh beside it.
   */
  lemma StartedAgrees(inputs: seq<Input>, contract: string, native: Checkpoint)
    requires StoresAfter(inputs).memory.None? && StoresAfter(inputs + [Init(contract, Some(native))]).memory.Some?
    ensures var up := StoresAfter(inputs + [Init(contract, Some(native))]);
            && StoresAfter(inputs).disk.Some? && up.disk == up.memory
            && up.memory.value.committed.Some? && Agrees(up.memory.value.table, native.trials)
  {
    assert (inputs + [Init(contract, Some(native))])[..|inputs|] == inputs;
    if StoresAfter(inputs).disk.Some? {
      ReconciledAgain(StoresAfter(inputs).disk.value, native);
    }
  }

  /** Without a file a start succeeds exactly without a native checkpoint, and then with an empty table. */
  lemma AbsentFile(inputs: seq<Input>, contract: string, native: Option<Checkpoint>)
    requires StoresAfter(inputs).memory.None? && StoresAfter(inputs).disk.None?
    ensures var up := StoresAfter(inputs + [Init(contract, native)]);
            && (up.memory.Some? <==> native.None?)
            && (up.memory.Some? ==> up.memory == up.disk == Some(Snapshot(contract, None, None, None, [], [])))
            && (up.memory.None? ==> up.disk.None?)
  {
    assert (inputs + [Init(contract, native)])[..|inputs|] == inputs;
  }

  // ---- Without a checkpoint -------------------------------------------------------

  predicate Checkpointless(inputs: seq<Input>) {
    forall i :: 0 <= i < |inputs| ==> !(inputs[i].Deliver? && inputs[i].event.SendCheckpoint?)
  }

  /** The process that is up, if any, has been asked. */
  predicate OpenAsk(inputs: seq<Input>) {
    if inputs == [] then false
    else
      var before, last := inputs[..|inputs| - 1], inputs[|inputs| - 1];
      if last.Die? then false
      else OpenAsk(before) || (StoresAfter(before).memory.Some? && last.Deliver? && last.event.Ask?)
  }

  /** An event was saved by a process that had been asked; the ask itself is such an event unless its id was refused. */
  predicate KeptAsk(inputs: seq<Input>) {
    if inputs == [] then false
    else
      var before, last := inputs[..|inputs| - 1], inputs[|inputs| - 1];
      || KeptAsk(before)
      || (&& OpenAsk(inputs) && last.Deliver? && StoresAfter(before).memory.Some?
          && Respond(StoresAfter(before).memory.value, last.event).saved)
  }

  /** Without a checkpoint nothing is ever committed, and the tables are empty up to the asks. */
  lemma {:induction false} NothingCommitted(inputs: seq<Input>)
    requires Checkpointless(inputs)
    ensures var s := StoresAfter(inputs);
            && (s.disk.None? ==> s.memory.None? && !KeptAsk(inputs))
            && (s.disk.Some? ==> s.disk.value.committed.None? && (s.disk.value.table == [] <==> !KeptAsk(inputs)))
            && (s.memory.None? ==> !OpenAsk(inputs))
            && (s.memory.Some? ==>
                  && s.memory.value.committed.None?
                  && (s.memory.value.table == [] <==> !OpenAsk(inputs))
                  && (KeptAsk(inputs) ==> OpenAsk(inputs)))
  {
    if inputs != [] {
      var before, last := inputs[..|inputs| - 1], inputs[|inputs| - 1];
      NothingCommitted(before);
      if last.Deliver? && StoresAfter(before).memory.Some? {
        TableGrows(StoresAfter(before).memory.value, last.event);
      }
    }
  }

  lemma TableGrows(s: Snapshot, e: Event)
    requires !e.SendCheckpoint?
    ensures Respond(s, e).memory.committed == s.committed
    ensures Respond(s, e).memory.table == [] <==> s.table == [] && !e.Ask?
  {
  }

  /**
   * A host that never sends a checkpoint, as one without a checkpoint path, can start again only if
   * no process that had been asked saved anything.
   */
  lemma CheckpointlessRestart(inputs: seq<Input>, contract: string, native: Option<Checkpoint>)
    requires Checkpointless(inputs) && StoresAfter(inputs).disk.Some?
    ensures var d := StoresAfter(inputs).disk.value;
            Opened(Some(d), contract, native).Ok? <==> d.contract == contract && native.None? && !KeptAsk(inputs)
  {
    NothingCommitted(inputs);
  }

  /** An ask whose id is refused is not saved: if the process dies then, the adapter starts again. */
  lemma RefusedAskForgotten(contract: string, index: nat, proposal: Params)
    ensures var inputs := [Init(contract, None)] + [Deliver(Ask(index, proposal))] + [Die];
            && StoresAfter(inputs).memory.None? && StoresAfter(inputs).disk.Some?
            && (Opened(StoresAfter(inputs).disk, contract, None).Ok? <==> index != 0)
  {
    var one, two := [Init(contract, None)], [Init(contract, None)] + [Deliver(Ask(index, proposal))];
    assert one[..0] == [] && two[..1] == one && (two + [Die])[..2] == two;
    assert StoresAfter(one) == Stores(Some(Fresh(contract)), Some(Fresh(contract)));
  }
}
