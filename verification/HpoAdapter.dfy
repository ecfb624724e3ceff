/** The JSONL adapter that keeps the optimizer's file in step with the DAG host's checkpoints. */
module HpoAdapter {
  import opened Results
  import opened HpoTrials

  /** What `_save` writes: the state dictionary together with the serialised trial table. */
  datatype Snapshot = Snapshot(
    contract: string,
    committed: Option<Checkpoint>,
    previous: Option<Checkpoint>,
    prepared: Option<Checkpoint>,
    orphans: seq<Orphan>,
    table: seq<Trial>)

  datatype Refusal =
    | ContractDiffers
    | NativeWithoutState
    | StateWithoutNative
    | NativeUnpaired
    | UnexpectedTerminal
    | HistoriesDisagree
    | PreparedIndexMissing
    | PreparedParamsDisagree
    | PruneTransitionMissing
    | UnpairedTrial
    | TrialIdsDisagree
    | OptimizerRefused
    | NotPruned
    | Unsupported

  datatype Event =
    | Ask(index: nat, proposal: Params)
    | ReportIntermediate(index: nat, prune: bool)
    | PrepareTerminal(checkpoint: Checkpoint)
    | Tell(index: nat, score: Score)
    | ReportPruned(index: nat)
    | Fail(index: nat)
    | SendCheckpoint(checkpoint: Checkpoint)
    | Other(operation: string)

  datatype Reply = Params(params: Params) | Prune(prune: bool) | Acknowledged | Error(refusal: Refusal)

  /** The adapter after one event: its memory, whether it wrote that memory to its file, its reply. */
  datatype Handled = Handled(memory: Snapshot, saved: bool, reply: Reply)

  datatype Recovery = Recovery(memory: Snapshot, prepared: Option<Checkpoint>, interrupted: seq<Orphan>)

  function Fresh(contract: string): Snapshot {
    Snapshot(contract, None, None, None, [], [])
  }

  // ---- Specification of the recovery ------------------------------------

  predicate IsInterrupted(t: Terminal) {
    t.Failed? && t.error == INTERRUPTED
  }

  function OrphansOf(trials: seq<Terminal>): (r: seq<Orphan>)
    ensures |r| == |trials|
  {
    seq(|trials|, i requires 0 <= i < |trials| => Orphan(trials[i].index, trials[i].params))
  }

  /** The prospective checkpoint that recovery must finish, if there is one. */
  function ToFinish(s: Snapshot, native: Checkpoint): Option<Checkpoint> {
    if s.prepared.Some? && |s.prepared.value.trials| == |native.trials| + 1
       && (Some(native) == s.committed
           || (s.committed.Some? && s.prepared.value.trials <= s.committed.value.trials))
    then s.prepared
    else None
  }

  /** How many leading trials the native file and the prospective checkpoint account for. */
  function PairedCount(s: Snapshot, native: Checkpoint): nat {
    |native.trials| + (if ToFinish(s, native).Some? then 1 else 0)
  }

  /** The interrupted candidates that the file already accounts for. */
  function KnownInterrupted(s: Snapshot, native: Checkpoint): seq<Orphan> {
    if Some(native) == s.committed then s.orphans
    else if s.committed.Some? && PairedCount(s, native) <= |s.committed.value.trials|
    then OrphansOf(s.committed.value.trials[PairedCount(s, native)..])
    else []
  }

  /** The table after the transition that `_finish_prepared` supplies when the crash preceded it. */
  function Finished(table: seq<Trial>, prepared: Checkpoint): Result<seq<Trial>, Refusal>
    requires prepared.trials != []
  {
    var t := prepared.trials[|prepared.trials| - 1];
    if t.index >= |table| then Err(PreparedIndexMissing)
    else if table[t.index].params != t.params then Err(PreparedParamsDisagree)
    else
      var moved :=
        if table[t.index].status != RUNNING then Ok(table)
        else if t.Complete? then Ok(table[t.index := table[t.index].(status := COMPLETED, score := Some(t.score))])
        else if t.Failed? then Ok(table[t.index := table[t.index].(status := FAILED, score := None)])
        else Err(PruneTransitionMissing);
      if moved.Ok? && !Agrees(moved.value, prepared.trials) then Err(HistoriesDisagree) else moved
  }

  predicate StillRunning(table: seq<Trial>, from: nat) {
    forall k :: from <= k < |table| ==> table[k].id == k && table[k].status == RUNNING
  }

  function FailedFrom(table: seq<Trial>, from: nat): (r: seq<Trial>)
    ensures |r| == |table|
  {
    seq(|table|, i requires 0 <= i < |table| =>
      if i < from then table[i] else table[i].(status := FAILED, score := None))
  }

  function OrphansFrom(table: seq<Trial>, from: nat): (r: seq<Orphan>)
    ensures |r| == if from <= |table| then |table| - from else 0
  {
    if from <= |table|
    then seq(|table| - from, i requires 0 <= i < |table| - from => Orphan(from + i, table[from + i].params))
    else []
  }

  lemma OneMoreOrphan(records: seq<Trial>, start: nat, next: nat)
    requires start <= next < |records|
    ensures OrphansFrom(records[..next + 1], start)
         == OrphansFrom(records[..next], start) + [Orphan(next, records[next].params)]
  {
    var more, fewer := OrphansFrom(records[..next + 1], start), OrphansFrom(records[..next], start);
    forall i | 0 <= i < |fewer| ensures more[i] == fewer[i] {
      assert records[..next + 1][start + i] == records[..next][start + i];
    }
  }

  /** Why the two files cannot be paired at all, if they cannot. */
  function Unpairable(s: Snapshot, native: Checkpoint): Option<Refusal> {
    if Some(native) == s.committed then None
    else if Some(native) != s.previous || s.committed.None? then Some(NativeUnpaired)
    else if PairedCount(s, native) < |s.committed.value.trials|
            && exists t <- s.committed.value.trials[PairedCount(s, native)..] :: !IsInterrupted(t) then
      Some(UnexpectedTerminal)
    else None
  }

  /** The table once the native history and the prospective checkpoint have been checked and finished. */
  function Reconciled(s: Snapshot, native: Checkpoint): Result<seq<Trial>, Refusal> {
    if Unpairable(s, native).Some? then Err(Unpairable(s, native).value)
    else if !Agrees(s.table, native.trials) then Err(HistoriesDisagree)
    else if ToFinish(s, native).Some? then Finished(s.table, ToFinish(s, native).value)
    else Ok(s.table)
  }

  /** The first trial that neither file accounts for. */
  function Unaccounted(s: Snapshot, native: Checkpoint): nat {
    PairedCount(s, native) + |KnownInterrupted(s, native)|
  }

  /** The recovered adapter: every unaccounted trial becomes a failed orphan. */
  function Orphaned(s: Snapshot, native: Checkpoint, table: seq<Trial>): Recovery {
    var interrupted := KnownInterrupted(s, native) + OrphansFrom(table, Unaccounted(s, native));
    Recovery(s.(orphans := interrupted, table := FailedFrom(table, Unaccounted(s, native))),
             ToFinish(s, native), interrupted)
  }

  /** `_recover`: the adapter's state after a restart, or the reason it refuses to start. */
  function Recovered(s: Snapshot, native: Option<Checkpoint>): Result<Recovery, Refusal> {
    if native.None? then
      if s.committed.Some? || s.table != [] then Err(StateWithoutNative) else Ok(Recovery(s, None, []))
    else
      var table := Reconciled(s, native.value);
      if table.Err? then Err(table.error)
      else if !StillRunning(table.value, Unaccounted(s, native.value)) then Err(UnpairedTrial)
      else Ok(Orphaned(s, native.value, table.value))
  }

  /** `__init__`: what a restart does with the file it finds. */
  function Opened(file: Option<Snapshot>, contract: string, native: Option<Checkpoint>): Result<Recovery, Refusal> {
    if file.Some? then
      if file.value.contract != contract then Err(ContractDiffers) else Recovered(file.value, native)
    else if native.Some? then Err(NativeWithoutState)
    else Ok(Recovery(Fresh(contract), None, []))
  }

  // ---- Specification of one event ----------------------------------------

  function Respond(s: Snapshot, e: Event): Handled {
    match e
    case Ask(index, proposal) =>
      var asked := s.(table := s.table + [Trial(|s.table|, proposal, RUNNING, None)]);
      // The optimizer has advanced even when the ids turn out to differ.
      if |s.table| != index then Handled(asked, false, Error(TrialIdsDisagree))
      else Handled(asked, true, Reply.Params(proposal))
    case ReportIntermediate(index, prune) =>
      if index >= |s.table| || s.table[index].status != RUNNING then Handled(s, false, Error(OptimizerRefused))
      else if prune then Handled(s.(table := Moved(s.table, index, PRUNED, None).value), false, Prune(true))
      else Handled(s, false, Prune(false))
    case PrepareTerminal(checkpoint) =>
      Handled(s.(prepared := Some(checkpoint)), true, Acknowledged)
    case Tell(index, score) =>
      var moved := Moved(s.table, index, COMPLETED, Some(score));
      if moved.None? then Handled(s, false, Error(OptimizerRefused))
      else Handled(s.(table := moved.value), true, Acknowledged)
    case ReportPruned(index) =>
      if index < |s.table| && s.table[index].status == PRUNED then Handled(s, true, Acknowledged)
      else Handled(s, false, Error(NotPruned))
    case Fail(index) =>
      var moved := Moved(s.table, index, FAILED, None);
      if moved.None? then Handled(s, false, Error(OptimizerRefused))
      else Handled(s.(table := moved.value), true, Acknowledged)
    case SendCheckpoint(checkpoint) =>
      if !Agrees(s.table, checkpoint.trials) then Handled(s, false, Error(HistoriesDisagree))
      else Handled(s.(previous := s.committed, committed := Some(checkpoint), orphans := []), true, Acknowledged)
    case Other(_) => Handled(s, false, Error(Unsupported))
  }

  // ---- The adapter object -------------------------------------------------

  /** The file at `state_path`; one write replaces its whole content. */
  class StateFile {
    var content: Option<Snapshot>

    constructor ()
      ensures content == None
    {
      content := None;
    }

    method Replace(value: Snapshot)
      modifies this
      ensures content == Some(value)
    {
      content := Some(value);
    }
  }

  class N4MHostOptimizer {
    const file: StateFile
    const contract: string
    const optimizer: Optimizer
    var committed: Option<Checkpoint>
    var previous: Option<Checkpoint>
    var prepared: Option<Checkpoint>
    var orphans: seq<Orphan>
    var preparedOnInit: Option<Checkpoint>
    var interruptedOnInit: seq<Orphan>

    ghost function Memory(): Snapshot
      reads this, optimizer
    {
      Snapshot(contract, committed, previous, prepared, orphans, optimizer.trials)
    }

    constructor (file: StateFile, state: Snapshot)
      ensures this.file == file && fresh(optimizer)
      ensures Memory() == state
      ensures preparedOnInit == None && interruptedOnInit == []
    {
      this.file, contract := file, state.contract;
      committed, previous, prepared, orphans := state.committed, state.previous, state.prepared, state.orphans;
      preparedOnInit, interruptedOnInit := None, [];
      optimizer := new Optimizer(state.table);
    }

    /** Starts the adapter; a refusal leaves the file as it was. */
    static method Open(file: StateFile, contract: string, native: Option<Checkpoint>)
        returns (r: Result<N4MHostOptimizer, Refusal>)
      modifies file
      ensures r.Ok? == Opened(old(file.content), contract, native).Ok?
      ensures r.Err? ==> file.content == old(file.content)
                         && Opened(old(file.content), contract, native) == Err(r.error)
      ensures r.Ok? ==>
                var start := Opened(old(file.content), contract, native).value;
                && fresh(r.value) && fresh(r.value.optimizer) && r.value.file == file
                && r.value.Memory() == start.memory
                && file.content == Some(start.memory)
                && r.value.preparedOnInit == start.prepared
                && r.value.interruptedOnInit == start.interrupted
    {
      if file.content.Some? {
        if file.content.value.contract != contract {
          return Err(ContractDiffers);
        }
        var adapter := new N4MHostOptimizer(file, file.content.value);
        var refusal := adapter.Recover(native);
        if refusal.Some? {
          return Err(refusal.value);
        }
        return Ok(adapter);
      }
      if native.Some? {
        return Err(NativeWithoutState);
      }
      var adapter := new N4MHostOptimizer(file, Fresh(contract));
      adapter.Save();
      return Ok(adapter);
    }

    method Save()
      modifies file
      ensures file.content == Some(Memory())
    {
      file.Replace(Snapshot(contract, committed, previous, prepared, orphans, optimizer.trials));
    }

    method ValidateHistory(checkpoint: Checkpoint) returns (ok: bool)
      ensures ok == Agrees(optimizer.trials, checkpoint.trials)
    {
      var records, native := optimizer.trials, checkpoint.trials;
      if |records| < |native| {
        return false;
      }
      for index := 0 to |native|
        invariant forall i :: 0 <= i < index ==> Matches(records[i], native[i], i)
      {
        var terminal, record := native[index], records[index];
        if terminal.index != index || record.id != index || record.status != terminal.Status()
           || record.params != terminal.params
           || (terminal.Complete? && record.score != Some(terminal.score)) {
          assert !Matches(records[index], native[index], index);
          return false;
        }
      }
      return true;
    }

    method FinishPrepared(checkpoint: Checkpoint) returns (refusal: Option<Refusal>)
      requires checkpoint.trials != []
      modifies optimizer
      ensures refusal.None? == Finished(old(optimizer.trials), checkpoint).Ok?
      ensures match Finished(old(optimizer.trials), checkpoint)
              case Ok(table) => optimizer.trials == table
              case Err(e) => refusal == Some(e)
    {
      var terminal := checkpoint.trials[|checkpoint.trials| - 1];
      if terminal.index >= |optimizer.trials| {
        return Some(PreparedIndexMissing);
      }
      var record := optimizer.trials[terminal.index];
      if record.params != terminal.params {
        return Some(PreparedParamsDisagree);
      }
      if record.status == RUNNING {
        if terminal.Complete? {
          var _ := optimizer.TellResult(terminal.index, COMPLETED, Some(terminal.score));
        } else if terminal.Failed? {
          var _ := optimizer.TellResult(terminal.index, FAILED, None);
        } else {
          return Some(PruneTransitionMissing);
        }
      }
      var ok := ValidateHistory(checkpoint);
      return if ok then None else Some(HistoriesDisagree);
    }

    /** Fails every candidate left RUNNING, in order, and adds it to `interrupted`. */
    method FailOrphans(pairedCount: nat, known: seq<Orphan>) returns (ok: bool, interrupted: seq<Orphan>)
      modifies optimizer
      ensures var start := pairedCount + |known|;
              && ok == StillRunning(old(optimizer.trials), start)
              && (ok ==> optimizer.trials == FailedFrom(old(optimizer.trials), start))
              && (ok ==> interrupted == known + OrphansFrom(old(optimizer.trials), start))
    {
      hide OrphansFrom;
      var records := optimizer.trials;
      var start := pairedCount + |known|;
      interrupted := known;
      if |records| <= start {
        assert FailedFrom(records, start) == records;
        assert OrphansFrom(records, start) == [];
        return true, known;
      }
      var next := start;
      while next < |records|
        invariant start <= next <= |records|
        invariant interrupted == known + OrphansFrom(records[..next], start)
        invariant forall k :: start <= k < next ==> records[k].id == k && records[k].status == RUNNING
        invariant |optimizer.trials| == |records|
        invariant forall k :: 0 <= k < |records| ==>
                    optimizer.trials[k]
                    == if start <= k < next then records[k].(status := FAILED, score := None) else records[k]
      {
        var record := records[next];
        if record.id != pairedCount + |interrupted| || record.status != RUNNING {
          return false, interrupted;
        }
        var told := optimizer.TellResult(record.id, FAILED, None);
        interrupted := interrupted + [Orphan(record.id, record.params)];
        OneMoreOrphan(records, start, next);
        next := next + 1;
      }
      assert records[..next] == records;
      assert optimizer.trials == FailedFrom(records, start);
      ok := true;
    }

    /** The trials of a committed tail, where every one of them was interrupted. */
    static method InterruptedTail(tail: seq<Terminal>) returns (all: bool, interrupted: seq<Orphan>)
      ensures all <==> forall t <- tail :: IsInterrupted(t)
      ensures all ==> interrupted == OrphansOf(tail)
    {
      interrupted := [];
      for i := 0 to |tail|
        invariant interrupted == OrphansOf(tail[..i])
        invariant forall j :: 0 <= j < i ==> IsInterrupted(tail[j])
      {
        if !IsInterrupted(tail[i]) {
          assert tail[i] in tail;
          return false, interrupted;
        }
        interrupted := interrupted + [Orphan(tail[i].index, tail[i].params)];
      }
      assert tail[..|tail|] == tail;
      all := true;
    }

    /** First half of `_recover`: which prospective checkpoint and which interrupted trials the files tell of. */
    method Pair(native: Checkpoint)
        returns (refusal: Option<Refusal>, recover: Option<Checkpoint>, interrupted: seq<Orphan>)
      ensures refusal == Unpairable(Memory(), native)
      ensures refusal.None? ==>
                recover == ToFinish(Memory(), native) && interrupted == KnownInterrupted(Memory(), native)
    {
      hide IsInterrupted;
      refusal, recover, interrupted := None, None, [];
      if Some(native) == committed {
        recover := if prepared.Some? && |prepared.value.trials| == |native.trials| + 1 then prepared else None;
        interrupted := orphans;
      } else if Some(native) == previous && committed.Some? {
        recover := if prepared.Some? && |prepared.value.trials| == |native.trials| + 1
                      && prepared.value.trials <= committed.value.trials
                   then prepared else None;
        var baseCount := if recover.Some? then |recover.value.trials| else |native.trials|;
        var tail := if baseCount <= |committed.value.trials| then committed.value.trials[baseCount..] else [];
        var all;
        all, interrupted := InterruptedTail(tail);
        if !all {
          return Some(UnexpectedTerminal), None, [];
        }
      } else {
        refusal := Some(NativeUnpaired);
      }
    }

    /** Second step of `_recover`: check the native history and finish the prospective trial. */
    method Reconcile(native: Checkpoint)
        returns (refusal: Option<Refusal>, recover: Option<Checkpoint>, interrupted: seq<Orphan>)
      modifies optimizer
      ensures match Reconciled(old(Memory()), native)
              case Ok(table) =>
                && refusal == None && optimizer.trials == table
                && recover == ToFinish(old(Memory()), native)
                && interrupted == KnownInterrupted(old(Memory()), native)
              case Err(e) => refusal == Some(e)
    {
      refusal, recover, interrupted := Pair(native);
      if refusal.Some? {
        return;
      }
      var ok := ValidateHistory(native);
      if !ok {
        return Some(HistoriesDisagree), None, [];
      }
      if recover.Some? {
        refusal := FinishPrepared(recover.value);
      }
    }

    method Recover(native: Option<Checkpoint>) returns (refusal: Option<Refusal>)
      modifies this, optimizer, file
      ensures match Recovered(old(Memory()), native)
              case Ok(recovery) =>
                && refusal == None
                && Memory() == recovery.memory
                && preparedOnInit == recovery.prepared
                && interruptedOnInit == recovery.interrupted
                && file.content == (if native.None? then old(file.content) else Some(Memory()))
              case Err(e) => refusal == Some(e) && file.content == old(file.content)
    {
      hide Reconciled, FailedFrom, OrphansFrom, KnownInterrupted, StillRunning;
      if native.None? {
        if committed.Some? || optimizer.trials != [] {
          return Some(StateWithoutNative);
        }
        preparedOnInit, interruptedOnInit := None, [];
        return None;
      }
      ghost var before := Memory();
      var recover, interrupted;
      refusal, recover, interrupted := Reconcile(native.value);
      if refusal.Some? {
        return;
      }
      ghost var table := optimizer.trials;
      assert Reconciled(before, native.value) == Ok(table);
      var pairedCount := if recover.Some? then |recover.value.trials| else |native.value.trials|;
      assert pairedCount + |interrupted| == Unaccounted(before, native.value);
      var ok;
      ok, interrupted := FailOrphans(pairedCount, interrupted);
      if !ok {
        return Some(UnpairedTrial);
      }
      orphans := interrupted;
      assert Memory() == Orphaned(before, native.value, table).memory;
      Save();
      preparedOnInit, interruptedOnInit := recover, interrupted;
      return None;
    }

    method Handle(e: Event) returns (reply: Reply)
      modifies this, optimizer, file
      ensures var h := Respond(old(Memory()), e);
              && reply == h.reply
              && Memory() == h.memory
              && file.content == (if h.saved then Some(h.memory) else old(file.content))
    {
      match e
      case Ask(index, proposal) =>
        var trial := optimizer.Ask(proposal);
        if trial.id != index {
          return Error(TrialIdsDisagree);
        }
        Save();
        return Reply.Params(trial.params);
      case ReportIntermediate(index, prune) =>
        if index >= |optimizer.trials| || optimizer.trials[index].status != RUNNING {
          return Error(OptimizerRefused);
        }
        if prune {
          var _ := optimizer.TellResult(index, PRUNED, None);
        }
        return Prune(prune);
      case PrepareTerminal(checkpoint) =>
        prepared := Some(checkpoint);
        Save();
        return Acknowledged;
      case Tell(index, score) =>
        var ok := optimizer.TellResult(index, COMPLETED, Some(score));
        if !ok {
          return Error(OptimizerRefused);
        }
        Save();
        return Acknowledged;
      case ReportPruned(index) =>
        if index >= |optimizer.trials| || optimizer.trials[index].status != PRUNED {
          return Error(NotPruned);
        }
        Save();
        return Acknowledged;
      case Fail(index) =>
        var ok := optimizer.TellResult(index, FAILED, None);
        if !ok {
          return Error(OptimizerRefused);
        }
        Save();
        return Acknowledged;
      case SendCheckpoint(checkpoint) =>
        var ok := ValidateHistory(checkpoint);
        if !ok {
          return Error(HistoriesDisagree);
        }
        previous, committed, orphans := committed, Some(checkpoint), [];
        Save();
        return Acknowledged;
      case Other(operation) =>
        return Error(Unsupported);
    }
  }
}
