/** The optimizer's trial table and the DAG host's checkpoint documents. */
module HpoTrials {
  import opened Results

  datatype ParamValue = IntValue(i: int) | FloatValue(f: real) | Choice(name: string)
  type Params = map<string, ParamValue>
  type Score = real

  datatype TrialStatus = RUNNING | COMPLETED | PRUNED | FAILED

  /** One record of `Optimizer.get_trials()`. */
  datatype Trial = Trial(id: nat, params: Params, status: TrialStatus, score: Option<Score>)

  /** One entry of a checkpoint's `trials`; `evidence` stands for the fields nobody reads here. */
  datatype Terminal =
    | Complete(index: nat, params: Params, score: Score, evidence: string)
    | Pruned(index: nat, params: Params, evidence: string)
    | Failed(index: nat, params: Params, error: string, evidence: string)
  {
    function Status(): TrialStatus {
      match this
      case Complete(_, _, _, _) => COMPLETED
      case Pruned(_, _, _) => PRUNED
      case Failed(_, _, _, _) => FAILED
    }
  }

  /** `binding` stands for the schema version and every fingerprint but the seal, which is a function of the rest. */
  datatype Checkpoint = Checkpoint(binding: string, trials: seq<Terminal>)

  /** An entry of `recovering_orphans`, which is also the shape of an `interrupted` reply entry. */
  datatype Orphan = Orphan(index: nat, params: Params)

  const INTERRUPTED := "interrupted_before_native_evaluation"

  /** The table after trial `index` leaves RUNNING, or None where the optimizer raises. */
  function Moved(table: seq<Trial>, index: nat, status: TrialStatus, score: Option<Score>): (r: Option<seq<Trial>>)
  {
    if index < |table| && table[index].status == RUNNING
    then Some(table[index := table[index].(status := status, score := score)])
    else None
  }

  /** Trial `i` of the table carries exactly the outcome that the checkpoint entry `t` claims for index `i`. */
  predicate Matches(trial: Trial, t: Terminal, i: nat) {
    && t.index == i
    && trial.id == i
    && trial.status == t.Status()
    && trial.params == t.params
    && (t.Complete? ==> trial.score == Some(t.score))
  }

  predicate Agrees(table: seq<Trial>, trials: seq<Terminal>) {
    && |trials| <= |table|
    && forall i :: 0 <= i < |trials| ==> Matches(table[i], trials[i], i)
  }

  /** `later` is a possible future of `table`: ids and parameters stay, finished trials are frozen. */
  ghost predicate Extends(table: seq<Trial>, later: seq<Trial>) {
    && |table| <= |later|
    && forall i :: 0 <= i < |table| ==>
         && table[i].id == later[i].id
         && table[i].params == later[i].params
         && (table[i].status != RUNNING ==> table[i] == later[i])
  }

  lemma ExtendsTransitive(a: seq<Trial>, b: seq<Trial>, c: seq<Trial>)
    requires Extends(a, b) && Extends(b, c)
    ensures Extends(a, c)
  {
    forall i | 0 <= i < |a|
      ensures a[i].id == c[i].id && a[i].params == c[i].params && (a[i].status != RUNNING ==> a[i] == c[i])
    {
      assert a[i].id == b[i].id && b[i].id == c[i].id;
    }
  }

  lemma AgreesExtends(table: seq<Trial>, later: seq<Trial>, trials: seq<Terminal>)
    requires Agrees(table, trials) && Extends(table, later)
    ensures Agrees(later, trials)
  {
    forall i | 0 <= i < |trials| ensures Matches(later[i], trials[i], i) {
      assert Matches(table[i], trials[i], i);
      assert table[i] == later[i];
    }
  }

  /**
   * The n4m optimizer as far as the adapter can see it: a table in which only
   * RUNNING trials move. The proposal and the pruning decision come from the
   * sampler and the pruner, so they are inputs here.
   */
  class Optimizer {
    var trials: seq<Trial>

    /** `Optimizer.load(raw)`; a fresh optimizer has no trials. */
    constructor (saved: seq<Trial>)
      ensures trials == saved
    {
      trials := saved;
    }

    method Ask(proposal: Params) returns (trial: Trial)
      modifies this
      ensures trial == Trial(|old(trials)|, proposal, RUNNING, None)
      ensures trials == old(trials) + [trial]
    {
      trial := Trial(|trials|, proposal, RUNNING, None);
      trials := trials + [trial];
    }

    method TellResult(index: nat, status: TrialStatus, score: Option<Score>) returns (ok: bool)
      modifies this
      ensures ok == Moved(old(trials), index, status, score).Some?
      ensures trials == if ok then Moved(old(trials), index, status, score).value else old(trials)
    {
      ok := index < |trials| && trials[index].status == RUNNING;
      if ok {
        trials := trials[index := trials[index].(status := status, score := score)];
      }
    }
  }
}
