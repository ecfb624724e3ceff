/**
 * The DAG host that drives the adapter, and the pair of them as a state machine
 * over single events: the process pair may die between any two of them.
 */
module HpoHost {
  import opened Results
  import opened HpoTrials
  import opened HpoAdapter

  /**
   * What stays fixed over one search: the adapter's contract, the checkpoint binding, and which
   * nonempty, named parameters `parameter_overrides` can route to the plan's nodes.
   */
  datatype Search = Search(contract: string, binding: string, routes: Params -> bool)

  /** The Unicode property White_Space, which `str::trim` strips. */
  predicate Blank(c: char) {
    || '\U{9}' <= c <= '\U{D}' || c == ' ' || c == '\U{85}' || c == '\U{A0}' || c == '\U{1680}'
    || '\U{2000}' <= c <= '\U{200A}' || c == '\U{2028}' || c == '\U{2029}' || c == '\U{202F}'
    || c == '\U{205F}' || c == '\U{3000}'
  }

  /** `str::trim` leaves something of every name. */
  predicate Named(params: Params) {
    forall name <- params.Keys :: exists c <- name :: !Blank(c)
  }

  /** `parameter_overrides` succeeds: what a proposal must be for the host to evaluate it. */
  predicate Admissible(search: Search, params: Params) {
    params != map[] && Named(params) && search.routes(params)
  }

  /** What the parameters of an interrupted trial must be: unlike a proposal's they may be missing. */
  predicate Resumable(search: Search, params: Params) {
    params == map[] || Admissible(search, params)
  }

  /** What `prepare_host_hpo_checkpoint` asks of the parameters of a checkpoint's trial. */
  predicate Admitted(search: Search, t: Terminal) {
    if t.params == map[] then IsInterrupted(t) else Admissible(search, t.params)
  }

  // ---- Resuming from the adapter's answer ---------------------------------

  datatype HostRefusal = PreparedDoesNotExtend | InterruptedNotContiguous | InterruptedWithoutNative | ParamsRefused

  function FailedTrials(orphans: seq<Orphan>): (r: seq<Terminal>)
    ensures |r| == |orphans|
  {
    seq(|orphans|, i requires 0 <= i < |orphans| => Failed(orphans[i].index, orphans[i].params, INTERRUPTED, ""))
  }

  predicate Contiguous(orphans: seq<Orphan>, from: nat) {
    forall j :: 0 <= j < |orphans| ==> orphans[j].index == from + j
  }

  predicate ExtendsByOne(prepared: Checkpoint, native: Checkpoint) {
    && prepared.binding == native.binding
    && |prepared.trials| == |native.trials| + 1
    && native.trials <= prepared.trials
    && prepared.trials[|native.trials|].index == |native.trials|
  }

  /** `recover_interrupted_trials`. */
  function RecoverInterrupted(native: Checkpoint, prepared: Option<Checkpoint>, interrupted: seq<Orphan>)
    : Result<Checkpoint, HostRefusal>
  {
    if prepared.Some? && !ExtendsByOne(prepared.value, native) then Err(PreparedDoesNotExtend)
    else
      var base := if prepared.Some? then prepared.value else native;
      if !Contiguous(interrupted, |base.trials|) || exists o <- interrupted :: !Named(o.params)
      then Err(InterruptedNotContiguous)
      else Ok(base.(trials := base.trials + FailedTrials(interrupted)))
  }

  /** The checkpoint that follows from the native file and the adapter's answer to init. */
  function Answered(search: Search, native: Option<Checkpoint>, recovery: Recovery): Result<Checkpoint, HostRefusal> {
    if native.Some? then RecoverInterrupted(native.value, recovery.prepared, recovery.interrupted)
    else if recovery.prepared.Some? || recovery.interrupted != [] then Err(InterruptedWithoutNative)
    else Ok(Checkpoint(search.binding, []))
  }

  predicate AllAdmitted(search: Search, trials: seq<Terminal>) {
    forall t <- trials :: Admitted(search, t)
  }

  /** The checkpoint the host resumes from: it checks the parameters of every trial first. */
  function Resumption(search: Search, native: Option<Checkpoint>, recovery: Recovery): Result<Checkpoint, HostRefusal> {
    var answered := Answered(search, native, recovery);
    if answered.Ok? && !AllAdmitted(search, answered.value.trials) then Err(ParamsRefused) else answered
  }

  // ---- The state machine ---------------------------------------------------

  /** A candidate that is not terminal in the host's checkpoint yet, and whether the adapter has pruned it. */
  datatype Candidate = Candidate(params: Params, pruned: bool)

  datatype Host =
    | Down
    | Resuming(resume: Checkpoint)
    | Searching(current: Checkpoint, pending: seq<Candidate>)
    | Prepared(next: Checkpoint, pending: seq<Candidate>)
    | Transitioned(next: Checkpoint, pending: seq<Candidate>)
    | Unpublished(next: Checkpoint, pending: seq<Candidate>)

  /** `disk` is the adapter's file, `native` the host's; `memory` is lost in a crash. */
  datatype System = System(host: Host, memory: Option<Snapshot>, disk: Option<Snapshot>, native: Option<Checkpoint>)

  datatype Action =
    | Start
    | AskNext(proposal: Params)
    | Report(offset: nat, prune: bool)
    | Prepare(terminal: Terminal)
    | Transition
    | Acknowledge
    | Publish
    | Crash

  const INITIAL := System(Down, None, None, None)

  predicate Running(s: System) {
    !s.host.Down? && s.memory.Some?
  }

  /**
   * When the host takes a step. A candidate whose evaluation failed is prepared as failed even
   * after the adapter has pruned it, and a reply lost to a timeout leaves the host in the dark:
   * nothing is assumed about the kind of terminal it prepares, nor about which trials it reports on.
   */
  predicate Enabled(s: System, a: Action) {
    match a
    case Start => s.host.Down?
    case AskNext(_) => Running(s) && s.host.Searching?
    case Report(offset, _) =>
      Running(s) && s.host.Searching? && offset < |s.host.pending|
    case Prepare(t) =>
      && Running(s) && s.host.Searching? && s.host.pending != []
      && t.index == |s.host.current.trials|
      && t.params == s.host.pending[0].params
    case Transition => Running(s) && s.host.Prepared? && s.host.next.trials != []
    case Acknowledge => Running(s) && (s.host.Resuming? || s.host.Transitioned? || s.host.Searching?)
    case Publish => Running(s) && s.host.Unpublished?
    case Crash => !s.host.Down?
  }

  function HostCheckpoint(host: Host): Checkpoint
    requires !host.Down?
  {
    match host
    case Resuming(resume) => resume
    case Searching(current, _) => current
    case Prepared(next, _) => next
    case Transitioned(next, _) => next
    case Unpublished(next, _) => next
  }

  function Pending(host: Host): seq<Candidate> {
    if host.Down? || host.Resuming? then [] else host.pending
  }

  /** The event the adapter receives for a step of a live host. */
  function EventOf(s: System, a: Action): Event
    requires Enabled(s, a) && !a.Start? && !a.Publish? && !a.Crash?
  {
    match a
    case AskNext(proposal) => Ask(|s.host.current.trials| + |s.host.pending|, proposal)
    case Report(offset, prune) => ReportIntermediate(|s.host.current.trials| + offset, prune)
    case Prepare(t) => PrepareTerminal(s.host.current.(trials := s.host.current.trials + [t]))
    case Transition =>
      (match s.host.next.trials[|s.host.next.trials| - 1]
       case Complete(index, _, score, _) => Tell(index, score)
       case Pruned(index, _, _) => ReportPruned(index)
       case Failed(index, _, _, _) => Fail(index))
    case Acknowledge => SendCheckpoint(HostCheckpoint(s.host))
  }

  /** Where the host stands once the adapter has accepted the event. */
  function Advanced(s: System, a: Action): Host
    requires Enabled(s, a) && !a.Start? && !a.Publish? && !a.Crash?
  {
    match a
    case AskNext(proposal) => Searching(s.host.current, s.host.pending + [Candidate(proposal, false)])
    case Report(offset, prune) =>
      Searching(s.host.current, s.host.pending[offset := s.host.pending[offset].(pruned := prune)])
    case Prepare(t) => Prepared(s.host.current.(trials := s.host.current.trials + [t]), s.host.pending)
    case Transition => Transitioned(s.host.next, if s.host.pending == [] then [] else s.host.pending[1..])
    case Acknowledge => Unpublished(HostCheckpoint(s.host), Pending(s.host))
  }

  function Apply(search: Search, s: System, a: Action): System
    requires Enabled(s, a)
  {
    match a
    case Start =>
      (match Opened(s.disk, search.contract, s.native)
       case Err(_) => s
       case Ok(recovery) =>
         var resume := Resumption(search, s.native, recovery);
         if resume.Err? then System(Down, None, Some(recovery.memory), s.native)
         else System(Resuming(resume.value), Some(recovery.memory), Some(recovery.memory), s.native))
    case Publish => s.(host := Searching(s.host.next, s.host.pending), native := Some(s.host.next))
    case Crash => s.(host := Down, memory := None)
    case _ =>
      var handled := Respond(s.memory.value, EventOf(s, a));
      // A refused report fails its candidate only, which is prepared in its turn. Any other
      // error reply ends the host, which takes the adapter process with it.
      if handled.reply.Error? && a.Report? then s
      else if handled.reply.Error? then s.(host := Down, memory := None)
      // The host looks at a proposal only after the adapter has saved it.
      else if a.AskNext? && !Admissible(search, a.proposal) then System(Down, None, Some(handled.memory), s.native)
      else s.(host := Advanced(s, a), memory := Some(handled.memory),
              disk := if handled.saved then Some(handled.memory) else s.disk)
  }

  /** The state after a whole run; a step that is not enabled changes nothing. */
  function After(search: Search, run: seq<Action>): System {
    if run == [] then INITIAL
    else
      var s := After(search, run[..|run| - 1]);
      var a := run[|run| - 1];
      if Enabled(s, a) then Apply(search, s, a) else s
  }
}
