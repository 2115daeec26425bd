/** internal/agent/subagent_runtime.go: the result barrier of RunSubAgentGroup, its bounded queue, the fixed workers
    and the group semaphore, as a machine of atomic steps.  Every choice the source leaves open is a step of its own:
    the moment a context is cancelled, which ready case a select takes, how an execution ends, whether a save fails,
    and all work that other groups put through the same queue and workers. */
module GroupScheduler {

  datatype Policy = AllOrNothing | BestEffort | RequireMinimum

  /** The terminal states a run can be collected in. */
  datatype Status = Completed | Failed | Cancelled | Expired

  /** How a run ended; `started` is whether its StartedAt was ever set. */
  datatype Outcome = Outcome(status: Status, started: bool)

  /** The accepted request (runs are named by their ordinal) and the manager's fixed bounds. */
  datatype Plan = Plan(deps: seq<seq<nat>>, policy: Policy, minimum: nat, queueSize: nat, workers: nat, concurrency: nat)

  datatype ContextError = NoError | Canceled | DeadlineExceeded

  /** A slot of the manager's queue.  Foreign work belongs to some other group. */
  datatype Entry = Own(run: nat) | Foreign

  datatype Result = Result(run: nat, outcome: Outcome)

  /** Where the barrier's goroutine is: inside scheduleReady before run `next` (`again` during the call that precedes
      the loop), at the select, or past the loop. */
  datatype Phase = Scanning(next: nat, again: bool) | Selecting | Finished

  datatype State = State(
    phase: Phase,
    scheduled: set<nat>,
    resolved: set<nat>,
    dependencyResults: map<nat, Outcome>,
    queue: seq<Entry>,
    waiting: multiset<nat>,
    executing: multiset<nat>,
    foreignBusy: nat,
    results: seq<Result>,
    completed: seq<Result>,
    parentError: ContextError,
    groupError: ContextError,
    parentArmed: bool,
    groupArmed: bool)

  /** What the manager's constructor and the request validation guarantee. */
  ghost predicate ValidPlan(plan: Plan) {
    && plan.queueSize > 0 && plan.workers > 0 && plan.concurrency > 0
    && (forall i, d | 0 <= i < |plan.deps| && d in plan.deps[i] :: d < |plan.deps|)
  }

  /** A rank that puts every dependency strictly below its dependant. */
  ghost predicate Ranked(plan: Plan, rank: seq<nat>) {
    && |rank| == |plan.deps|
    && forall i, d | 0 <= i < |plan.deps| && d in plan.deps[i] :: d < |plan.deps| && rank[d] < rank[i]
  }

  function Initial(): State {
    State(Scanning(0, true), {}, {}, map[], [], multiset{}, multiset{}, 0, [], [], NoError, NoError, true, true)
  }

  function Pending(plan: Plan, s: State): set<nat> {
    set i | 0 <= i < |plan.deps| && i !in s.scheduled && i !in s.resolved
  }

  predicate IsPending(plan: Plan, s: State, i: nat) {
    i < |plan.deps| && i !in s.scheduled && i !in s.resolved
  }

  predicate DependenciesKnown(plan: Plan, s: State, i: nat)
    requires i < |plan.deps|
  {
    forall d | d in plan.deps[i] :: d in s.dependencyResults
  }

  predicate DependenciesCompleted(plan: Plan, s: State, i: nat)
    requires i < |plan.deps|
  {
    forall d | d in plan.deps[i] :: d in s.dependencyResults && s.dependencyResults[d].status == Completed
  }

  /** Runs of this group in a stretch of the queue, and in a stretch of results. */
  function OwnRuns(queue: seq<Entry>): multiset<nat> {
    if queue == [] then multiset{}
    else (if queue[0].Own? then multiset{queue[0].run} else multiset{}) + OwnRuns(queue[1..])
  }

  function RunsOf(results: seq<Result>): multiset<nat> {
    if results == [] then multiset{} else multiset{results[0].run} + RunsOf(results[1..])
  }

  function CountCompleted(results: seq<Result>): nat {
    if results == [] then 0
    else (if results[0].outcome.status == Completed then 1 else 0) + CountCompleted(results[1..])
  }

  function Idle(plan: Plan, s: State): int {
    plan.workers - |s.waiting| - |s.executing| - s.foreignBusy
  }

  // ----- The steps -----

  datatype Step =
    | ScanRun(aborted: bool, persisted: bool)
    | ScanEnd
    | Collect(lost: set<nat>)
    | ObserveParent(lost: set<nat>)
    | ObserveGroup(lost: set<nat>)
    | Dequeue
    | Acquire(run: nat)
    | AbandonWait(run: nat)
    | Finish(run: nat, status: Status)
    | ForeignEnqueue
    | ForeignDequeue
    | ForeignFinish
    | CancelParent(reason: ContextError)
    | CancelGroup(reason: ContextError)

  /** Steps of the barrier and of the workers that carry this group's runs. */
  predicate IsOwnStep(step: Step) {
    !(step.ForeignEnqueue? || step.ForeignDequeue? || step.ForeignFinish? || step.CancelParent? || step.CancelGroup?)
  }

  function CancelledStatus(reason: ContextError): Status {
    if reason == DeadlineExceeded then Expired else Cancelled
  }

  /** finishQueuedRun: the requested terminal state, or Failed when it could not be persisted. */
  function QueuedOutcome(requested: Status, persisted: bool): Outcome {
    Outcome(if persisted then requested else Failed, false)
  }

  function Send(s: State, run: nat, outcome: Outcome): State {
    s.(results := s.results + [Result(run, outcome)])
  }

  /** The three lines that end a run which never reached a worker. */
  function Settle(s: State, run: nat, outcome: Outcome): State {
    Send(s.(resolved := s.resolved + {run}, dependencyResults := s.dependencyResults[run := outcome]), run, outcome)
  }

  /** The loop of cancelPending; `lost` are the runs whose terminal state could not be persisted. */
  function SettlePending(plan: Plan, s: State, from: nat, lost: set<nat>): State
    requires from <= |plan.deps|
    decreases |plan.deps| - from
  {
    if from == |plan.deps| then s
    else if IsPending(plan, s, from) then
      SettlePending(plan, Settle(s, from, QueuedOutcome(Cancelled, from !in lost)), from + 1, lost)
    else SettlePending(plan, s, from + 1, lost)
  }

  function CancelPending(plan: Plan, s: State, lost: set<nat>): State {
    SettlePending(plan, if s.groupError == NoError then s.(groupError := Canceled) else s, 0, lost)
  }

  /** The condition of the barrier's loop. */
  function LoopHead(plan: Plan, s: State): State {
    s.(phase := if |s.completed| < |plan.deps| then Scanning(0, false) else Finished)
  }

  function ScanOne(plan: Plan, s: State, aborted: bool, persisted: bool): State
    requires s.phase.Scanning? && s.phase.next < |plan.deps|
  {
    var i := s.phase.next;
    var t := s.(phase := s.phase.(next := i + 1));
    if i in s.resolved || i in s.scheduled || !DependenciesKnown(plan, s, i) then t
    else if !DependenciesCompleted(plan, s, i) then Settle(t, i, Outcome(Failed, false))
    else if aborted then Settle(t, i, QueuedOutcome(CancelledStatus(s.groupError), persisted))
    else t.(scheduled := s.scheduled + {i}, queue := s.queue + [Own(i)])
  }

  /** The barrier receives the oldest result and records it. */
  function Receive(s: State): State
    requires s.results != []
  {
    var item := s.results[0];
    s.(results := s.results[1..], resolved := s.resolved + {item.run},
       dependencyResults := s.dependencyResults[item.run := item.outcome], completed := s.completed + [item])
  }

  /** Receiving a result, followed by what the failure policy does with the runs not yet started. */
  function Collected(plan: Plan, s: State, lost: set<nat>): State
    requires s.results != []
  {
    var t := Receive(s);
    if s.results[0].outcome.status != Completed && plan.policy == AllOrNothing then CancelPending(plan, t, lost)
    else if plan.policy == RequireMinimum && plan.minimum > 0 && CountCompleted(t.completed) >= plan.minimum then CancelPending(plan, t, lost)
    else t
  }

  /** A result is sent on a channel whose buffer holds as many results as the group has runs. */
  predicate CanSend(plan: Plan, s: State) {
    |s.results| < |plan.deps|
  }

  predicate Enabled(plan: Plan, s: State, step: Step) {
    match step
    case ScanRun(aborted, _) =>
      && s.phase.Scanning? && s.phase.next < |plan.deps|
      && var i := s.phase.next;
         (IsPending(plan, s, i) && DependenciesKnown(plan, s, i) ==>
           if !DependenciesCompleted(plan, s, i) then CanSend(plan, s)
           else if aborted then s.groupError != NoError && CanSend(plan, s)
           else |s.queue| < plan.queueSize)
    case ScanEnd => s.phase.Scanning? && s.phase.next == |plan.deps|
    case Collect(_) => s.phase == Selecting && s.results != []
    case ObserveParent(_) => s.phase == Selecting && s.parentArmed && s.parentError != NoError
    case ObserveGroup(_) => s.phase == Selecting && s.groupArmed && s.groupError != NoError
    case Dequeue => Idle(plan, s) > 0 && s.queue != [] && s.queue[0].Own? && (s.groupError != NoError ==> CanSend(plan, s))
    case Acquire(run) => run in s.waiting && |s.executing| < plan.concurrency
    case AbandonWait(run) => run in s.waiting && s.groupError != NoError && CanSend(plan, s)
    case Finish(run, status) =>
      && run in s.executing && CanSend(plan, s)
      && (status == Cancelled ==> s.groupError == Canceled)
      && (status == Expired ==> s.groupError == DeadlineExceeded)
    case ForeignEnqueue => |s.queue| < plan.queueSize
    case ForeignDequeue => Idle(plan, s) > 0 && s.queue != [] && s.queue[0].Foreign?
    case ForeignFinish => s.foreignBusy > 0
    case CancelParent(reason) => s.parentError == NoError && reason != NoError
    case CancelGroup(reason) => s.groupError == NoError && reason != NoError
  }

  function Next(plan: Plan, s: State, step: Step): State
    requires Enabled(plan, s, step)
  {
    match step
    case ScanRun(aborted, persisted) => ScanOne(plan, s, aborted, persisted)
    case ScanEnd => if s.phase.again then LoopHead(plan, s) else s.(phase := Selecting)
    case Collect(lost) => LoopHead(plan, Collected(plan, s, lost))
    case ObserveParent(lost) => LoopHead(plan, CancelPending(plan, s.(parentArmed := false), lost))
    case ObserveGroup(lost) => LoopHead(plan, CancelPending(plan, s.(groupArmed := false), lost))
    case Dequeue =>
      var run := s.queue[0].run;
      var t := s.(queue := s.queue[1..]);
      if s.groupError != NoError then Send(t, run, Outcome(CancelledStatus(s.groupError), false))
      else t.(waiting := s.waiting + multiset{run})
    case Acquire(run) => s.(waiting := s.waiting - multiset{run}, executing := s.executing + multiset{run})
    case AbandonWait(run) =>
      Send(s.(waiting := s.waiting - multiset{run}), run, Outcome(CancelledStatus(s.groupError), false))
    case Finish(run, status) => Send(s.(executing := s.executing - multiset{run}), run, Outcome(status, true))
    case ForeignEnqueue => s.(queue := s.queue + [Foreign])
    case ForeignDequeue => s.(queue := s.queue[1..], foreignBusy := s.foreignBusy + 1)
    case ForeignFinish => s.(foreignBusy := s.foreignBusy - 1)
    case CancelParent(reason) => s.(parentError := reason, groupError := if s.groupError == NoError then reason else s.groupError)
    case CancelGroup(reason) => s.(groupError := reason)
  }

  // ----- The invariant -----

  /** How often a run occurs in the places a run can be. */
  function Tokens(plan: Plan, s: State, i: nat): nat {
    (if IsPending(plan, s, i) then 1 else 0) + OwnRuns(s.queue)[i] + s.waiting[i] + s.executing[i]
    + RunsOf(s.results)[i] + RunsOf(s.completed)[i]
  }

  /** Every run of the group is in exactly one place, and nothing else is anywhere. */
  ghost predicate Conserved(plan: Plan, s: State) {
    forall i: nat :: Tokens(plan, s, i) == if i < |plan.deps| then 1 else 0
  }

  /** A run handed to the workers has no result yet and all its dependencies were collected as completed. */
  ghost predicate Dispatched(plan: Plan, s: State, i: nat) {
    i < |plan.deps| && i in s.scheduled && i !in s.resolved && DependenciesCompleted(plan, s, i)
  }

  ghost predicate WorkIsDispatched(plan: Plan, s: State) {
    && (forall i | i in OwnRuns(s.queue) :: Dispatched(plan, s, i))
    && (forall i | i in s.waiting :: Dispatched(plan, s, i))
    && (forall i | i in s.executing :: Dispatched(plan, s, i))
  }

  /** What a sent result says: a run that started or completed had all its dependencies completed; a run that was
      settled without a worker was recorded at once and is not completed. */
  ghost predicate SoundResult(plan: Plan, s: State, r: Result) {
    && r.run < |plan.deps|
    && (r.outcome.status == Completed ==> r.outcome.started)
    && (r.outcome.started ==> DependenciesCompleted(plan, s, r.run))
  }

  ghost predicate Buffered(plan: Plan, s: State, r: Result) {
    && SoundResult(plan, s, r)
    && (r.run in s.dependencyResults ==> !r.outcome.started && s.dependencyResults[r.run] == r.outcome)
    && (r.run !in s.dependencyResults ==> r.run in s.scheduled)
  }

  ghost predicate IsCollected(plan: Plan, s: State, r: Result) {
    SoundResult(plan, s, r) && r.run in s.dependencyResults && s.dependencyResults[r.run] == r.outcome
  }

  ghost predicate ResultsAreSound(plan: Plan, s: State) {
    && (forall k | 0 <= k < |s.results| :: Buffered(plan, s, s.results[k]))
    && (forall k | 0 <= k < |s.completed| :: IsCollected(plan, s, s.completed[k]))
  }

  /** Every recorded dependency result is a result that was sent. */
  ghost predicate RecordsAreResults(plan: Plan, s: State) {
    && s.dependencyResults.Keys == s.resolved
    && (forall d | d in s.resolved :: d < |plan.deps| && (d in RunsOf(s.results) || d in RunsOf(s.completed)))
  }

  ghost predicate WithinBounds(plan: Plan, s: State) {
    && |s.queue| <= plan.queueSize
    && |s.waiting| + |s.executing| + s.foreignBusy <= plan.workers
    && |s.executing| <= plan.concurrency
    && (s.parentError != NoError ==> s.groupError != NoError)
  }

  /** A pending run that scheduleReady has passed over lacks the result of a dependency, or a dependency's result is
      still in the buffer, so that another pass will follow. */
  ghost predicate Blocked(plan: Plan, s: State, i: nat)
    requires i < |plan.deps|
  {
    exists d :: d in plan.deps[i] && (d !in s.dependencyResults || d in RunsOf(s.results))
  }

  /** The number of runs the current pass of scheduleReady has behind it. */
  function Passed(plan: Plan, s: State): nat {
    match s.phase case Scanning(next, _) => next case Selecting => |plan.deps| case Finished => 0
  }

  ghost predicate PassIsThorough(plan: Plan, s: State) {
    && Passed(plan, s) <= |plan.deps|
    && (forall i | 0 <= i < Passed(plan, s) && IsPending(plan, s, i) :: Blocked(plan, s, i))
    && (s.phase == Selecting || (s.phase.Scanning? && !s.phase.again) ==> |s.completed| < |plan.deps|)
    && (s.phase == Finished ==> |s.completed| == |plan.deps|)
  }

  /** Everything but the position of the barrier. */
  ghost predicate Core(plan: Plan, s: State) {
    && Conserved(plan, s)
    && WorkIsDispatched(plan, s)
    && ResultsAreSound(plan, s)
    && RecordsAreResults(plan, s)
    && WithinBounds(plan, s)
  }

  ghost predicate Inv(plan: Plan, s: State) {
    Core(plan, s) && PassIsThorough(plan, s)
  }
}
