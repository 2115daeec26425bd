/** internal/agent/subagent_runtime.go: what holds of the result barrier in every run of the machine of
    GroupScheduler, for every accepted plan and every interleaving. */
module GroupBarrier {
  import opened GroupScheduler

  // ----- Bags of runs -----

  lemma {:induction false} OwnRunsAppend(queue: seq<Entry>, entry: Entry)
    ensures OwnRuns(queue + [entry]) == OwnRuns(queue) + (if entry.Own? then multiset{entry.run} else multiset{})
  {
    if queue == [] {
      assert queue + [entry] == [entry];
    } else {
      assert (queue + [entry])[1..] == queue[1..] + [entry];
      OwnRunsAppend(queue[1..], entry);
    }
  }

  lemma {:induction false} RunsOfAppend(results: seq<Result>, r: Result)
    ensures RunsOf(results + [r]) == RunsOf(results) + multiset{r.run}
  {
    if results == [] {
      assert results + [r] == [r];
    } else {
      assert (results + [r])[1..] == results[1..] + [r];
      RunsOfAppend(results[1..], r);
    }
  }

  lemma {:induction false} RunsOfSize(results: seq<Result>)
    ensures |RunsOf(results)| == |results|
  {
    if results != [] {
      RunsOfSize(results[1..]);
    }
  }

  lemma {:induction false} RunsOfMember(results: seq<Result>, k: nat)
    requires k < |results|
    ensures results[k].run in RunsOf(results)
  {
    if k > 0 {
      RunsOfMember(results[1..], k - 1);
    }
  }

  lemma {:induction false} RunsOfIndex(results: seq<Result>, i: nat) returns (k: nat)
    requires i in RunsOf(results)
    ensures k < |results| && results[k].run == i
  {
    if results[0].run == i {
      k := 0;
    } else {
      k := RunsOfIndex(results[1..], i);
      k := k + 1;
    }
  }

  function Ordinals(n: nat): set<nat> {
    if n == 0 then {} else Ordinals(n - 1) + {n - 1}
  }

  lemma {:induction false} OrdinalsSize(n: nat)
    ensures |Ordinals(n)| == n && forall i: nat :: i in Ordinals(n) <==> i < n
  {
    if n > 0 {
      OrdinalsSize(n - 1);
    }
  }

  /** Conservation counted: the runs of the group are split between the places a run can be. */
  lemma Census(plan: Plan, s: State)
    requires Conserved(plan, s)
    ensures |Pending(plan, s)| + |OwnRuns(s.queue)| + |s.waiting| + |s.executing| + |s.results| + |s.completed| == |plan.deps|
  {
    var pending := multiset(Pending(plan, s));
    var rest := OwnRuns(s.queue) + s.waiting + s.executing + RunsOf(s.results) + RunsOf(s.completed);
    var all := multiset(Ordinals(|plan.deps|));
    OrdinalsSize(|plan.deps|);
    forall i: nat ensures (pending + rest)[i] == all[i] {
      assert Tokens(plan, s, i) == if i < |plan.deps| then 1 else 0;
      assert i in Pending(plan, s) <==> IsPending(plan, s, i);
    }
    assert pending + rest == all;
    assert |pending| == |Pending(plan, s)| && |all| == |plan.deps|;
    assert |pending + rest| == |pending| + |rest|;
    RunsOfSize(s.results);
    RunsOfSize(s.completed);
  }

  // ----- Every step keeps the invariant -----

  lemma InitialHolds(plan: Plan)
    ensures Inv(plan, Initial())
  {
  }

  /** What stays true when dependency results are only added. */
  lemma RecordsOnlyGrow(plan: Plan, s: State, t: State)
    requires forall d | d in s.dependencyResults :: d in t.dependencyResults && t.dependencyResults[d] == s.dependencyResults[d]
    ensures forall i | 0 <= i < |plan.deps| && DependenciesCompleted(plan, s, i) :: DependenciesCompleted(plan, t, i)
  {
  }

  /** A run at one place is at no other. */
  lemma OnePlace(plan: Plan, s: State, i: nat)
    requires Conserved(plan, s)
    ensures IsPending(plan, s, i) ==> i !in OwnRuns(s.queue) && i !in s.waiting && i !in s.executing
    ensures IsPending(plan, s, i) || i in OwnRuns(s.queue) || i in s.waiting || i in s.executing ==>
              && (forall k | 0 <= k < |s.results| :: s.results[k].run != i)
              && (forall k | 0 <= k < |s.completed| :: s.completed[k].run != i)
  {
    assert Tokens(plan, s, i) <= 1;
    forall k | 0 <= k < |s.results| && s.results[k].run == i ensures i in RunsOf(s.results) {
      RunsOfMember(s.results, k);
    }
    forall k | 0 <= k < |s.completed| && s.completed[k].run == i ensures i in RunsOf(s.completed) {
      RunsOfMember(s.completed, k);
    }
  }

  /** A pending run is settled without a worker. */
  lemma SettleConserves(plan: Plan, s: State, i: nat, outcome: Outcome)
    requires Conserved(plan, s) && IsPending(plan, s, i)
    ensures Conserved(plan, Settle(s, i, outcome))
  {
    var t := Settle(s, i, outcome);
    RunsOfAppend(s.results, Result(i, outcome));
    forall j: nat ensures Tokens(plan, t, j) == if j < |plan.deps| then 1 else 0 {
      assert Tokens(plan, s, j) == if j < |plan.deps| then 1 else 0;
    }
  }

  /** Work stays dispatched while the workers' bags do not change and only run `i` gets a result. */
  lemma DispatchStays(plan: Plan, s: State, t: State, i: nat)
    requires WorkIsDispatched(plan, s)
    requires t.queue == s.queue && t.waiting == s.waiting && t.executing == s.executing && t.scheduled == s.scheduled
    requires t.resolved <= s.resolved + {i} && i !in OwnRuns(s.queue) && i !in s.waiting && i !in s.executing
    requires forall j | 0 <= j < |plan.deps| && DependenciesCompleted(plan, s, j) :: DependenciesCompleted(plan, t, j)
    ensures WorkIsDispatched(plan, t)
  {
    forall j | j in OwnRuns(t.queue) ensures Dispatched(plan, t, j) {
      assert Dispatched(plan, s, j);
    }
    forall j | j in t.waiting ensures Dispatched(plan, t, j) {
      assert Dispatched(plan, s, j);
    }
    forall j | j in t.executing ensures Dispatched(plan, t, j) {
      assert Dispatched(plan, s, j);
    }
  }

  lemma SettleKeeps(plan: Plan, s: State, i: nat, outcome: Outcome)
    requires Core(plan, s) && IsPending(plan, s, i)
    requires !outcome.started && outcome.status != Completed
    ensures Core(plan, Settle(s, i, outcome))
  {
    var t := Settle(s, i, outcome);
    SettleConserves(plan, s, i, outcome);
    RecordsOnlyGrow(plan, s, t);
    OnePlace(plan, s, i);
    DispatchStays(plan, s, t, i);
    SettleRecords(plan, s, i, outcome);
    SettleResults(plan, s, i, outcome);
  }

  lemma SettleRecords(plan: Plan, s: State, i: nat, outcome: Outcome)
    requires RecordsAreResults(plan, s) && i < |plan.deps|
    ensures RecordsAreResults(plan, Settle(s, i, outcome))
  {
    RunsOfAppend(s.results, Result(i, outcome));
  }

  lemma SettleResults(plan: Plan, s: State, i: nat, outcome: Outcome)
    requires ResultsAreSound(plan, s) && IsPending(plan, s, i) && Conserved(plan, s)
    requires !outcome.started && outcome.status != Completed && s.dependencyResults.Keys == s.resolved
    ensures ResultsAreSound(plan, Settle(s, i, outcome))
  {
    var t := Settle(s, i, outcome);
    RecordsOnlyGrow(plan, s, t);
    OnePlace(plan, s, i);
    forall k | 0 <= k < |t.results| ensures Buffered(plan, t, t.results[k]) {
      if k < |s.results| {
        assert Buffered(plan, s, s.results[k]) && t.results[k] == s.results[k];
      }
    }
    forall k | 0 <= k < |t.completed| ensures IsCollected(plan, t, t.completed[k]) {
      assert IsCollected(plan, s, s.completed[k]);
    }
  }

  /** The loop of cancelPending settles every pending run and touches nothing else. */
  lemma {:induction false} SettlePendingShape(plan: Plan, s: State, from: nat, lost: set<nat>)
    requires from <= |plan.deps|
    ensures var t := SettlePending(plan, s, from, lost);
      && t == s.(results := t.results, resolved := t.resolved, dependencyResults := t.dependencyResults)
      && s.resolved <= t.resolved && s.results <= t.results
      && forall i | from <= i < |plan.deps| :: i in s.scheduled || i in t.resolved
    decreases |plan.deps| - from
  {
    if from < |plan.deps| {
      var u := if IsPending(plan, s, from) then Settle(s, from, QueuedOutcome(Cancelled, from !in lost)) else s;
      SettlePendingShape(plan, u, from + 1, lost);
    }
  }

  lemma {:induction false} SettlePendingKeeps(plan: Plan, s: State, from: nat, lost: set<nat>)
    requires Core(plan, s) && from <= |plan.deps|
    ensures Core(plan, SettlePending(plan, s, from, lost))
    decreases |plan.deps| - from
  {
    if from < |plan.deps| {
      var u := if IsPending(plan, s, from) then Settle(s, from, QueuedOutcome(Cancelled, from !in lost)) else s;
      if IsPending(plan, s, from) {
        SettleKeeps(plan, s, from, QueuedOutcome(Cancelled, from !in lost));
      }
      SettlePendingKeeps(plan, u, from + 1, lost);
      assert SettlePending(plan, s, from, lost) == SettlePending(plan, u, from + 1, lost);
    }
  }

  lemma CancelPendingKeeps(plan: Plan, s: State, lost: set<nat>)
    requires Core(plan, s)
    ensures var t := CancelPending(plan, s, lost);
      && Core(plan, t)
      && (forall i :: !IsPending(plan, t, i))
      && s.results <= t.results
      && t == s.(results := t.results, resolved := t.resolved, dependencyResults := t.dependencyResults, groupError := t.groupError)
      && t.groupError != NoError
  {
    var u := if s.groupError == NoError then s.(groupError := Canceled) else s;
    assert Core(plan, u) by {
      FrameKeeps(plan, s, u);
    }
    SettlePendingKeeps(plan, u, 0, lost);
    SettlePendingShape(plan, u, 0, lost);
  }

  /** Core does not look at the phase, the armed select cases or which error a context carries. */
  lemma FrameKeeps(plan: Plan, s: State, t: State)
    requires Core(plan, s) && WithinBounds(plan, t)
    requires t == s.(phase := t.phase, parentArmed := t.parentArmed, groupArmed := t.groupArmed,
                     parentError := t.parentError, groupError := t.groupError, foreignBusy := t.foreignBusy)
    ensures Core(plan, t)
  {
    forall i: nat ensures Tokens(plan, t, i) == if i < |plan.deps| then 1 else 0 {
      assert Tokens(plan, s, i) == if i < |plan.deps| then 1 else 0;
    }
    RecordsOnlyGrow(plan, s, t);
    DispatchStays(plan, s, t, |plan.deps|) by {
      OnePlace(plan, s, |plan.deps|);
      assert Tokens(plan, s, |plan.deps|) == 0;
    }
    forall k | 0 <= k < |t.results| ensures Buffered(plan, t, t.results[k]) {
      assert Buffered(plan, s, s.results[k]);
    }
    forall k | 0 <= k < |t.completed| ensures IsCollected(plan, t, t.completed[k]) {
      assert IsCollected(plan, s, s.completed[k]);
    }
  }

  /** scheduleReady hands a ready run to the queue. */
  lemma EnqueueKeeps(plan: Plan, s: State, t: State, i: nat)
    requires Core(plan, s) && IsPending(plan, s, i) && DependenciesCompleted(plan, s, i) && |s.queue| < plan.queueSize
    requires t == s.(phase := t.phase, scheduled := s.scheduled + {i}, queue := s.queue + [Own(i)])
    ensures Core(plan, t)
  {
    OwnRunsAppend(s.queue, Own(i));
    forall j: nat ensures Tokens(plan, t, j) == if j < |plan.deps| then 1 else 0 {
      assert Tokens(plan, s, j) == if j < |plan.deps| then 1 else 0;
    }
    RecordsOnlyGrow(plan, s, t);
    WorkMoves(plan, s, t, i);
    ResultsStay(plan, s, t);
  }

  /** Work is still dispatched when the only new item in the bags is a run that may be dispatched. */
  lemma WorkMoves(plan: Plan, s: State, t: State, i: nat)
    requires WorkIsDispatched(plan, s) && Dispatched(plan, t, i)
    requires s.scheduled <= t.scheduled && t.resolved == s.resolved && t.dependencyResults == s.dependencyResults
    requires forall j | j in OwnRuns(t.queue) + t.waiting + t.executing :: j == i || j in OwnRuns(s.queue) + s.waiting + s.executing
    ensures WorkIsDispatched(plan, t)
  {
    forall j | j in OwnRuns(t.queue) + t.waiting + t.executing ensures Dispatched(plan, t, j) {
      assert j == i || Dispatched(plan, s, j);
    }
  }

  lemma ResultsStay(plan: Plan, s: State, t: State)
    requires ResultsAreSound(plan, s)
    requires t.results == s.results && t.completed == s.completed && s.scheduled <= t.scheduled && t.dependencyResults == s.dependencyResults
    ensures ResultsAreSound(plan, t)
  {
    forall k | 0 <= k < |t.results| ensures Buffered(plan, t, t.results[k]) {
      assert Buffered(plan, s, s.results[k]);
    }
    forall k | 0 <= k < |t.completed| ensures IsCollected(plan, t, t.completed[k]) {
      assert IsCollected(plan, s, s.completed[k]);
    }
  }

  /** A worker sends the result of a run it took out of the queue, the waiting or the executing runs. */
  lemma WorkerSendKeeps(plan: Plan, s: State, u: State, i: nat, outcome: Outcome)
    requires Core(plan, s) && Dispatched(plan, s, i) && (outcome.status == Completed ==> outcome.started)
    requires u == s.(queue := u.queue, waiting := u.waiting, executing := u.executing) && WithinBounds(plan, u)
    requires OwnRuns(u.queue) + u.waiting + u.executing + multiset{i} == OwnRuns(s.queue) + s.waiting + s.executing
    ensures Core(plan, Send(u, i, outcome))
  {
    var t := Send(u, i, outcome);
    RunsOfAppend(s.results, Result(i, outcome));
    forall j: nat ensures Tokens(plan, t, j) == if j < |plan.deps| then 1 else 0 {
      assert Tokens(plan, s, j) == if j < |plan.deps| then 1 else 0;
      assert (OwnRuns(u.queue) + u.waiting + u.executing + multiset{i})[j] == (OwnRuns(s.queue) + s.waiting + s.executing)[j];
    }
    forall j | j in OwnRuns(t.queue) + t.waiting + t.executing ensures Dispatched(plan, t, j) {
      assert j in OwnRuns(u.queue) + u.waiting + u.executing + multiset{i};
      assert Dispatched(plan, s, j);
    }
    forall k | 0 <= k < |t.results| ensures Buffered(plan, t, t.results[k]) {
      assert k < |s.results| ==> Buffered(plan, s, s.results[k]);
    }
    forall k | 0 <= k < |t.completed| ensures IsCollected(plan, t, t.completed[k]) {
      assert IsCollected(plan, s, s.completed[k]);
    }
  }

  lemma ReceiveConserves(plan: Plan, s: State)
    requires Conserved(plan, s) && s.results != [] && s.results[0].run in s.scheduled + s.resolved
    ensures Conserved(plan, Receive(s))
  {
    var t, item := Receive(s), s.results[0];
    assert RunsOf(s.results) == multiset{item.run} + RunsOf(t.results);
    RunsOfAppend(s.completed, item);
    forall j: nat ensures Tokens(plan, t, j) == if j < |plan.deps| then 1 else 0 {
      assert Tokens(plan, s, j) == if j < |plan.deps| then 1 else 0;
    }
  }

  lemma ReceiveKeeps(plan: Plan, s: State)
    requires Core(plan, s) && s.results != []
    ensures Core(plan, Receive(s))
  {
    var t, item := Receive(s), s.results[0];
    assert Buffered(plan, s, item);
    ReceiveConserves(plan, s);
    assert RunsOf(s.results) == multiset{item.run} + RunsOf(t.results);
    assert Tokens(plan, s, item.run) == 1;
    RecordsOnlyGrow(plan, s, t);
    DispatchStays(plan, s, t, item.run);
    ReceiveResults(plan, s);
    ReceiveRecords(plan, s);
  }

  lemma ReceiveRecords(plan: Plan, s: State)
    requires RecordsAreResults(plan, s) && s.results != [] && s.results[0].run < |plan.deps|
    ensures RecordsAreResults(plan, Receive(s))
  {
    var t, item := Receive(s), s.results[0];
    assert RunsOf(s.results) == multiset{item.run} + RunsOf(t.results);
    RunsOfAppend(s.completed, item);
    forall d | d in t.resolved ensures d < |plan.deps| && (d in RunsOf(t.results) || d in RunsOf(t.completed)) {
      assert d == item.run || d in s.resolved;
    }
  }

  lemma ReceiveResults(plan: Plan, s: State)
    requires ResultsAreSound(plan, s) && Conserved(plan, s) && s.results != []
    ensures ResultsAreSound(plan, Receive(s))
  {
    var t, item := Receive(s), s.results[0];
    assert Buffered(plan, s, item);
    RecordsOnlyGrow(plan, s, t);
    assert RunsOf(s.results) == multiset{item.run} + RunsOf(t.results);
    assert Tokens(plan, s, item.run) <= 1;
    forall k | 0 <= k < |t.results| ensures Buffered(plan, t, t.results[k]) {
      RunsOfMember(t.results, k);
      assert t.results[k] == s.results[k + 1] && Buffered(plan, s, s.results[k + 1]);
    }
    forall k | 0 <= k < |t.completed| ensures IsCollected(plan, t, t.completed[k]) {
      if k < |s.completed| {
        RunsOfMember(s.completed, k);
        assert IsCollected(plan, s, s.completed[k]);
      }
    }
  }

  lemma LoopHeadKeeps(plan: Plan, s: State)
    requires Core(plan, s)
    ensures Inv(plan, LoopHead(plan, s))
  {
    Census(plan, s);
    FrameKeeps(plan, s, LoopHead(plan, s));
  }

  /** Steps beside the barrier do not unblock a run it has passed over. */
  lemma PassStays(plan: Plan, s: State, t: State)
    requires PassIsThorough(plan, s)
    requires t.phase == s.phase && t.scheduled == s.scheduled && t.resolved == s.resolved
    requires t.dependencyResults == s.dependencyResults && t.completed == s.completed
    requires RunsOf(s.results) <= RunsOf(t.results)
    ensures PassIsThorough(plan, t)
  {
    forall i | 0 <= i < Passed(plan, t) && IsPending(plan, t, i) ensures Blocked(plan, t, i) {
      assert IsPending(plan, s, i) && Blocked(plan, s, i);
      var d :| d in plan.deps[i] && (d !in s.dependencyResults || d in RunsOf(s.results));
      assert d in plan.deps[i] && (d !in t.dependencyResults || d in RunsOf(t.results));
    }
  }

  lemma DequeueKeeps(plan: Plan, s: State)
    requires Inv(plan, s) && Enabled(plan, s, Dequeue)
    ensures Inv(plan, Next(plan, s, Dequeue))
  {
    var t, run, u := Next(plan, s, Dequeue), s.queue[0].run, s.(queue := s.queue[1..]);
    assert OwnRuns(s.queue) == multiset{run} + OwnRuns(u.queue);
    assert Dispatched(plan, s, run);
    if s.groupError != NoError {
      WorkerSendKeeps(plan, s, u, run, Outcome(CancelledStatus(s.groupError), false));
      RunsOfAppend(s.results, t.results[|s.results|]);
    } else {
      HandOverKeeps(plan, s, t, run);
    }
    PassStays(plan, s, t);
  }

  lemma AcquireKeeps(plan: Plan, s: State, run: nat)
    requires Inv(plan, s) && Enabled(plan, s, Acquire(run))
    ensures Inv(plan, Next(plan, s, Acquire(run)))
  {
    var t := Next(plan, s, Acquire(run));
    assert OwnRuns(t.queue) + t.waiting + t.executing == OwnRuns(s.queue) + s.waiting + s.executing;
    HandOverKeeps(plan, s, t, run);
    PassStays(plan, s, t);
  }

  lemma AbandonWaitKeeps(plan: Plan, s: State, run: nat)
    requires Inv(plan, s) && Enabled(plan, s, AbandonWait(run))
    ensures Inv(plan, Next(plan, s, AbandonWait(run)))
  {
    var outcome := Outcome(CancelledStatus(s.groupError), false);
    WorkerSendKeeps(plan, s, s.(waiting := s.waiting - multiset{run}), run, outcome);
    RunsOfAppend(s.results, Result(run, outcome));
    PassStays(plan, s, Next(plan, s, AbandonWait(run)));
  }

  lemma FinishKeeps(plan: Plan, s: State, run: nat, status: Status)
    requires Inv(plan, s) && Enabled(plan, s, Finish(run, status))
    ensures Inv(plan, Next(plan, s, Finish(run, status)))
  {
    WorkerSendKeeps(plan, s, s.(executing := s.executing - multiset{run}), run, Outcome(status, true));
    RunsOfAppend(s.results, Result(run, Outcome(status, true)));
    PassStays(plan, s, Next(plan, s, Finish(run, status)));
  }

  /** A run moves on between the queue, the waiting and the executing runs. */
  lemma HandOverKeeps(plan: Plan, s: State, t: State, i: nat)
    requires Core(plan, s) && Dispatched(plan, s, i) && WithinBounds(plan, t)
    requires t == s.(queue := t.queue, waiting := t.waiting, executing := t.executing)
    requires OwnRuns(t.queue) + t.waiting + t.executing == OwnRuns(s.queue) + s.waiting + s.executing
    ensures Core(plan, t)
  {
    forall j: nat ensures Tokens(plan, t, j) == if j < |plan.deps| then 1 else 0 {
      assert Tokens(plan, s, j) == if j < |plan.deps| then 1 else 0;
      assert (OwnRuns(t.queue) + t.waiting + t.executing)[j] == (OwnRuns(s.queue) + s.waiting + s.executing)[j];
    }
    WorkMoves(plan, s, t, i);
    ResultsStay(plan, s, t);
  }

  lemma OutsideStepKeeps(plan: Plan, s: State, step: Step)
    requires Inv(plan, s) && Enabled(plan, s, step) && !IsOwnStep(step)
    ensures Inv(plan, Next(plan, s, step))
  {
    if step.ForeignEnqueue? || step.ForeignDequeue? {
      ForeignQueueKeeps(plan, s, step);
    } else {
      FrameKeeps(plan, s, Next(plan, s, step));
      PassStays(plan, s, Next(plan, s, step));
    }
  }

  lemma ForeignQueueKeeps(plan: Plan, s: State, step: Step)
    requires Inv(plan, s) && Enabled(plan, s, step) && (step.ForeignEnqueue? || step.ForeignDequeue?)
    ensures Inv(plan, Next(plan, s, step))
  {
    var t := Next(plan, s, step);
    if step.ForeignEnqueue? {
      OwnRunsAppend(s.queue, Foreign);
    } else {
      assert OwnRuns(s.queue) == OwnRuns(t.queue);
    }
    QueueFrameKeeps(plan, s, t);
    PassStays(plan, s, t);
  }

  lemma QueueFrameKeeps(plan: Plan, s: State, t: State)
    requires Core(plan, s) && WithinBounds(plan, t)
    requires t == s.(queue := t.queue, foreignBusy := t.foreignBusy) && OwnRuns(t.queue) == OwnRuns(s.queue)
    ensures Core(plan, t)
  {
    forall j: nat ensures Tokens(plan, t, j) == if j < |plan.deps| then 1 else 0 {
      assert Tokens(plan, s, j) == if j < |plan.deps| then 1 else 0;
    }
    forall j | j in OwnRuns(t.queue) + t.waiting + t.executing ensures Dispatched(plan, t, j) {
      assert Dispatched(plan, s, j);
    }
    ResultsStay(plan, s, t);
  }

  /** One iteration of scheduleReady: the run is passed over. */
  lemma ScanSkipKeeps(plan: Plan, s: State)
    requires Inv(plan, s) && s.phase.Scanning? && s.phase.next < |plan.deps|
    requires IsPending(plan, s, s.phase.next) ==> !DependenciesKnown(plan, s, s.phase.next)
    ensures Inv(plan, s.(phase := s.phase.(next := s.phase.next + 1)))
  {
    var t := s.(phase := s.phase.(next := s.phase.next + 1));
    FrameKeeps(plan, s, t);
    if IsPending(plan, t, s.phase.next) {
      assert Blocked(plan, t, s.phase.next);
    }
    ScanBlocks(plan, s, t);
  }

  /** One iteration of scheduleReady: the run ends without reaching a worker. */
  lemma ScanSettleKeeps(plan: Plan, s: State, outcome: Outcome)
    requires Inv(plan, s) && s.phase.Scanning? && s.phase.next < |plan.deps|
    requires IsPending(plan, s, s.phase.next) && !outcome.started && outcome.status != Completed
    ensures Inv(plan, Settle(s.(phase := s.phase.(next := s.phase.next + 1)), s.phase.next, outcome))
  {
    var moved := s.(phase := s.phase.(next := s.phase.next + 1));
    FrameKeeps(plan, s, moved);
    SettleKeeps(plan, moved, s.phase.next, outcome);
    RunsOfAppend(s.results, Result(s.phase.next, outcome));
    ScanBlocks(plan, s, Settle(moved, s.phase.next, outcome));
  }

  lemma ScanRunKeeps(plan: Plan, s: State, aborted: bool, persisted: bool)
    requires Inv(plan, s) && Enabled(plan, s, ScanRun(aborted, persisted))
    ensures Inv(plan, Next(plan, s, ScanRun(aborted, persisted)))
  {
    var i, t := s.phase.next, ScanOne(plan, s, aborted, persisted);
    if !IsPending(plan, s, i) || !DependenciesKnown(plan, s, i) {
      ScanSkipKeeps(plan, s);
    } else if DependenciesCompleted(plan, s, i) && !aborted {
      EnqueueKeeps(plan, s, t, i);
      ScanBlocks(plan, s, t);
    } else {
      var completed := DependenciesCompleted(plan, s, i);
      ScanSettleKeeps(plan, s, if completed then QueuedOutcome(CancelledStatus(s.groupError), persisted) else Outcome(Failed, false));
    }
  }

  /** The runs already passed over stay blocked: a run settled meanwhile leaves its result in the buffer. */
  lemma ScanBlocks(plan: Plan, s: State, t: State)
    requires PassIsThorough(plan, s) && s.phase.Scanning? && s.phase.next < |plan.deps|
    requires t.phase == s.phase.(next := s.phase.next + 1) && t.completed == s.completed
    requires s.scheduled <= t.scheduled && s.resolved <= t.resolved
    requires RunsOf(s.results) <= RunsOf(t.results)
    requires forall d | d in t.dependencyResults && d !in s.dependencyResults :: d in RunsOf(t.results)
    requires IsPending(plan, t, s.phase.next) ==> Blocked(plan, t, s.phase.next)
    ensures PassIsThorough(plan, t)
  {
    forall j | 0 <= j < Passed(plan, t) && IsPending(plan, t, j) ensures Blocked(plan, t, j) {
      if j < s.phase.next {
        assert IsPending(plan, s, j) && Blocked(plan, s, j);
        var d :| d in plan.deps[j] && (d !in s.dependencyResults || d in RunsOf(s.results));
        assert d in plan.deps[j] && (d !in t.dependencyResults || d in RunsOf(t.results));
      }
    }
  }

  /** Every step of the machine keeps the invariant. */
  lemma StepKeeps(plan: Plan, s: State, step: Step)
    requires Inv(plan, s) && Enabled(plan, s, step)
    ensures Inv(plan, Next(plan, s, step))
  {
    match step {
      case ScanRun(aborted, persisted) => ScanRunKeeps(plan, s, aborted, persisted);
      case ScanEnd =>
        if s.phase.again {
          LoopHeadKeeps(plan, s);
        } else {
          ScanEndKeeps(plan, s);
        }
      case Collect(lost) => CollectKeeps(plan, s, lost);
      case ObserveParent(lost) => ObserveKeeps(plan, s, s.(parentArmed := false), lost);
      case ObserveGroup(lost) => ObserveKeeps(plan, s, s.(groupArmed := false), lost);
      case Dequeue => DequeueKeeps(plan, s);
      case Acquire(run) => AcquireKeeps(plan, s, run);
      case AbandonWait(run) => AbandonWaitKeeps(plan, s, run);
      case Finish(run, status) => FinishKeeps(plan, s, run, status);
      case _ => OutsideStepKeeps(plan, s, step);
    }
  }

  lemma ScanEndKeeps(plan: Plan, s: State)
    requires Inv(plan, s) && s.phase == Scanning(|plan.deps|, false) && |s.completed| < |plan.deps|
    ensures Inv(plan, s.(phase := Selecting))
  {
    var t := s.(phase := Selecting);
    FrameKeeps(plan, s, t);
    forall i | 0 <= i < |plan.deps| && IsPending(plan, t, i) ensures Blocked(plan, t, i) {
      assert Blocked(plan, s, i);
    }
  }

  lemma CollectKeeps(plan: Plan, s: State, lost: set<nat>)
    requires Inv(plan, s) && s.results != []
    ensures Inv(plan, LoopHead(plan, Collected(plan, s, lost)))
  {
    ReceiveKeeps(plan, s);
    var t := Receive(s);
    if Collected(plan, s, lost) != t {
      CancelPendingKeeps(plan, t, lost);
    }
    LoopHeadKeeps(plan, Collected(plan, s, lost));
  }

  lemma ObserveKeeps(plan: Plan, s: State, u: State, lost: set<nat>)
    requires Inv(plan, s) && u == s.(parentArmed := u.parentArmed, groupArmed := u.groupArmed)
    ensures Inv(plan, LoopHead(plan, CancelPending(plan, u, lost)))
  {
    FrameKeeps(plan, s, u);
    CancelPendingKeeps(plan, u, lost);
    LoopHeadKeeps(plan, CancelPending(plan, u, lost));
  }
}
