/** internal/agent/subagent_runtime.go: whole runs of the result barrier.  The barrier never sticks, every run is
    finite, every group member is collected exactly once, and nothing executes before its dependencies completed. */
module GroupRuns {
  import opened GroupScheduler
  import opened GroupBarrier

  ghost predicate IsRun(plan: Plan, states: seq<State>, steps: seq<Step>) {
    && |states| == |steps| + 1
    && states[0] == Initial()
    && forall k | 0 <= k < |steps| :: IsStep(plan, states[k], steps[k], states[k + 1])
  }

  ghost predicate IsStep(plan: Plan, s: State, step: Step, t: State) {
    Enabled(plan, s, step) && t == Next(plan, s, step)
  }

  lemma {:induction false} RunKeeps(plan: Plan, states: seq<State>, steps: seq<Step>, k: nat)
    requires IsRun(plan, states, steps) && k < |states|
    ensures Inv(plan, states[k])
  {
    if k == 0 {
      InitialHolds(plan);
    } else {
      RunKeeps(plan, states, steps, k - 1);
      assert IsStep(plan, states[k - 1], steps[k - 1], states[k]);
      StepKeeps(plan, states[k - 1], steps[k - 1]);
    }
  }

  // ----- The barrier never sticks -----

  predicate InFlight(s: State) {
    OwnRuns(s.queue) != multiset{} || s.waiting != multiset{} || s.executing != multiset{}
  }

  lemma DependencyIsBelow(plan: Plan, rank: seq<nat>, i: nat, d: nat)
    requires Ranked(plan, rank) && i < |plan.deps| && d in plan.deps[i]
    ensures d < |plan.deps| && rank[d] < rank[i]
  {
  }

  lemma OneToken(plan: Plan, s: State, i: nat)
    requires Conserved(plan, s)
    ensures Tokens(plan, s, i) == if i < |plan.deps| then 1 else 0
  {
  }

  /** Following missing dependencies downwards from a pending run ends at a run that scheduleReady can act on, or at
      one that is still on its way. */
  lemma {:induction false} SomethingBelow(plan: Plan, rank: seq<nat>, s: State, i: nat)
    requires Ranked(plan, rank) && Inv(plan, s) && IsPending(plan, s, i)
    ensures s.results != [] || InFlight(s) || exists j :: IsPending(plan, s, j) && DependenciesKnown(plan, s, j)
    decreases rank[i]
  {
    if !DependenciesKnown(plan, s, i) {
      var d :| d in plan.deps[i] && d !in s.dependencyResults;
      DependencyIsBelow(plan, rank, i, d);
      OneToken(plan, s, d);
      if IsPending(plan, s, d) {
        SomethingBelow(plan, rank, s, d);
      } else if d in RunsOf(s.completed) {
        var k := RunsOfIndex(s.completed, d);
        assert IsCollected(plan, s, s.completed[k]);
      }
    }
  }

  /** While results are missing, one is in the buffer, on its way, or produced by the next pass of scheduleReady. */
  lemma MissingResultsAreProducible(plan: Plan, rank: seq<nat>, s: State)
    requires Ranked(plan, rank) && Inv(plan, s) && |s.completed| < |plan.deps|
    ensures s.results != [] || InFlight(s) || exists i :: IsPending(plan, s, i) && DependenciesKnown(plan, s, i)
  {
    if s.results == [] && !InFlight(s) {
      Census(plan, s);
      var i :| i in Pending(plan, s);
      SomethingBelow(plan, rank, s, i);
    }
  }

  /** The buffer is never full while a run without a result remains, so no send blocks. */
  lemma SendsNeverBlock(plan: Plan, s: State)
    requires Inv(plan, s)
    requires Pending(plan, s) != {} || InFlight(s)
    ensures CanSend(plan, s)
  {
    Census(plan, s);
  }

  /** Whatever fills the queue and the workers, some step moves it on. */
  lemma WorkersMove(plan: Plan, s: State) returns (step: Step)
    requires ValidPlan(plan) && Inv(plan, s)
    requires s.queue != [] || s.waiting != multiset{} || s.executing != multiset{}
    ensures Enabled(plan, s, step) && (IsOwnStep(step) || step.ForeignDequeue? || step.ForeignFinish?)
  {
    if s.executing != multiset{} {
      var run :| run in s.executing;
      SendsNeverBlock(plan, s);
      step := Finish(run, Failed);
    } else if s.waiting != multiset{} {
      var run :| run in s.waiting;
      step := Acquire(run);
    } else if s.foreignBusy > 0 {
      step := ForeignFinish;
    } else if s.queue[0].Own? {
      assert s.queue[0].run in OwnRuns(s.queue);
      SendsNeverBlock(plan, s);
      step := Dequeue;
    } else {
      step := ForeignDequeue;
    }
  }

  /** After a complete pass of scheduleReady with an empty buffer, no pending run is one that another pass could act on. */
  lemma PassLeftNothing(plan: Plan, s: State, i: nat)
    requires Inv(plan, s) && s.phase == Selecting && s.results == [] && IsPending(plan, s, i)
    ensures !DependenciesKnown(plan, s, i)
  {
    assert Blocked(plan, s, i);
  }

  /** No deadlock: until the barrier is passed, a step of the group or of the work ahead of it is enabled. */
  lemma BarrierNeverSticks(plan: Plan, rank: seq<nat>, s: State) returns (step: Step)
    requires ValidPlan(plan) && Ranked(plan, rank) && Inv(plan, s) && s.phase != Finished
    ensures Enabled(plan, s, step) && (IsOwnStep(step) || step.ForeignDequeue? || step.ForeignFinish?)
  {
    if s.phase.Scanning? && s.phase.next == |plan.deps| {
      step := ScanEnd;
    } else if s.phase.Scanning? {
      var i := s.phase.next;
      if IsPending(plan, s, i) {
        assert i in Pending(plan, s);
        SendsNeverBlock(plan, s);
      }
      if IsPending(plan, s, i) && DependenciesCompleted(plan, s, i) && |s.queue| == plan.queueSize && s.groupError == NoError {
        step := WorkersMove(plan, s);
      } else {
        step := ScanRun(|s.queue| == plan.queueSize, true);
      }
    } else if s.results != [] {
      step := Collect({});
    } else {
      MissingResultsAreProducible(plan, rank, s);
      forall i | IsPending(plan, s, i) ensures !DependenciesKnown(plan, s, i) {
        PassLeftNothing(plan, s, i);
      }
      step := WorkersMove(plan, s);
    }
  }

  // ----- Every run is finite -----

  /** Rounds of the loop that are still possible. */
  function Rounds(plan: Plan, s: State): int {
    |plan.deps| - |s.completed| + (if s.parentArmed then 1 else 0) + (if s.groupArmed then 1 else 0)
    + (if s.phase.Scanning? && s.phase.again then 1 else 0)
  }

  /** How far the runs of the group still have to travel. */
  function Distance(plan: Plan, s: State): nat {
    5 * |Pending(plan, s)| + 4 * |OwnRuns(s.queue)| + 3 * |s.waiting| + 2 * |s.executing| + |s.results|
  }

  function Position(plan: Plan, s: State): int {
    if s.phase.Scanning? then |plan.deps| + 1 - s.phase.next else 0
  }

  function Measure(plan: Plan, s: State): int {
    Rounds(plan, s) * (|plan.deps| + 2) + Distance(plan, s) + Position(plan, s)
  }

  /** A transition that uses up a round of the loop may restart the scan and still descends. */
  lemma RoundDescends(plan: Plan, s: State, t: State)
    requires Rounds(plan, t) <= Rounds(plan, s) - 1 && Distance(plan, t) <= Distance(plan, s)
    requires Position(plan, t) <= Position(plan, s) + |plan.deps| + 1
    ensures Measure(plan, t) < Measure(plan, s)
  {
    var n := |plan.deps| + 2;
    assert Rounds(plan, t) * n <= (Rounds(plan, s) - 1) * n by {
      MulMonotone(Rounds(plan, t), Rounds(plan, s) - 1, n);
    }
    assert (Rounds(plan, s) - 1) * n == Rounds(plan, s) * n - n;
  }

  lemma MulMonotone(a: int, b: int, n: nat)
    requires a <= b
    ensures a * n <= b * n
  {
    assert b * n - a * n == (b - a) * n;
    assert (b - a) * n >= 0;
  }

  /** Cancelling what is pending moves every pending run into the buffer at once. */
  lemma CancelPendingShortens(plan: Plan, s: State, lost: set<nat>)
    requires Core(plan, s)
    ensures Distance(plan, CancelPending(plan, s, lost)) <= Distance(plan, s)
  {
    var t := CancelPending(plan, s, lost);
    CancelPendingKeeps(plan, s, lost);
    Census(plan, s);
    Census(plan, t);
  }

  lemma SelectDescends(plan: Plan, s: State, u: State, t: State)
    requires s.phase == Selecting && t == LoopHead(plan, u)
    requires Rounds(plan, u) <= Rounds(plan, s) - 1 && Distance(plan, u) <= Distance(plan, s)
    requires u.phase == Selecting
    ensures Measure(plan, t) < Measure(plan, s)
  {
    assert Pending(plan, t) == Pending(plan, u);
    RoundDescends(plan, s, t);
  }

  lemma CollectDescends(plan: Plan, s: State, lost: set<nat>)
    requires Inv(plan, s) && Enabled(plan, s, Collect(lost))
    ensures Measure(plan, Next(plan, s, Collect(lost))) < Measure(plan, s)
  {
    var t, u := Receive(s), Collected(plan, s, lost);
    ReceiveKeeps(plan, s);
    Census(plan, s);
    Census(plan, t);
    if u != t {
      CancelPendingKeeps(plan, t, lost);
      CancelPendingShortens(plan, t, lost);
    }
    SelectDescends(plan, s, u, Next(plan, s, Collect(lost)));
  }

  lemma ObserveDescends(plan: Plan, s: State, armed: State, lost: set<nat>)
    requires Inv(plan, s) && s.phase == Selecting
    requires armed == s.(parentArmed := armed.parentArmed, groupArmed := armed.groupArmed)
    requires Rounds(plan, armed) == Rounds(plan, s) - 1
    ensures Measure(plan, LoopHead(plan, CancelPending(plan, armed, lost))) < Measure(plan, s)
  {
    FrameKeeps(plan, s, armed);
    assert Pending(plan, armed) == Pending(plan, s);
    CancelPendingKeeps(plan, armed, lost);
    CancelPendingShortens(plan, armed, lost);
    SelectDescends(plan, s, CancelPending(plan, armed, lost), LoopHead(plan, CancelPending(plan, armed, lost)));
  }

  /** The scan and the workers: the distance does not grow, and either it or the rest of the scan shrinks. */
  lemma SameRoundDescends(plan: Plan, s: State, t: State)
    requires Rounds(plan, t) == Rounds(plan, s)
    requires Distance(plan, t) + Position(plan, t) < Distance(plan, s) + Position(plan, s)
    ensures Measure(plan, t) < Measure(plan, s)
  {
  }

  lemma ScanRunDescends(plan: Plan, s: State, aborted: bool, persisted: bool)
    requires Inv(plan, s) && Enabled(plan, s, ScanRun(aborted, persisted))
    ensures Measure(plan, Next(plan, s, ScanRun(aborted, persisted))) < Measure(plan, s)
  {
    var t := Next(plan, s, ScanRun(aborted, persisted));
    ScanRunKeeps(plan, s, aborted, persisted);
    Census(plan, s);
    Census(plan, t);
    if t.queue != s.queue {
      OwnRunsAppend(s.queue, Own(s.phase.next));
    }
    assert t.waiting == s.waiting && t.executing == s.executing && t.completed == s.completed;
    assert Distance(plan, t) <= Distance(plan, s);
    SameRoundDescends(plan, s, t);
  }

  lemma ScanEndDescends(plan: Plan, s: State)
    requires Enabled(plan, s, ScanEnd)
    ensures Measure(plan, Next(plan, s, ScanEnd)) < Measure(plan, s)
  {
    var t := Next(plan, s, ScanEnd);
    assert Pending(plan, t) == Pending(plan, s);
    if s.phase.again {
      RoundDescends(plan, s, t);
    } else {
      SameRoundDescends(plan, s, t);
    }
  }

  lemma DequeueShortens(plan: Plan, s: State)
    requires Enabled(plan, s, Dequeue)
    ensures Distance(plan, Next(plan, s, Dequeue)) < Distance(plan, s)
  {
    var t := Next(plan, s, Dequeue);
    assert Pending(plan, t) == Pending(plan, s);
    assert OwnRuns(s.queue) == multiset{s.queue[0].run} + OwnRuns(t.queue);
  }

  lemma HoldingShortens(plan: Plan, s: State, step: Step)
    requires Enabled(plan, s, step) && (step.Acquire? || step.AbandonWait? || step.Finish?)
    ensures Distance(plan, Next(plan, s, step)) < Distance(plan, s)
  {
    assert Pending(plan, Next(plan, s, step)) == Pending(plan, s);
  }

  lemma WorkerFrame(plan: Plan, s: State, step: Step)
    requires Enabled(plan, s, step)
    requires step.Dequeue? || step.Acquire? || step.AbandonWait? || step.Finish?
    ensures var t := Next(plan, s, step);
      t == s.(queue := t.queue, waiting := t.waiting, executing := t.executing, results := t.results)
  {
  }

  lemma WorkerDescends(plan: Plan, s: State, t: State)
    requires t == s.(queue := t.queue, waiting := t.waiting, executing := t.executing, results := t.results)
    requires Distance(plan, t) < Distance(plan, s)
    ensures Measure(plan, t) < Measure(plan, s)
  {
    SameRoundDescends(plan, s, t);
  }

  lemma OutsideKeepsMeasure(plan: Plan, s: State, step: Step)
    requires Enabled(plan, s, step) && !IsOwnStep(step)
    ensures Measure(plan, Next(plan, s, step)) == Measure(plan, s)
  {
    var t := Next(plan, s, step);
    OutsideFrame(plan, s, step);
    assert Pending(plan, t) == Pending(plan, s);
    assert Distance(plan, t) == Distance(plan, s);
  }

  lemma OutsideFrame(plan: Plan, s: State, step: Step)
    requires Enabled(plan, s, step) && !IsOwnStep(step)
    ensures var t := Next(plan, s, step);
      && t == s.(queue := t.queue, foreignBusy := t.foreignBusy, parentError := t.parentError, groupError := t.groupError)
      && OwnRuns(t.queue) == OwnRuns(s.queue)
  {
    if step.ForeignEnqueue? {
      OwnRunsAppend(s.queue, Foreign);
    }
  }

  lemma OwnStepDescends(plan: Plan, s: State, step: Step)
    requires Inv(plan, s) && Enabled(plan, s, step) && IsOwnStep(step)
    ensures Measure(plan, Next(plan, s, step)) < Measure(plan, s)
  {
    if step.ScanRun? {
      ScanRunDescends(plan, s, step.aborted, step.persisted);
    } else if step.ScanEnd? {
      ScanEndDescends(plan, s);
    } else if step.Collect? {
      CollectDescends(plan, s, step.lost);
    } else if step.ObserveParent? {
      ObserveDescends(plan, s, s.(parentArmed := false), step.lost);
    } else if step.ObserveGroup? {
      ObserveDescends(plan, s, s.(groupArmed := false), step.lost);
    } else {
      if step.Dequeue? {
        DequeueShortens(plan, s);
      } else {
        HoldingShortens(plan, s, step);
      }
      WorkerFrame(plan, s, step);
      WorkerDescends(plan, s, Next(plan, s, step));
    }
  }

  lemma MeasureIsNatural(plan: Plan, s: State)
    requires Inv(plan, s)
    ensures Measure(plan, s) >= 0
  {
    Census(plan, s);
    MulMonotone(0, Rounds(plan, s), |plan.deps| + 2);
  }

  function OwnSteps(steps: seq<Step>): nat {
    if steps == [] then 0 else OwnSteps(steps[..|steps| - 1]) + (if IsOwnStep(steps[|steps| - 1]) then 1 else 0)
  }

  lemma {:induction false} RunDescends(plan: Plan, states: seq<State>, steps: seq<Step>, k: nat)
    requires IsRun(plan, states, steps) && k < |states|
    ensures OwnSteps(steps[..k]) + Measure(plan, states[k]) <= Measure(plan, Initial())
  {
    if k == 0 {
      assert steps[..0] == [];
    } else {
      RunDescends(plan, states, steps, k - 1);
      var s, step, t := states[k - 1], steps[k - 1], states[k];
      assert IsStep(plan, s, step, t);
      assert steps[..k][..k - 1] == steps[..k - 1];
      RunKeeps(plan, states, steps, k - 1);
      if IsOwnStep(step) {
        OwnStepDescends(plan, s, step);
      } else {
        OutsideKeepsMeasure(plan, s, step);
      }
    }
  }

  /** Every run of the machine is finite in the group's own steps, by a bound that depends on the size of the group
      alone: neither cancellation nor foreign work can keep the barrier spinning. */
  lemma RunsAreBounded(plan: Plan, states: seq<State>, steps: seq<Step>)
    requires IsRun(plan, states, steps)
    ensures var n := |plan.deps|; OwnSteps(steps) <= (n + 3) * (n + 2) + 6 * n + 1
  {
    RunDescends(plan, states, steps, |steps|);
    assert steps[..|steps|] == steps;
    RunKeeps(plan, states, steps, |steps|);
    MeasureIsNatural(plan, states[|steps|]);
    InitialMeasure(plan);
  }

  lemma InitialMeasure(plan: Plan)
    ensures var n := |plan.deps|; Measure(plan, Initial()) == (n + 3) * (n + 2) + 6 * n + 1
  {
    InitialHolds(plan);
    Census(plan, Initial());
  }

  // ----- Each run is collected exactly once -----

  /** Behind the barrier every run of the group was collected exactly once, and nothing of the group is left. */
  lemma BarrierCollectsEachRunOnce(plan: Plan, s: State)
    requires Inv(plan, s) && s.phase == Finished
    ensures |s.completed| == |plan.deps| && forall i: nat :: RunsOf(s.completed)[i] == if i < |plan.deps| then 1 else 0
    ensures s.results == [] && !InFlight(s) && Pending(plan, s) == {}
  {
    Census(plan, s);
    forall i: nat ensures RunsOf(s.completed)[i] == if i < |plan.deps| then 1 else 0 {
      assert Tokens(plan, s, i) == if i < |plan.deps| then 1 else 0;
      assert IsPending(plan, s, i) <==> i in Pending(plan, s);
      assert RunsOf(s.results)[i] == 0;
    }
  }

  /** The results sent so far, received or not. */
  function Sent(s: State): multiset<nat> {
    RunsOf(s.results) + RunsOf(s.completed)
  }

  lemma {:induction false} RunsOfPrefix(a: seq<Result>, b: seq<Result>)
    requires a <= b
    ensures RunsOf(a) <= RunsOf(b)
  {
    if a != [] {
      RunsOfPrefix(a[1..], b[1..]);
    }
  }

  lemma ReceiveKeepsSent(s: State)
    requires s.results != []
    ensures Sent(Receive(s)) == Sent(s)
  {
    RunsOfAppend(s.completed, s.results[0]);
    assert RunsOf(s.results) == multiset{s.results[0].run} + RunsOf(s.results[1..]);
  }

  lemma CancelKeepsSent(plan: Plan, s: State, lost: set<nat>)
    requires Core(plan, s)
    ensures Sent(s) <= Sent(CancelPending(plan, s, lost))
  {
    CancelPendingKeeps(plan, s, lost);
    RunsOfPrefix(s.results, CancelPending(plan, s, lost).results);
  }

  lemma CollectKeepsSent(plan: Plan, s: State, lost: set<nat>)
    requires Inv(plan, s) && s.results != []
    ensures Sent(s) <= Sent(Collected(plan, s, lost))
  {
    ReceiveKeeps(plan, s);
    ReceiveKeepsSent(s);
    CancelKeepsSent(plan, Receive(s), lost);
  }

  lemma SendGrows(s: State, t: State)
    requires t.completed == s.completed
    requires t.results == s.results || (|t.results| == |s.results| + 1 && t.results == s.results + [t.results[|s.results|]])
    ensures Sent(s) <= Sent(t)
  {
    if t.results != s.results {
      RunsOfAppend(s.results, t.results[|s.results|]);
    }
  }

  /** No step takes a sent result back. */
  lemma SentOnlyGrows(plan: Plan, s: State, step: Step)
    requires Inv(plan, s) && Enabled(plan, s, step)
    ensures Sent(s) <= Sent(Next(plan, s, step))
  {
    if step.Collect? {
      CollectKeepsSent(plan, s, step.lost);
    } else if step.ObserveParent? {
      FrameKeeps(plan, s, s.(parentArmed := false));
      CancelKeepsSent(plan, s.(parentArmed := false), step.lost);
    } else if step.ObserveGroup? {
      FrameKeeps(plan, s, s.(groupArmed := false));
      CancelKeepsSent(plan, s.(groupArmed := false), step.lost);
    } else {
      OneSendAtMost(plan, s, step);
      SendGrows(s, Next(plan, s, step));
    }
  }

  lemma OneSendAtMost(plan: Plan, s: State, step: Step)
    requires Enabled(plan, s, step) && !step.Collect? && !step.ObserveParent? && !step.ObserveGroup?
    ensures var t := Next(plan, s, step);
      t.completed == s.completed && (t.results == s.results || (|t.results| == |s.results| + 1 && t.results == s.results + [t.results[|s.results|]]))
  {
  }

  /** In every run of the machine each group member sends at most one result, and exactly one once the barrier is
      passed. */
  lemma EachRunSendsOneResult(plan: Plan, states: seq<State>, steps: seq<Step>, k: nat, later: nat, i: nat)
    requires IsRun(plan, states, steps) && k <= later < |states|
    ensures Sent(states[k])[i] <= Sent(states[later])[i] <= 1
    ensures states[later].phase == Finished ==> Sent(states[later])[i] == if i < |plan.deps| then 1 else 0
    decreases later - k
  {
    RunKeeps(plan, states, steps, later);
    assert Tokens(plan, states[later], i) <= 1;
    if states[later].phase == Finished {
      BarrierCollectsEachRunOnce(plan, states[later]);
    }
    if k < later {
      RunKeeps(plan, states, steps, k);
      assert IsStep(plan, states[k], steps[k], states[k + 1]);
      SentOnlyGrows(plan, states[k], steps[k]);
      EachRunSendsOneResult(plan, states, steps, k + 1, later, i);
    }
  }

  // ----- Dependencies -----

  /** A chain of dependencies, from a run down to something it depends on. */
  ghost predicate IsChain(plan: Plan, chain: seq<nat>) {
    && chain != [] && (forall k | 0 <= k < |chain| :: chain[k] < |plan.deps|)
    && (forall k, l | 0 <= k && l == k + 1 && l < |chain| :: chain[l] in plan.deps[chain[k]])
  }

  ghost predicate HasStarted(results: seq<Result>, i: nat) {
    exists k :: 0 <= k < |results| && results[k].run == i && results[k].outcome.started
  }

  /** A worker has begun to execute the run. */
  ghost predicate Started(s: State, i: nat) {
    i in s.executing || HasStarted(s.results, i) || HasStarted(s.completed, i)
  }

  ghost predicate CollectedAsCompleted(s: State, i: nat) {
    exists k :: 0 <= k < |s.completed| && s.completed[k].run == i && s.completed[k].outcome.status == Completed
  }

  lemma BufferedRecordIsNotCompleted(plan: Plan, s: State, d: nat)
    requires Inv(plan, s) && d in s.dependencyResults && d in RunsOf(s.results)
    ensures s.dependencyResults[d].status != Completed
  {
    var k := RunsOfIndex(s.results, d);
    assert Buffered(plan, s, s.results[k]);
  }

  lemma RecordedCompletionIsCollected(plan: Plan, s: State, d: nat)
    requires Inv(plan, s) && d in s.dependencyResults && s.dependencyResults[d].status == Completed
    ensures CollectedAsCompleted(s, d) && Started(s, d)
  {
    if d in RunsOf(s.results) {
      BufferedRecordIsNotCompleted(plan, s, d);
    }
    var k := RunsOfIndex(s.completed, d);
    assert IsCollected(plan, s, s.completed[k]);
  }

  lemma StartedNeedsDependencies(plan: Plan, s: State, i: nat, d: nat)
    requires Inv(plan, s) && Started(s, i) && i < |plan.deps| && d in plan.deps[i]
    ensures CollectedAsCompleted(s, d) && Started(s, d)
  {
    if i in s.executing {
      assert Dispatched(plan, s, i);
    } else if HasStarted(s.results, i) {
      var k :| 0 <= k < |s.results| && s.results[k].run == i && s.results[k].outcome.started;
      assert Buffered(plan, s, s.results[k]);
    } else {
      var k :| 0 <= k < |s.completed| && s.completed[k].run == i && s.completed[k].outcome.started;
      assert IsCollected(plan, s, s.completed[k]);
    }
    assert DependenciesCompleted(plan, s, i);
    RecordedCompletionIsCollected(plan, s, d);
  }

  /** Below a run that has started, the whole transitive closure of its dependencies was collected as completed. */
  lemma {:induction false} ClosureIsCompleted(plan: Plan, s: State, chain: seq<nat>, k: nat)
    requires Inv(plan, s) && IsChain(plan, chain) && Started(s, chain[0]) && 0 < k < |chain|
    ensures CollectedAsCompleted(s, chain[k]) && Started(s, chain[k])
  {
    if k > 1 {
      ClosureIsCompleted(plan, s, chain, k - 1);
    }
    StartedNeedsDependencies(plan, s, chain[k - 1], chain[k]);
  }

  /** A completed run is one that started, so its closure is completed as well. */
  lemma CompletedClosure(plan: Plan, states: seq<State>, steps: seq<Step>, t: nat, chain: seq<nat>, k: nat)
    requires IsRun(plan, states, steps) && t < |states| && IsChain(plan, chain) && k < |chain|
    requires CollectedAsCompleted(states[t], chain[0])
    ensures CollectedAsCompleted(states[t], chain[k])
  {
    var s := states[t];
    RunKeeps(plan, states, steps, t);
    var m :| 0 <= m < |s.completed| && s.completed[m].run == chain[0] && s.completed[m].outcome.status == Completed;
    assert IsCollected(plan, s, s.completed[m]);
    if k > 0 {
      ClosureIsCompleted(plan, s, chain, k);
    }
  }

  /** Recorded dependency results are never revised. */
  ghost predicate RecordsPersist(s: State, t: State) {
    forall d | d in s.dependencyResults :: d in t.dependencyResults && t.dependencyResults[d] == s.dependencyResults[d]
  }

  lemma {:induction false} SettlePendingPersists(plan: Plan, s: State, from: nat, lost: set<nat>)
    requires from <= |plan.deps| && s.dependencyResults.Keys == s.resolved
    ensures RecordsPersist(s, SettlePending(plan, s, from, lost))
    decreases |plan.deps| - from
  {
    if from < |plan.deps| {
      var u := if IsPending(plan, s, from) then Settle(s, from, QueuedOutcome(Cancelled, from !in lost)) else s;
      SettlePendingPersists(plan, u, from + 1, lost);
    }
  }

  lemma CancelPersists(plan: Plan, s: State, lost: set<nat>)
    requires s.dependencyResults.Keys == s.resolved
    ensures RecordsPersist(s, CancelPending(plan, s, lost))
  {
    SettlePendingPersists(plan, if s.groupError == NoError then s.(groupError := Canceled) else s, 0, lost);
  }

  lemma StepPersists(plan: Plan, s: State, step: Step)
    requires Inv(plan, s) && Enabled(plan, s, step)
    ensures RecordsPersist(s, Next(plan, s, step))
  {
    if step.Collect? {
      assert Buffered(plan, s, s.results[0]);
      CancelPersists(plan, Receive(s), step.lost);
    } else if step.ObserveParent? {
      CancelPersists(plan, s.(parentArmed := false), step.lost);
    } else if step.ObserveGroup? {
      CancelPersists(plan, s.(groupArmed := false), step.lost);
    }
  }

  lemma {:induction false} RunPersists(plan: Plan, states: seq<State>, steps: seq<Step>, k: nat, later: nat)
    requires IsRun(plan, states, steps) && k <= later < |states|
    ensures RecordsPersist(states[k], states[later])
    decreases later - k
  {
    if k < later {
      RunKeeps(plan, states, steps, k);
      assert IsStep(plan, states[k], steps[k], states[k + 1]);
      StepPersists(plan, states[k], steps[k]);
      RunPersists(plan, states, steps, k + 1, later);
    }
  }

  /** A run below which some dependency did not complete is never executed, neither before nor after that
      dependency's result is recorded. */
  lemma FailedDependencyPreventsExecution(plan: Plan, states: seq<State>, steps: seq<Step>, k: nat, other: nat, chain: seq<nat>)
    requires IsRun(plan, states, steps) && k < |states| && other < |states|
    requires IsChain(plan, chain) && |chain| >= 2
    requires var d := chain[|chain| - 1]; d in states[k].dependencyResults && states[k].dependencyResults[d].status != Completed
    ensures !Started(states[other], chain[0])
  {
    var d := chain[|chain| - 1];
    if Started(states[other], chain[0]) {
      var s := states[other];
      RunKeeps(plan, states, steps, other);
      ClosureIsCompleted(plan, s, chain, |chain| - 1);
      var m :| 0 <= m < |s.completed| && s.completed[m].run == d && s.completed[m].outcome.status == Completed;
      assert IsCollected(plan, s, s.completed[m]);
      if k <= other {
        RunPersists(plan, states, steps, k, other);
      } else {
        RunPersists(plan, states, steps, other, k);
      }
    }
  }
}
