/** internal/agent/subagent_runtime.go: which members of a group are executed.  A run that ends without having been
    executed has a dependency that did not complete, or the group was cancelled; and a group is cancelled exactly from
    outside or by what its failure policy says of the results collected so far. */
module GroupExecution {
  import opened GroupScheduler
  import opened GroupBarrier
  import opened GroupRuns
  import opened GroupOutcome

  /** A dependency of the run is recorded as ended without success. */
  ghost predicate LostDependency(plan: Plan, s: State, i: nat) {
    i < |plan.deps| && exists d :: d in plan.deps[i] && d in s.dependencyResults && s.dependencyResults[d].status != Completed
  }

  /** Why a run may end as it did: unless the group was cancelled, only a lost dependency keeps it from a worker, and
      then it is Failed; only a deadline lets it expire; and one that a worker gave up because of a cancellation carries
      the group's error. */
  ghost predicate Explained(plan: Plan, s: State, r: Result) {
    && (r.outcome.started || s.groupError != NoError || (r.outcome.status == Failed && LostDependency(plan, s, r.run)))
    && (r.outcome.status == Cancelled ==> s.groupError != NoError)
    && (r.outcome.status == Expired ==> s.groupError == DeadlineExceeded)
    && (r.run in s.scheduled && !r.outcome.started ==>
          s.groupError != NoError && r.outcome.status == if s.groupError == DeadlineExceeded then Expired else Cancelled)
  }

  ghost predicate AllExplained(plan: Plan, s: State) {
    && (forall k | 0 <= k < |s.results| :: Explained(plan, s, s.results[k]))
    && (forall k | 0 <= k < |s.completed| :: Explained(plan, s, s.completed[k]))
  }

  lemma LossesStay(plan: Plan, s: State, t: State)
    requires RecordsPersist(s, t)
    ensures forall i: nat | LostDependency(plan, s, i) :: LostDependency(plan, t, i)
  {
    forall i: nat | LostDependency(plan, s, i) ensures LostDependency(plan, t, i) {
      var d :| d in plan.deps[i] && d in s.dependencyResults && s.dependencyResults[d].status != Completed;
      assert d in t.dependencyResults && t.dependencyResults[d] == s.dependencyResults[d];
    }
  }

  /** Explanations last while records and errors do, if every new result is explained. */
  lemma ExplanationsStay(plan: Plan, s: State, t: State)
    requires AllExplained(plan, s) && RecordsPersist(s, t)
    requires s.groupError != NoError ==> t.groupError == s.groupError
    requires forall r | r in s.results || r in s.completed :: r.run in t.scheduled ==> r.run in s.scheduled
    requires forall r | r in t.results || r in t.completed :: r in s.results || r in s.completed || Explained(plan, t, r)
    ensures AllExplained(plan, t)
  {
    LossesStay(plan, s, t);
    forall r | r in t.results || r in t.completed ensures Explained(plan, t, r) {
      assert r in s.results || r in s.completed ==> Explained(plan, s, r);
    }
  }

  /** cancelPending ends every run that was pending, and only those: as Cancelled, or Failed if that was not saved. */
  lemma {:induction false} SettlePendingEnds(plan: Plan, s: State, from: nat, lost: set<nat>)
    requires from <= |plan.deps|
    ensures var t := SettlePending(plan, s, from, lost);
      && (forall i: nat | from <= i && IsPending(plan, s, i) :: i in t.dependencyResults
            && t.dependencyResults[i] == Outcome(if i in lost then Failed else Cancelled, false))
      && (forall i: nat | !(from <= i && IsPending(plan, s, i)) :: i in t.dependencyResults <==> i in s.dependencyResults)
      && (forall i: nat | i in s.dependencyResults && !(from <= i && IsPending(plan, s, i)) ::
            t.dependencyResults[i] == s.dependencyResults[i])
      && (forall r | r in t.results :: r in s.results
            || (r.run !in s.scheduled && !r.outcome.started && r.outcome.status in {Failed, Cancelled}))
    decreases |plan.deps| - from
  {
    if from < |plan.deps| {
      var u := if IsPending(plan, s, from) then Settle(s, from, QueuedOutcome(Cancelled, from !in lost)) else s;
      SettlePendingEnds(plan, u, from + 1, lost);
      forall i: nat | from < i ensures IsPending(plan, u, i) <==> IsPending(plan, s, i) {
      }
    }
  }

  lemma CancelPendingExplained(plan: Plan, s: State, lost: set<nat>)
    requires Core(plan, s) && AllExplained(plan, s)
    ensures AllExplained(plan, CancelPending(plan, s, lost))
  {
    var t, u := CancelPending(plan, s, lost), if s.groupError == NoError then s.(groupError := Canceled) else s;
    SettlePendingEnds(plan, u, 0, lost);
    CancelPendingKeeps(plan, s, lost);
    CancelPersists(plan, s, lost);
    assert t.groupError == u.groupError by {
      SettlePendingShape(plan, u, 0, lost);
    }
    ExplanationsStay(plan, s, t);
  }

  lemma ReceiveExplained(plan: Plan, s: State)
    requires Core(plan, s) && AllExplained(plan, s) && s.results != []
    ensures AllExplained(plan, Receive(s))
  {
    assert Buffered(plan, s, s.results[0]);
    ExplanationsStay(plan, s, Receive(s));
  }

  lemma CollectExplained(plan: Plan, s: State, lost: set<nat>)
    requires Inv(plan, s) && AllExplained(plan, s) && s.results != []
    ensures AllExplained(plan, Collected(plan, s, lost))
  {
    ReceiveKeeps(plan, s);
    ReceiveExplained(plan, s);
    CancelPendingExplained(plan, Receive(s), lost);
  }

  lemma ObserveExplained(plan: Plan, s: State, u: State, lost: set<nat>)
    requires Inv(plan, s) && AllExplained(plan, s)
    requires u == s.(parentArmed := u.parentArmed, groupArmed := u.groupArmed)
    ensures AllExplained(plan, CancelPending(plan, u, lost))
  {
    FrameKeeps(plan, s, u);
    ExplanationsStay(plan, s, u);
    CancelPendingExplained(plan, u, lost);
  }

  lemma ScanLoses(plan: Plan, s: State, i: nat, t: State)
    requires Inv(plan, s) && IsPending(plan, s, i) && DependenciesKnown(plan, s, i) && !DependenciesCompleted(plan, s, i)
    requires t.dependencyResults == s.dependencyResults[i := Outcome(Failed, false)]
    ensures LostDependency(plan, t, i)
  {
    var d :| d in plan.deps[i] && s.dependencyResults[d].status != Completed;
    assert d != i && d in t.dependencyResults;
  }

  lemma SettleExplained(plan: Plan, s: State, u: State, i: nat, outcome: Outcome)
    requires Core(plan, s) && AllExplained(plan, s) && IsPending(plan, s, i) && u == s.(phase := u.phase)
    requires Explained(plan, Settle(u, i, outcome), Result(i, outcome))
    ensures AllExplained(plan, Settle(u, i, outcome))
  {
    ExplanationsStay(plan, s, Settle(u, i, outcome));
  }

  lemma EnqueueExplained(plan: Plan, s: State, t: State, i: nat)
    requires Core(plan, s) && AllExplained(plan, s) && IsPending(plan, s, i)
    requires t == s.(phase := t.phase, scheduled := s.scheduled + {i}, queue := t.queue)
    ensures AllExplained(plan, t)
  {
    forall r | r in s.results || r in s.completed ensures r.run != i {
      assert Buffered(plan, s, r) || IsCollected(plan, s, r);
    }
    ExplanationsStay(plan, s, t);
  }

  lemma ScanExplained(plan: Plan, s: State, aborted: bool, persisted: bool)
    requires Inv(plan, s) && AllExplained(plan, s) && Enabled(plan, s, ScanRun(aborted, persisted))
    ensures AllExplained(plan, ScanOne(plan, s, aborted, persisted))
  {
    var i, t := s.phase.next, ScanOne(plan, s, aborted, persisted);
    var moved := s.(phase := s.phase.(next := i + 1));
    if !IsPending(plan, s, i) || !DependenciesKnown(plan, s, i) {
      ExplanationsStay(plan, s, moved);
    } else if !DependenciesCompleted(plan, s, i) {
      ScanLoses(plan, s, i, t);
      SettleExplained(plan, s, moved, i, Outcome(Failed, false));
    } else if aborted {
      SettleExplained(plan, s, moved, i, QueuedOutcome(CancelledStatus(s.groupError), persisted));
    } else {
      EnqueueExplained(plan, s, t, i);
    }
  }

  /** A run that could not be queued because of the cancellation carries the group's error, or is Failed if that was not
      saved. */
  lemma AbortedRunEnds(plan: Plan, s: State, persisted: bool)
    requires Inv(plan, s) && Enabled(plan, s, ScanRun(true, persisted))
    requires IsPending(plan, s, s.phase.next) && DependenciesCompleted(plan, s, s.phase.next)
    ensures s.groupError != NoError
    ensures var t, i := Next(plan, s, ScanRun(true, persisted)), s.phase.next;
      && t.queue == s.queue && i in t.dependencyResults && Result(i, t.dependencyResults[i]) in t.results
      && t.dependencyResults[i] == Outcome(
           if !persisted then Failed else if s.groupError == DeadlineExceeded then Expired else Cancelled, false)
  {
    var t := Next(plan, s, ScanRun(true, persisted));
    assert DependenciesKnown(plan, s, s.phase.next);
    assert t.results[|s.results|] == Result(s.phase.next, t.dependencyResults[s.phase.next]);
  }

  lemma NoticeExplained(plan: Plan, s: State, step: Step)
    requires Inv(plan, s) && AllExplained(plan, s) && Enabled(plan, s, step) && (step.ObserveParent? || step.ObserveGroup?)
    ensures AllExplained(plan, Next(plan, s, step))
  {
    if step.ObserveParent? {
      ObserveExplained(plan, s, s.(parentArmed := false), step.lost);
    } else {
      ObserveExplained(plan, s, s.(groupArmed := false), step.lost);
    }
  }

  predicate IsWorkerStep(step: Step) {
    step.Dequeue? || step.Acquire? || step.AbandonWait? || step.Finish?
  }

  lemma WorkerExplained(plan: Plan, s: State, step: Step)
    requires Inv(plan, s) && AllExplained(plan, s) && Enabled(plan, s, step) && IsWorkerStep(step)
    ensures AllExplained(plan, Next(plan, s, step))
  {
    WorkerFrame(plan, s, step);
    ExplanationsStay(plan, s, Next(plan, s, step));
  }

  lemma OutsideExplained(plan: Plan, s: State, step: Step)
    requires Inv(plan, s) && AllExplained(plan, s) && Enabled(plan, s, step) && !IsOwnStep(step)
    ensures AllExplained(plan, Next(plan, s, step))
  {
    var t := Next(plan, s, step);
    assert t.results == s.results && t.completed == s.completed && t.dependencyResults == s.dependencyResults;
    ExplanationsStay(plan, s, t);
  }

  lemma StepExplained(plan: Plan, s: State, step: Step)
    requires Inv(plan, s) && AllExplained(plan, s) && Enabled(plan, s, step)
    ensures AllExplained(plan, Next(plan, s, step))
  {
    if step.ScanRun? {
      ScanExplained(plan, s, step.aborted, step.persisted);
    } else if step.Collect? {
      CollectExplained(plan, s, step.lost);
    } else if step.ObserveParent? || step.ObserveGroup? {
      NoticeExplained(plan, s, step);
    } else if IsWorkerStep(step) {
      WorkerExplained(plan, s, step);
    } else if !IsOwnStep(step) {
      OutsideExplained(plan, s, step);
    }
  }

  /** In every state of every run of the machine, whatever ended without having been executed is explained. */
  lemma {:induction false} UnexecutedIsExplained(plan: Plan, states: seq<State>, steps: seq<Step>, k: nat)
    requires IsRun(plan, states, steps) && k < |states|
    ensures AllExplained(plan, states[k])
  {
    if k > 0 {
      UnexecutedIsExplained(plan, states, steps, k - 1);
      RunKeeps(plan, states, steps, k - 1);
      assert IsStep(plan, states[k - 1], steps[k - 1], states[k]);
      StepExplained(plan, states[k - 1], steps[k - 1]);
    }
  }

  // ----- When a group is cancelled -----

  ghost predicate CancelledOutside(steps: seq<Step>) {
    exists j :: 0 <= j < |steps| && (steps[j].CancelParent? || steps[j].CancelGroup?)
  }

  /** The failure policy ends the group on the results collected so far. */
  ghost predicate PolicyEnds(plan: Plan, done: seq<Result>) {
    || (plan.policy == AllOrNothing && HasLoss(done))
    || (plan.policy == RequireMinimum && plan.minimum > 0 && CountCompleted(done) >= plan.minimum)
  }

  lemma PolicyEndsOnce(plan: Plan, early: seq<Result>, done: seq<Result>)
    requires early <= done && PolicyEnds(plan, early)
    ensures PolicyEnds(plan, done)
  {
    if plan.policy == AllOrNothing {
      LossStays(early, done);
    } else {
      CountCompletedGrows(early, done);
    }
  }

  lemma CancelLeavesNothing(plan: Plan, s: State, lost: set<nat>)
    ensures var t := CancelPending(plan, s, lost);
      && t.scheduled == s.scheduled && s.resolved <= t.resolved && Pending(plan, t) == {}
  {
    SettlePendingShape(plan, if s.groupError == NoError then s.(groupError := Canceled) else s, 0, lost);
  }

  lemma NothingBecomesPending(plan: Plan, s: State, step: Step)
    requires Inv(plan, s) && Enabled(plan, s, step)
    ensures Pending(plan, Next(plan, s, step)) <= Pending(plan, s)
  {
    match step {
      case Collect(lost) => CancelLeavesNothing(plan, Receive(s), lost);
      case ObserveParent(lost) => CancelLeavesNothing(plan, s.(parentArmed := false), lost);
      case ObserveGroup(lost) => CancelLeavesNothing(plan, s.(groupArmed := false), lost);
      case _ =>
    }
  }

  lemma LossAppend(done: seq<Result>, r: Result)
    ensures HasLoss(done + [r]) <==> HasLoss(done) || r.outcome.status != Completed
  {
    if HasLoss(done) {
      LossStays(done, done + [r]);
    } else if r.outcome.status != Completed {
      assert (done + [r])[|done|] == r;
    }
  }

  /** Receiving a result cancels the group at once when the policy says so, and never otherwise. */
  lemma CollectFollowsPolicy(plan: Plan, s: State, lost: set<nat>)
    requires Inv(plan, s) && s.results != [] && !PolicyEnds(plan, s.completed)
    ensures var t := Collected(plan, s, lost);
      && t.completed == s.completed + [s.results[0]]
      && (PolicyEnds(plan, t.completed) ==> t.groupError != NoError && Pending(plan, t) == {})
      && (!PolicyEnds(plan, t.completed) ==> t.groupError == s.groupError && Pending(plan, t) == Pending(plan, s))
  {
    var t := Receive(s);
    ReceiveKeeps(plan, s);
    CancelPendingKeeps(plan, t, lost);
    CancelLeavesNothing(plan, t, lost);
    assert Buffered(plan, s, s.results[0]);
    LossAppend(s.completed, s.results[0]);
  }

  /** One step of the account of cancellation. */
  lemma StepCancels(plan: Plan, s: State, step: Step, outside: bool)
    requires Inv(plan, s) && Enabled(plan, s, step)
    requires s.groupError != NoError <==> outside || PolicyEnds(plan, s.completed)
    requires PolicyEnds(plan, s.completed) ==> Pending(plan, s) == {}
    ensures var t := Next(plan, s, step);
      && (t.groupError != NoError <==> outside || step.CancelParent? || step.CancelGroup? || PolicyEnds(plan, t.completed))
      && (PolicyEnds(plan, t.completed) ==> Pending(plan, t) == {})
  {
    var t := Next(plan, s, step);
    StepCollects(plan, s, step);
    NothingBecomesPending(plan, s, step);
    if PolicyEnds(plan, s.completed) {
      PolicyEndsOnce(plan, s.completed, t.completed);
      ErrorStays(plan, s, step);
    } else if step.Collect? {
      CollectFollowsPolicy(plan, s, step.lost);
    } else {
      QuietStep(plan, s, step);
    }
  }

  lemma ErrorStays(plan: Plan, s: State, step: Step)
    requires Inv(plan, s) && Enabled(plan, s, step) && s.groupError != NoError
    ensures Next(plan, s, step).groupError == s.groupError
  {
    match step {
      case Collect(lost) => SettlePendingShape(plan, Receive(s), 0, lost);
      case ObserveParent(lost) => SettlePendingShape(plan, s.(parentArmed := false), 0, lost);
      case ObserveGroup(lost) => SettlePendingShape(plan, s.(groupArmed := false), 0, lost);
      case _ =>
    }
  }

  lemma QuietStep(plan: Plan, s: State, step: Step)
    requires Inv(plan, s) && Enabled(plan, s, step) && !step.Collect?
    ensures var t := Next(plan, s, step);
      && t.completed == s.completed
      && (t.groupError != NoError <==> s.groupError != NoError || step.CancelParent? || step.CancelGroup?)
  {
    if step.ObserveParent? {
      SettlePendingShape(plan, s.(parentArmed := false), 0, step.lost);
    } else if step.ObserveGroup? {
      SettlePendingShape(plan, s.(groupArmed := false), 0, step.lost);
    } else if IsWorkerStep(step) {
      WorkerFrame(plan, s, step);
    }
  }

  /** In every state of every run the group is cancelled if and only if it was cancelled from outside or its policy
      ends it on the results collected so far; and once the policy has ended it, no run is left to be started. */
  lemma {:induction false} CancelledExactlyByPolicy(plan: Plan, states: seq<State>, steps: seq<Step>, k: nat)
    requires IsRun(plan, states, steps) && k < |states|
    ensures states[k].groupError != NoError <==> CancelledOutside(steps[..k]) || PolicyEnds(plan, states[k].completed)
    ensures PolicyEnds(plan, states[k].completed) ==> Pending(plan, states[k]) == {}
  {
    if k > 0 {
      CancelledExactlyByPolicy(plan, states, steps, k - 1);
      RunKeeps(plan, states, steps, k - 1);
      assert IsStep(plan, states[k - 1], steps[k - 1], states[k]);
      StepCancels(plan, states[k - 1], steps[k - 1], CancelledOutside(steps[..k - 1]));
      OutsideAppend(steps[..k - 1], steps[k - 1]);
      assert steps[..k] == steps[..k - 1] + [steps[k - 1]];
    }
  }

  /** A cancellation that the barrier has noticed leaves no run to be started. */
  lemma {:induction false} NoticedCancelEndsPending(plan: Plan, states: seq<State>, steps: seq<Step>, k: nat)
    requires IsRun(plan, states, steps) && k < |states|
    ensures !states[k].parentArmed || !states[k].groupArmed ==> states[k].groupError != NoError && Pending(plan, states[k]) == {}
  {
    if k > 0 {
      var s, step := states[k - 1], steps[k - 1];
      NoticedCancelEndsPending(plan, states, steps, k - 1);
      RunKeeps(plan, states, steps, k - 1);
      assert IsStep(plan, s, step, states[k]);
      StepNotices(plan, s, step);
    }
  }

  lemma StepNotices(plan: Plan, s: State, step: Step)
    requires Inv(plan, s) && Enabled(plan, s, step)
    requires !s.parentArmed || !s.groupArmed ==> s.groupError != NoError && Pending(plan, s) == {}
    ensures var t := Next(plan, s, step);
      !t.parentArmed || !t.groupArmed ==> t.groupError != NoError && Pending(plan, t) == {}
  {
    NothingBecomesPending(plan, s, step);
    match step {
      case ObserveParent(lost) =>
        CancelLeavesNothing(plan, s.(parentArmed := false), lost);
        SettlePendingShape(plan, s.(parentArmed := false), 0, lost);
      case ObserveGroup(lost) =>
        CancelLeavesNothing(plan, s.(groupArmed := false), lost);
        SettlePendingShape(plan, s.(groupArmed := false), 0, lost);
      case Collect(lost) =>
        ReceiveKeeps(plan, s);
        CancelPendingKeeps(plan, Receive(s), lost);
        if s.groupError != NoError {
          ErrorStays(plan, s, step);
        }
      case _ =>
    }
  }

  lemma OutsideAppend(steps: seq<Step>, step: Step)
    ensures CancelledOutside(steps + [step]) <==> CancelledOutside(steps) || step.CancelParent? || step.CancelGroup?
  {
    var all := steps + [step];
    if j :| 0 <= j < |steps| && (steps[j].CancelParent? || steps[j].CancelGroup?) {
      assert all[j] == steps[j];
    }
    assert all[|steps|] == step;
  }

  // ----- Who is executed -----

  lemma CollectedAt(plan: Plan, s: State, i: nat) returns (k: nat)
    requires Inv(plan, s) && s.phase == Finished && i < |plan.deps|
    ensures k < |s.completed| && s.completed[k].run == i && IsCollected(plan, s, s.completed[k])
  {
    BarrierCollectsEachRunOnce(plan, s);
    k := RunsOfIndex(s.completed, i);
  }

  lemma NotCancelledExecutes(plan: Plan, s: State, i: nat)
    requires Inv(plan, s) && AllExplained(plan, s) && s.phase == Finished && s.groupError == NoError && i < |plan.deps|
    ensures Started(s, i) <==> forall d | d in plan.deps[i] :: CollectedAsCompleted(s, d)
    ensures !Started(s, i) ==> i in s.dependencyResults && s.dependencyResults[i] == Outcome(Failed, false)
  {
    if Started(s, i) {
      forall d | d in plan.deps[i] ensures CollectedAsCompleted(s, d) {
        StartedNeedsDependencies(plan, s, i, d);
      }
    } else {
      var k := CollectedAt(plan, s, i);
      assert Explained(plan, s, s.completed[k]) && !s.completed[k].outcome.started;
      var d :| d in plan.deps[i] && d in s.dependencyResults && s.dependencyResults[d].status != Completed;
      assert !CollectedAsCompleted(s, d) by {
        forall m | 0 <= m < |s.completed| && s.completed[m].run == d ensures s.completed[m].outcome.status != Completed {
          assert IsCollected(plan, s, s.completed[m]);
        }
      }
    }
  }

  /** Behind the barrier of a group that nobody cancelled and that its policy did not end, exactly those members were
      executed whose dependencies all completed; the others are Failed. */
  lemma ExecutesWhatItCan(plan: Plan, states: seq<State>, steps: seq<Step>, last: nat, i: nat)
    requires IsRun(plan, states, steps) && last < |states| && states[last].phase == Finished && i < |plan.deps|
    requires !CancelledOutside(steps[..last]) && !PolicyEnds(plan, states[last].completed)
    ensures Started(states[last], i) <==> forall d | d in plan.deps[i] :: CollectedAsCompleted(states[last], d)
    ensures !Started(states[last], i) ==> i in states[last].dependencyResults && states[last].dependencyResults[i] == Outcome(Failed, false)
  {
    RunKeeps(plan, states, steps, last);
    UnexecutedIsExplained(plan, states, steps, last);
    CancelledExactlyByPolicy(plan, states, steps, last);
    NotCancelledExecutes(plan, states[last], i);
  }

  /** best_effort: without a cancellation from outside, every member whose dependencies completed is executed. */
  lemma BestEffortExecutesAll(plan: Plan, states: seq<State>, steps: seq<Step>, last: nat, i: nat)
    requires IsRun(plan, states, steps) && last < |states| && states[last].phase == Finished && i < |plan.deps|
    requires plan.policy == BestEffort && !CancelledOutside(steps[..last])
    requires forall d | d in plan.deps[i] :: CollectedAsCompleted(states[last], d)
    ensures Started(states[last], i)
  {
    ExecutesWhatItCan(plan, states, steps, last, i);
  }

  /** After a cancellation no further run reaches the semaphore. */
  lemma {:induction false} CancelledGroupAdmitsNobody(plan: Plan, states: seq<State>, steps: seq<Step>, k: nat, later: nat)
    requires IsRun(plan, states, steps) && k <= later < |states| && states[k].groupError != NoError
    ensures states[later].waiting <= states[k].waiting && states[later].groupError == states[k].groupError
    decreases later - k
  {
    if k < later {
      RunKeeps(plan, states, steps, k);
      assert IsStep(plan, states[k], steps[k], states[k + 1]);
      ErrorStays(plan, states[k], steps[k]);
      WaitingShrinks(plan, states[k], steps[k]);
      CancelledGroupAdmitsNobody(plan, states, steps, k + 1, later);
    }
  }

  lemma WaitingShrinks(plan: Plan, s: State, step: Step)
    requires Inv(plan, s) && Enabled(plan, s, step) && s.groupError != NoError
    ensures Next(plan, s, step).waiting <= s.waiting
  {
    if step.Collect? {
      SettlePendingShape(plan, Receive(s), 0, step.lost);
    } else if step.ObserveParent? {
      SettlePendingShape(plan, s.(parentArmed := false), 0, step.lost);
    } else if step.ObserveGroup? {
      SettlePendingShape(plan, s.(groupArmed := false), 0, step.lost);
    }
  }
}
