/** internal/agent/subagent_runtime.go: from an accepted request to the verdict.  The dependency check supplies the rank
    that keeps the barrier from sticking, and the collected runs are what the accounting sees. */
module GroupOutcome {
  import D = DependencyGraph
  import V = GroupVerdict
  import opened GroupScheduler
  import opened GroupBarrier
  import opened GroupRuns

  // ----- The plan of an accepted request -----

  ghost predicate IsName(runs: seq<D.Run>, id: D.RunId) {
    exists j :: 0 <= j < |runs| && runs[j].id == id
  }

  function IndexOf(runs: seq<D.Run>, id: D.RunId): (k: nat)
    requires IsName(runs, id)
    ensures k < |runs| && runs[k].id == id
  {
    if runs[0].id == id then 0
    else
      assert IsName(runs[1..], id) by {
        var i :| 0 <= i < |runs| && runs[i].id == id;
        assert runs[1..][i - 1].id == id;
      }
      1 + IndexOf(runs[1..], id)
  }

  /** validateSubAgentGroupRequest: every dependency names a run of the request. */
  ghost predicate TargetsExist(runs: seq<D.Run>) {
    forall i, d | 0 <= i < |runs| && d in runs[i].dependsOn :: IsName(runs, d)
  }

  ghost predicate UniqueIds(runs: seq<D.Run>) {
    forall i, j | 0 <= i < j < |runs| :: runs[i].id != runs[j].id
  }

  /** Logical names become positions, as logicalToRunID turns them into persistent run identifiers. */
  ghost predicate Translates(runs: seq<D.Run>, deps: seq<seq<nat>>) {
    && |deps| == |runs|
    && forall i | 0 <= i < |runs| ::
         && |deps[i]| == |runs[i].dependsOn|
         && forall k | 0 <= k < |deps[i]| :: deps[i][k] < |runs| && runs[deps[i][k]].id == runs[i].dependsOn[k]
  }

  /** The translation, by looking every name up. */
  function Translation(runs: seq<D.Run>): (deps: seq<seq<nat>>)
    requires TargetsExist(runs)
    ensures Translates(runs, deps)
  {
    seq(|runs|, i requires 0 <= i < |runs| && TargetsExist(runs) => Positions(runs, runs[i].dependsOn))
  }

  function Positions(runs: seq<D.Run>, names: seq<D.RunId>): (positions: seq<nat>)
    requires forall d | d in names :: IsName(runs, d)
    ensures |positions| == |names| && forall k | 0 <= k < |names| :: positions[k] < |runs| && runs[positions[k]].id == names[k]
  {
    if names == [] then [] else
      assert names[0] in names && forall d | d in names[1..] :: d in names;
      [IndexOf(runs, names[0])] + Positions(runs, names[1..])
  }

  /** As identifiers are unique, there is no other translation. */
  lemma TranslationIsOnlyOne(runs: seq<D.Run>, deps: seq<seq<nat>>)
    requires TargetsExist(runs) && UniqueIds(runs)
    ensures Translates(runs, deps) <==> deps == Translation(runs)
  {
    var only := Translation(runs);
    if Translates(runs, deps) {
      forall i | 0 <= i < |runs| ensures deps[i] == only[i] {
        forall k | 0 <= k < |deps[i]| ensures deps[i][k] == only[i][k] {
          assert runs[deps[i][k]].id == runs[only[i][k]].id;
        }
      }
    }
  }

  /** Every accepted request is a plan with a rank, whatever policy and bounds it is run with. */
  lemma AcceptedPlanIsRanked(runs: seq<D.Run>, rank: map<D.RunId, nat>, plan: Plan)
    requires D.IsRanking(runs, rank) && Translates(runs, plan.deps)
    ensures Ranked(plan, seq(|runs|, i requires 0 <= i < |runs| => rank[runs[i].id]))
  {
    var ranks := seq(|runs|, i requires 0 <= i < |runs| => rank[runs[i].id]);
    forall i, d | 0 <= i < |plan.deps| && d in plan.deps[i] ensures d < |plan.deps| && ranks[d] < ranks[i] {
      var k :| 0 <= k < |plan.deps[i]| && plan.deps[i][k] == d;
      assert D.DependsOn(runs, runs[i].id, runs[d].id);
    }
  }

  /** Whatever state the machine reaches with the plan, either the barrier is passed or a step towards it is enabled. */
  ghost predicate NeverSticks(plan: Plan) {
    forall states: seq<State>, steps: seq<Step>, k: nat | IsRun(plan, states, steps) && k < |states| :: Moves(plan, states[k])
  }

  ghost predicate Moves(plan: Plan, s: State) {
    s.phase != Finished ==> exists step :: Enabled(plan, s, step) && (IsOwnStep(step) || step.ForeignDequeue? || step.ForeignFinish?)
  }

  lemma AcceptedPlanNeverSticks(runs: seq<D.Run>, rank: map<D.RunId, nat>, plan: Plan)
    requires D.IsRanking(runs, rank) && TargetsExist(runs) && plan.deps == Translation(runs)
    requires plan.queueSize > 0 && plan.workers > 0 && plan.concurrency > 0
    ensures NeverSticks(plan)
  {
    AcceptedPlanIsRanked(runs, rank, plan);
    forall states: seq<State>, steps: seq<Step>, k: nat | IsRun(plan, states, steps) && k < |states| ensures Moves(plan, states[k]) {
      RunKeeps(plan, states, steps, k);
      if states[k].phase != Finished {
        var step := BarrierNeverSticks(plan, seq(|runs|, i requires 0 <= i < |runs| => rank[runs[i].id]), states[k]);
      }
    }
  }

  /** What the naming part of validateSubAgentGroupRequest lets through. */
  ghost predicate Acceptable(runs: seq<D.Run>) {
    UniqueIds(runs) && TargetsExist(runs) && !D.RepeatsDependency(runs) && !D.Cyclic(runs)
  }

  /** The part of validateSubAgentGroupRequest that is about names and dependencies: a request is accepted if and only if
      its names are unique, its dependencies exist, no run repeats one, and they have no cycle; and the plan of every
      accepted request never sticks, whatever policy and bounds it is run with. */
  method ValidateGroupRequest(items: seq<D.RunRequest>) returns (ok: bool)
    ensures ok <==> Acceptable(D.ResolveAll(items))
    ensures ok ==> forall plan: Plan | plan.deps == Translation(D.ResolveAll(items))
                     && plan.queueSize > 0 && plan.workers > 0 && plan.concurrency > 0 :: NeverSticks(plan)
  {
    var runs := D.ResolveAll(items);
    var ids: set<D.RunId> := {};
    for i := 0 to |runs|
      invariant ids == set k | 0 <= k < i :: runs[k].id
      invariant forall k, l | 0 <= k < l < i :: runs[k].id != runs[l].id
    {
      if runs[i].id in ids {
        return false;
      }
      ids := ids + {runs[i].id};
    }
    for i := 0 to |runs| {
      var bad := HasBadDependency(items, i);
      if bad {
        return false;
      }
    }
    var missing := HasMissingTarget(runs, ids);
    if missing {
      return false;
    }
    var verdict := D.ValidateDependencyGraph(items);
    ok := verdict == D.Accepted;
    if ok {
      ghost var rank :| D.IsRanking(runs, rank);
      forall plan: Plan | plan.deps == Translation(runs) && plan.queueSize > 0 && plan.workers > 0 && plan.concurrency > 0
        ensures NeverSticks(plan)
      {
        AcceptedPlanNeverSticks(runs, rank, plan);
      }
    }
  }

  /** A blank dependency and a dependency on the run itself are refused early; both would be refused later as well. */
  method HasBadDependency(items: seq<D.RunRequest>, i: nat) returns (bad: bool)
    requires i < |items|
    ensures bad ==> !Acceptable(D.ResolveAll(items))
  {
    var runs := D.ResolveAll(items);
    bad := false;
    for k := 0 to |runs[i].dependsOn| {
      var d := runs[i].dependsOn[k];
      if d == D.RunId("") || d == runs[i].id {
        if d == runs[i].id {
          OwnDependencyIsCycle(runs, i);
        } else {
          NoNameIsBlank(items);
          assert d in runs[i].dependsOn && !IsName(runs, d);
        }
        return true;
      }
    }
  }

  lemma NoNameIsBlank(items: seq<D.RunRequest>)
    ensures !IsName(D.ResolveAll(items), D.RunId(""))
  {
    forall j | 0 <= j < |items| ensures D.ResolveAll(items)[j].id != D.RunId("") {
      assert D.ResolveAll(items)[j] == D.Resolve(items[j], j);
      assert |"ordinal-"| == 8;
    }
  }

  lemma OwnDependencyIsCycle(runs: seq<D.Run>, i: nat)
    requires i < |runs| && runs[i].id in runs[i].dependsOn
    ensures D.Cyclic(runs)
  {
    var walk := [runs[i].id, runs[i].id];
    assert D.DependsOn(runs, runs[i].id, runs[i].id);
    assert D.IsWalk(runs, walk);
  }

  method HasMissingTarget(runs: seq<D.Run>, ids: set<D.RunId>) returns (missing: bool)
    requires ids == set k | 0 <= k < |runs| :: runs[k].id
    ensures missing <==> !TargetsExist(runs)
  {
    assert forall d :: IsName(runs, d) <==> d in ids;
    for i := 0 to |runs|
      invariant forall j, d | 0 <= j < i && d in runs[j].dependsOn :: d in ids
    {
      for k := 0 to |runs[i].dependsOn|
        invariant forall l | 0 <= l < k :: runs[i].dependsOn[l] in ids
      {
        if runs[i].dependsOn[k] !in ids {
          assert runs[i].dependsOn[k] in runs[i].dependsOn;
          return true;
        }
      }
    }
    missing := false;
  }

  // ----- The verdict of a run of the machine -----

  function ToRun(r: Result): V.Run {
    V.Run(match r.outcome.status
          case Completed => V.Completed case Failed => V.Failed case Cancelled => V.Cancelled case Expired => V.Expired,
          r.outcome.started)
  }

  function ToRuns(results: seq<Result>): (runs: seq<V.Run>)
    ensures |runs| == |results|
    ensures forall i | 0 <= i < |results| :: runs[i] == ToRun(results[i])
  {
    if results == [] then [] else ToRuns(results[..|results| - 1]) + [ToRun(results[|results| - 1])]
  }

  function ToPolicy(policy: Policy): V.FailurePolicy {
    match policy case AllOrNothing => V.AllOrNothing case BestEffort => V.BestEffort case RequireMinimum => V.RequireMinimum
  }

  ghost function Verdict(plan: Plan, s: State): V.RunStatus {
    V.FinalStatus(ToPolicy(plan.policy), plan.minimum, ToRuns(s.completed))
  }

  lemma {:induction false} CountsAgree(results: seq<Result>)
    ensures V.Count(ToRuns(results), V.IsCompleted) == CountCompleted(results)
  {
    if results != [] {
      var last := |results| - 1;
      CountsAgree(results[..last]);
      CountCompletedAppend(results[..last], results[last]);
      assert results == results[..last] + [results[last]];
      assert ToRuns(results)[..last] == ToRuns(results[..last]);
    }
  }

  lemma {:induction false} CountCompletedAppend(results: seq<Result>, r: Result)
    ensures CountCompleted(results + [r]) == CountCompleted(results) + (if r.outcome.status == Completed then 1 else 0)
  {
    if results == [] {
      assert results + [r] == [r];
    } else {
      assert (results + [r])[1..] == results[1..] + [r];
      CountCompletedAppend(results[1..], r);
    }
  }

  lemma {:induction false} CountCompletedGrows(a: seq<Result>, b: seq<Result>)
    requires a <= b
    ensures CountCompleted(a) <= CountCompleted(b)
  {
    if a != [] {
      CountCompletedGrows(a[1..], b[1..]);
    }
  }

  /** Collected results stay collected, in the order in which they were received. */
  lemma {:induction false} CollectedStay(plan: Plan, states: seq<State>, steps: seq<Step>, k: nat, later: nat)
    requires IsRun(plan, states, steps) && k <= later < |states|
    ensures states[k].completed <= states[later].completed
    decreases later - k
  {
    if k < later {
      var s, step := states[k], steps[k];
      RunKeeps(plan, states, steps, k);
      assert IsStep(plan, s, step, states[k + 1]);
      StepCollects(plan, s, step);
      CollectedStay(plan, states, steps, k + 1, later);
    }
  }

  lemma StepCollects(plan: Plan, s: State, step: Step)
    requires Inv(plan, s) && Enabled(plan, s, step)
    ensures s.completed <= Next(plan, s, step).completed
  {
    if step.Collect? {
      ReceiveKeeps(plan, s);
      CancelPendingKeeps(plan, Receive(s), step.lost);
    } else if step.ObserveParent? {
      FrameKeeps(plan, s, s.(parentArmed := false));
      CancelPendingKeeps(plan, s.(parentArmed := false), step.lost);
    } else if step.ObserveGroup? {
      FrameKeeps(plan, s, s.(groupArmed := false));
      CancelPendingKeeps(plan, s.(groupArmed := false), step.lost);
    }
  }

  ghost predicate AllEnded(results: seq<Result>, status: Status) {
    forall i | 0 <= i < |results| :: results[i].outcome.status == status
  }

  /** The verdict in terms of the collected results: the uniform cases, and a group without success that ran out of time. */
  lemma VerdictOfResults(plan: Plan, s: State)
    requires s.completed != [] && (plan.policy == RequireMinimum ==> 1 <= plan.minimum <= |s.completed|)
    ensures Verdict(plan, s) == V.Completed <==> AllEnded(s.completed, Completed)
    ensures Verdict(plan, s) == V.Cancelled <==> AllEnded(s.completed, Cancelled)
    ensures Verdict(plan, s) == V.Expired <==>
              && CountCompleted(s.completed) == 0
              && exists i :: 0 <= i < |s.completed| && s.completed[i].outcome.status == Expired
  {
    CountsAgree(s.completed);
    StatusesAgree(s.completed);
    V.VerdictFollowsPolicy(ToPolicy(plan.policy), plan.minimum, ToRuns(s.completed));
  }

  lemma StatusesAgree(results: seq<Result>)
    ensures V.AllTerminal(ToRuns(results))
    ensures V.AllHave(ToRuns(results), {V.Completed}) <==> AllEnded(results, Completed)
    ensures V.AllHave(ToRuns(results), {V.Cancelled}) <==> AllEnded(results, Cancelled)
    ensures V.AnyExpired(ToRuns(results)) <==> exists i :: 0 <= i < |results| && results[i].outcome.status == Expired
  {
    var runs := ToRuns(results);
    assert forall i | 0 <= i < |runs| :: runs[i] == ToRun(results[i]);
  }

  /** The verdict on the results collected in the end, given some that were collected before. */
  lemma MinimumDecides(plan: Plan, early: seq<Result>, done: seq<Result>)
    requires early <= done && plan.policy == RequireMinimum && 1 <= plan.minimum <= |done|
    ensures var verdict := V.FinalStatus(ToPolicy(plan.policy), plan.minimum, ToRuns(done));
      && (CountCompleted(early) >= plan.minimum ==> verdict in {V.Completed, V.PartialFailed})
      && (CountCompleted(done) < plan.minimum ==> verdict in {V.Failed, V.Cancelled, V.Expired})
  {
    CountCompletedGrows(early, done);
    CountsAgree(done);
    V.VerdictFollowsPolicy(V.RequireMinimum, plan.minimum, ToRuns(done));
  }

  lemma AllCollected(plan: Plan, states: seq<State>, steps: seq<Step>, last: nat)
    requires IsRun(plan, states, steps) && last < |states| && states[last].phase == Finished
    ensures |states[last].completed| == |plan.deps|
  {
    RunKeeps(plan, states, steps, last);
    BarrierCollectsEachRunOnce(plan, states[last]);
  }

  /** require_minimum: once the minimum was collected, the runs cancelled because of it cannot spoil the verdict; and
      a group that never collects the minimum does not succeed. */
  lemma MinimumSettlesVerdict(plan: Plan, states: seq<State>, steps: seq<Step>, k: nat, last: nat)
    requires IsRun(plan, states, steps) && k <= last < |states| && states[last].phase == Finished
    requires plan.policy == RequireMinimum && 1 <= plan.minimum <= |plan.deps|
    ensures CountCompleted(states[k].completed) >= plan.minimum ==> Verdict(plan, states[last]) in {V.Completed, V.PartialFailed}
    ensures CountCompleted(states[last].completed) < plan.minimum ==> Verdict(plan, states[last]) in {V.Failed, V.Cancelled, V.Expired}
  {
    CollectedStay(plan, states, steps, k, last);
    AllCollected(plan, states, steps, last);
    MinimumDecides(plan, states[k].completed, states[last].completed);
  }

  ghost predicate HasLoss(results: seq<Result>) {
    exists i :: 0 <= i < |results| && results[i].outcome.status != Completed
  }

  lemma LossDecides(plan: Plan, done: seq<Result>)
    requires plan.policy == AllOrNothing && done != []
    ensures V.FinalStatus(ToPolicy(plan.policy), plan.minimum, ToRuns(done)) != V.Completed <==> HasLoss(done)
  {
    var runs := ToRuns(done);
    V.VerdictFollowsPolicy(V.AllOrNothing, plan.minimum, runs);
    assert forall i | 0 <= i < |done| :: runs[i].status.Completed? <==> done[i].outcome.status == Completed;
  }

  lemma LossStays(early: seq<Result>, done: seq<Result>)
    requires early <= done && HasLoss(early)
    ensures HasLoss(done)
  {
    var i :| 0 <= i < |early| && early[i].outcome.status != Completed;
    assert done[i] == early[i];
  }

  /** all_or_nothing: one collected run that is not completed rules the verdict Completed out for good, and every group
      that is not Completed has such a run. */
  lemma OneFailureSettlesVerdict(plan: Plan, states: seq<State>, steps: seq<Step>, last: nat)
    requires IsRun(plan, states, steps) && last < |states| && states[last].phase == Finished && plan.deps != []
    requires plan.policy == AllOrNothing
    ensures Verdict(plan, states[last]) != V.Completed <==> exists k :: 0 <= k <= last && HasLoss(states[k].completed)
  {
    AllCollected(plan, states, steps, last);
    LossDecides(plan, states[last].completed);
    if k :| 0 <= k <= last && HasLoss(states[k].completed) {
      CollectedStay(plan, states, steps, k, last);
      LossStays(states[k].completed, states[last].completed);
    }
  }
}
