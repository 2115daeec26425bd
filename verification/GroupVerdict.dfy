/** internal/agent/subagent_runtime.go: the accounting of recalculateGroup, the branch chain that turns a group's runs
    into its final status, and the closing of groups found unfinished after a restart. */
module GroupVerdict {

  datatype RunStatus = Requested | Queued | Running | Completed | PartialFailed | Failed | Cancelled | Expired {
    predicate Terminal() {
      Completed? || PartialFailed? || Failed? || Cancelled? || Expired?
    }
  }

  datatype FailurePolicy = AllOrNothing | BestEffort | RequireMinimum

  /** The part of a run the accounting looks at; `started` is whether StartedAt is set. */
  datatype Run = Run(status: RunStatus, started: bool)

  datatype Usage = Usage(reserved: nat, consumed: nat, released: nat, unknown: nat, runs: nat, succeeded: nat, failed: nat)

  datatype Group = Group(status: RunStatus, policy: FailurePolicy, minimum: nat,
                         queued: nat, running: nat, completed: nat, failed: nat, cancelled: nat, usage: Usage)

  /** How many runs have a property. */
  function Count(runs: seq<Run>, p: Run -> bool): nat {
    if runs == [] then 0 else Count(runs[..|runs| - 1], p) + (if p(runs[|runs| - 1]) then 1 else 0)
  }

  const IsQueued: Run -> bool := (r: Run) => r.status.Queued? || r.status.Requested?
  const IsRunning: Run -> bool := (r: Run) => r.status.Running?
  const IsCompleted: Run -> bool := (r: Run) => r.status.Completed?
  const IsCancelled: Run -> bool := (r: Run) => r.status.Cancelled? || r.status.Expired?
  const IsFailed: Run -> bool := (r: Run) => r.status.Failed? || r.status.PartialFailed?
  const IsLost: Run -> bool := (r: Run) => IsCancelled(r) || IsFailed(r)
  const IsLostUnstarted: Run -> bool := (r: Run) => IsLost(r) && !r.started
  const IsLostStarted: Run -> bool := (r: Run) => IsLost(r) && r.started

  /** The positions of the runs in one of the given states. */
  ghost function In(runs: seq<Run>, statuses: set<RunStatus>): set<nat> {
    set i | 0 <= i < |runs| && runs[i].status in statuses
  }

  /** The positions of the runs that ended without a result, by whether they ever reached a worker. */
  ghost function LostRuns(runs: seq<Run>, started: bool): set<nat> {
    set i | 0 <= i < |runs| && runs[i].status in {Failed, PartialFailed, Cancelled, Expired} && runs[i].started == started
  }

  ghost predicate CountsRuns(group: Group, runs: seq<Run>) {
    && group.queued == |In(runs, {Requested, Queued})| && group.running == |In(runs, {Running})|
    && group.completed == |In(runs, {Completed})| && group.failed == |In(runs, {Failed, PartialFailed})|
    && group.cancelled == |In(runs, {Cancelled, Expired})|
    && group.usage.reserved == group.usage.runs == |runs|
    && group.usage.consumed == group.usage.succeeded == |In(runs, {Completed})|
    && group.usage.failed == |In(runs, {Failed, PartialFailed, Cancelled, Expired})|
    && group.usage.released == |LostRuns(runs, false)| && group.usage.unknown == |LostRuns(runs, true)|
  }

  lemma {:induction false} CountIsSize(runs: seq<Run>, p: Run -> bool, places: set<nat>)
    requires forall i :: i in places <==> 0 <= i < |runs| && p(runs[i])
    ensures Count(runs, p) == |places|
  {
    if runs == [] {
      assert places == {};
    } else {
      var last := |runs| - 1;
      CountIsSize(runs[..last], p, places - {last});
    }
  }

  lemma LossSizes(runs: seq<Run>)
    ensures Count(runs, IsLost) == |In(runs, {Failed, PartialFailed, Cancelled, Expired})|
    ensures Count(runs, IsLostUnstarted) == |LostRuns(runs, false)| && Count(runs, IsLostStarted) == |LostRuns(runs, true)|
  {
    CountIsSize(runs, IsLost, In(runs, {Failed, PartialFailed, Cancelled, Expired}));
    CountIsSize(runs, IsLostUnstarted, LostRuns(runs, false));
    CountIsSize(runs, IsLostStarted, LostRuns(runs, true));
  }

  /** What the counters are, state by state. */
  lemma RecalculatedCounts(group: Group, runs: seq<Run>)
    ensures CountsRuns(Recalculated(group, runs), runs)
  {
    CountIsSize(runs, IsQueued, In(runs, {Requested, Queued}));
    CountIsSize(runs, IsRunning, In(runs, {Running}));
    CountIsSize(runs, IsCompleted, In(runs, {Completed}));
    CountIsSize(runs, IsFailed, In(runs, {Failed, PartialFailed}));
    CountIsSize(runs, IsCancelled, In(runs, {Cancelled, Expired}));
    LossSizes(runs);
  }

  /** recalculateGroup: every run is counted under its state; a run without a result releases its slot exactly when it
      never reached a worker, and is of unknown cost when it did. */
  method RecalculateGroup(group: Group, runs: seq<Run>) returns (result: Group)
    ensures result == Recalculated(group, runs) && CountsRuns(result, runs)
  {
    var queued, running, completed, failed, cancelled := 0, 0, 0, 0, 0;
    var usage := Usage(|runs|, 0, 0, 0, |runs|, 0, 0);
    for i := 0 to |runs|
      invariant queued == Count(runs[..i], IsQueued) && running == Count(runs[..i], IsRunning)
      invariant completed == Count(runs[..i], IsCompleted) && failed == Count(runs[..i], IsFailed)
      invariant cancelled == Count(runs[..i], IsCancelled)
      invariant usage == Usage(|runs|, completed, Count(runs[..i], IsLostUnstarted), Count(runs[..i], IsLostStarted),
                               |runs|, completed, Count(runs[..i], IsLost))
    {
      assert runs[..i + 1][..i] == runs[..i];
      var run := runs[i];
      match run.status {
        case Queued => queued := queued + 1;
        case Requested => queued := queued + 1;
        case Running => running := running + 1;
        case Completed =>
          completed := completed + 1;
          usage := usage.(succeeded := usage.succeeded + 1, consumed := usage.consumed + 1);
        case Cancelled =>
          cancelled := cancelled + 1;
          usage := Lose(usage, run.started);
        case Expired =>
          cancelled := cancelled + 1;
          usage := Lose(usage, run.started);
        case _ =>
          failed := failed + 1;
          usage := Lose(usage, run.started);
      }
    }
    assert runs[..|runs|] == runs;
    result := group.(queued := queued, running := running, completed := completed, failed := failed,
                     cancelled := cancelled, usage := usage);
    RecalculatedCounts(group, runs);
  }

  /** A run without a result gives its slot back only when it never reached a worker. */
  function Lose(usage: Usage, started: bool): Usage {
    if started then usage.(failed := usage.failed + 1, unknown := usage.unknown + 1)
    else usage.(failed := usage.failed + 1, released := usage.released + 1)
  }

  function Recalculated(group: Group, runs: seq<Run>): Group {
    group.(queued := Count(runs, IsQueued), running := Count(runs, IsRunning), completed := Count(runs, IsCompleted),
           failed := Count(runs, IsFailed), cancelled := Count(runs, IsCancelled),
           usage := Usage(|runs|, Count(runs, IsCompleted), Count(runs, IsLostUnstarted), Count(runs, IsLostStarted),
                          |runs|, Count(runs, IsCompleted), Count(runs, IsLost)))
  }

  /** hasExpiredSubAgentRun. */
  method HasExpiredRun(runs: seq<Run>) returns (found: bool)
    ensures found <==> exists i :: 0 <= i < |runs| && runs[i].status.Expired?
  {
    for i := 0 to |runs|
      invariant forall k | 0 <= k < i :: !runs[k].status.Expired?
    {
      if runs[i].status.Expired? {
        return true;
      }
    }
    found := false;
  }

  ghost predicate AnyExpired(runs: seq<Run>) {
    exists i :: 0 <= i < |runs| && runs[i].status.Expired?
  }

  predicate AllHave(runs: seq<Run>, statuses: set<RunStatus>) {
    forall i | 0 <= i < |runs| :: runs[i].status in statuses
  }

  /** What the policies promise about finished runs, status by status.  The minimum is at least one and at most the number
      of runs, as the request validation demands of require_minimum. */
  ghost predicate FollowsPolicy(policy: FailurePolicy, minimum: nat, runs: seq<Run>, verdict: RunStatus) {
    var completed := Count(runs, IsCompleted);
    && (verdict == Completed <==> AllHave(runs, {Completed}))
    && (verdict == PartialFailed <==>
          !AllHave(runs, {Completed})
          && ((policy == BestEffort && completed >= 1) || (policy == RequireMinimum && completed >= minimum)))
    && (verdict == Expired <==> completed == 0 && AnyExpired(runs))
    && (verdict == Cancelled <==> AllHave(runs, {RunStatus.Cancelled}))
    && verdict.Terminal()
  }

  /** What happens to a group once every result is in: the accounting, then the status. */
  method CloseGroup(group: Group, runs: seq<Run>) returns (closed: Group)
    ensures closed == Recalculated(group, runs).(status := FinalStatus(group.policy, group.minimum, runs))
    ensures AllTerminal(runs) && runs != [] && (group.policy == RequireMinimum ==> 1 <= group.minimum <= |runs|) ==>
      FollowsPolicy(group.policy, group.minimum, runs, closed.status)
  {
    if AllTerminal(runs) && runs != [] && (group.policy == RequireMinimum ==> 1 <= group.minimum <= |runs|) {
      VerdictFollowsPolicy(group.policy, group.minimum, runs);
    }
    closed := RecalculateGroup(group, runs);
    var expired := HasExpiredRun(runs);
    if closed.failed == 0 && closed.cancelled == 0 {
      closed := closed.(status := Completed);
    } else if expired && closed.completed == 0 {
      closed := closed.(status := Expired);
    } else if closed.completed == 0 && closed.failed == 0 {
      closed := closed.(status := Cancelled);
    } else if closed.policy == BestEffort && closed.completed > 0 {
      closed := closed.(status := PartialFailed);
    } else if closed.policy == RequireMinimum && closed.completed >= closed.minimum {
      closed := closed.(status := PartialFailed);
    } else {
      closed := closed.(status := Failed);
    }
  }

  ghost function FinalStatus(policy: FailurePolicy, minimum: nat, runs: seq<Run>): RunStatus {
    var completed, failed, cancelled := Count(runs, IsCompleted), Count(runs, IsFailed), Count(runs, IsCancelled);
    if failed == 0 && cancelled == 0 then Completed
    else if AnyExpired(runs) && completed == 0 then Expired
    else if completed == 0 && failed == 0 then Cancelled
    else if policy == BestEffort && completed > 0 then PartialFailed
    else if policy == RequireMinimum && completed >= minimum then PartialFailed
    else Failed
  }

  // ----- Accounting -----

  /** The five counters partition the runs, and every lost run is either given back or of unknown cost. */
  lemma {:induction false} CountersPartition(runs: seq<Run>)
    ensures Count(runs, IsQueued) + Count(runs, IsRunning) + Count(runs, IsCompleted) + Count(runs, IsFailed)
            + Count(runs, IsCancelled) == |runs|
    ensures Count(runs, IsLost) == Count(runs, IsFailed) + Count(runs, IsCancelled)
    ensures Count(runs, IsLost) == Count(runs, IsLostUnstarted) + Count(runs, IsLostStarted)
  {
    if runs != [] {
      CountersPartition(runs[..|runs| - 1]);
    }
  }

  ghost predicate AllTerminal(runs: seq<Run>) {
    forall i | 0 <= i < |runs| :: runs[i].status.Terminal()
  }

  lemma {:induction false} NothingMatches(runs: seq<Run>, p: Run -> bool)
    ensures Count(runs, p) == 0 <==> forall i | 0 <= i < |runs| :: !p(runs[i])
  {
    if runs != [] {
      var rest := runs[..|runs| - 1];
      NothingMatches(rest, p);
      assert forall i | 0 <= i < |rest| :: rest[i] == runs[i];
    }
  }

  /** At the barrier every reserved slot is consumed, given back or of unknown cost, and every run succeeded or
      failed. */
  lemma BarrierAccounting(group: Group, runs: seq<Run>)
    requires AllTerminal(runs)
    ensures var u := Recalculated(group, runs).usage;
      u.reserved == u.consumed + u.released + u.unknown && u.runs == u.succeeded + u.failed && u.reserved == u.runs
    ensures var g := Recalculated(group, runs); g.queued == g.running == 0 && g.completed + g.failed + g.cancelled == |runs|
  {
    CountersPartition(runs);
    NothingMatches(runs, IsQueued);
    NothingMatches(runs, IsRunning);
  }

  // ----- Verdict -----

  lemma AllCompletedIffNoneLost(runs: seq<Run>)
    requires AllTerminal(runs)
    ensures Count(runs, IsFailed) == 0 && Count(runs, IsCancelled) == 0 <==> forall i | 0 <= i < |runs| :: runs[i].status.Completed?
  {
    NothingMatches(runs, IsFailed);
    NothingMatches(runs, IsCancelled);
    if forall i | 0 <= i < |runs| :: runs[i].status.Completed? {
      assert forall i | 0 <= i < |runs| :: !IsFailed(runs[i]) && !IsCancelled(runs[i]);
    }
    if Count(runs, IsFailed) == 0 && Count(runs, IsCancelled) == 0 {
      forall i | 0 <= i < |runs| ensures runs[i].status.Completed? {
        assert !IsFailed(runs[i]) && !IsCancelled(runs[i]) && runs[i].status.Terminal();
      }
    }
  }

  /** The status a group closes with, policy by policy. */
  lemma VerdictFollowsPolicy(policy: FailurePolicy, minimum: nat, runs: seq<Run>)
    requires AllTerminal(runs) && runs != []
    requires policy == RequireMinimum ==> 1 <= minimum <= |runs|
    ensures FollowsPolicy(policy, minimum, runs, FinalStatus(policy, minimum, runs))
    ensures var verdict, completed := FinalStatus(policy, minimum, runs), Count(runs, IsCompleted);
      && (policy == AllOrNothing ==> verdict != PartialFailed)
      && (policy == BestEffort ==> (verdict == Completed || verdict == PartialFailed <==> completed >= 1))
      && (policy == RequireMinimum ==> (verdict == Completed || verdict == PartialFailed <==> completed >= minimum))
  {
    AllCompletedIffNoneLost(runs);
    NothingMatches(runs, IsCompleted);
    NothingMatches(runs, IsFailed);
    NothingMatches(runs, IsCancelled);
    BarrierAccounting(Group(Requested, policy, minimum, 0, 0, 0, 0, 0, Usage(0, 0, 0, 0, 0, 0, 0)), runs);
  }

  lemma {:induction false} CountOfBag(runs: seq<Run>, p: Run -> bool, k: nat)
    requires k < |runs|
    ensures Count(runs, p) == Count(runs[..k] + runs[k + 1..], p) + (if p(runs[k]) then 1 else 0)
    decreases |runs|
  {
    var last := |runs| - 1;
    var rest := runs[..last];
    if k < last {
      CountOfBag(rest, p, k);
      var short := runs[..k] + runs[k + 1..];
      assert short[..|short| - 1] == rest[..k] + rest[k + 1..];
      assert short[|short| - 1] == runs[last];
    } else {
      assert runs[..k] + runs[k + 1..] == rest;
    }
  }

  /** The counters, and with them the verdict, do not depend on the order in which the runs finished. */
  lemma {:induction false} CountIgnoresOrder(a: seq<Run>, b: seq<Run>, p: Run -> bool)
    requires multiset(a) == multiset(b)
    ensures Count(a, p) == Count(b, p)
    decreases |a|
  {
    if a == [] {
      assert |multiset(b)| == 0;
    } else {
      assert b != [] by { assert |multiset(b)| == |a|; }
      var last := |a| - 1;
      assert a[last] in multiset(b);
      var k :| 0 <= k < |b| && b[k] == a[last];
      var rest := b[..k] + b[k + 1..];
      assert b == b[..k] + [b[k]] + b[k + 1..];
      assert a == a[..last] + [a[last]];
      assert multiset(rest) == multiset(b) - multiset{b[k]};
      assert multiset(a[..last]) == multiset(a) - multiset{a[last]};
      CountIgnoresOrder(a[..last], rest, p);
      CountOfBag(b, p, k);
    }
  }

  lemma VerdictIgnoresOrder(policy: FailurePolicy, minimum: nat, a: seq<Run>, b: seq<Run>)
    requires multiset(a) == multiset(b)
    ensures FinalStatus(policy, minimum, a) == FinalStatus(policy, minimum, b)
  {
    CountIgnoresOrder(a, b, IsCompleted);
    CountIgnoresOrder(a, b, IsFailed);
    CountIgnoresOrder(a, b, IsCancelled);
    assert AnyExpired(a) <==> AnyExpired(b) by {
      assert forall r :: r in a <==> r in multiset(a);
      assert forall r :: r in b <==> r in multiset(b);
      if AnyExpired(a) {
        var i :| 0 <= i < |a| && a[i].status.Expired?;
        assert a[i] in b;
      }
      if AnyExpired(b) {
        var i :| 0 <= i < |b| && b[i].status.Expired?;
        assert b[i] in a;
      }
    }
  }

  // ----- Recovery -----

  /** recoverPersistedState for one group: runs without a terminal status are closed as expired, never replayed. */
  method RecoverGroup(group: Group, runs: seq<Run>) returns (closed: Group, closedRuns: seq<Run>)
    ensures |closedRuns| == |runs| && AllTerminal(closedRuns)
    ensures forall i | 0 <= i < |runs| :: closedRuns[i] == if runs[i].status.Terminal() then runs[i] else runs[i].(status := Expired)
    ensures closed == Recalculated(group, closedRuns).(status := if Count(runs, IsCompleted) > 0 then PartialFailed else Expired)
  {
    closedRuns := runs;
    for i := 0 to |runs|
      invariant |closedRuns| == |runs|
      invariant forall k | 0 <= k < i :: closedRuns[k] == if runs[k].status.Terminal() then runs[k] else runs[k].(status := Expired)
      invariant forall k | i <= k < |runs| :: closedRuns[k] == runs[k]
    {
      if !closedRuns[i].status.Terminal() {
        closedRuns := closedRuns[i := closedRuns[i].(status := Expired)];
      }
    }
    closed := RecalculateGroup(group, closedRuns);
    SameCompleted(runs, closedRuns);
    closed := closed.(status := if closed.completed > 0 then PartialFailed else Expired);
  }

  lemma {:induction false} SameCompleted(a: seq<Run>, b: seq<Run>)
    requires |a| == |b| && forall i | 0 <= i < |a| :: IsCompleted(a[i]) <==> IsCompleted(b[i])
    ensures Count(a, IsCompleted) == Count(b, IsCompleted)
  {
    if a != [] {
      SameCompleted(a[..|a| - 1], b[..|b| - 1]);
    }
  }
}
