/** internal/agent/kernel.go: retryLLM stacked on contextRecoveryLLM over an arbitrary provider.

    A provider call is a finite stream of responses, some of them nil, that may end in an error.  The provider, the
    cancellation of the request, the success of trimming and the moment the consumer stops are all arbitrary; each is
    indexed by the provider call it follows. */
module ModelStream {
  import opened Wrappers

  /** isContextLimitError tells the two kinds of errors apart by their message. */
  datatype Error = ContextLimit(message: nat) | OtherError(message: nat)

  datatype Response = Nil | Content(value: nat)

  datatype Reply = Reply(responses: seq<Response>, error: Option<Error>)

  /** What a consumer receives, with the provider call it came from. */
  datatype Item = Item(call: nat, response: Response) | Failure(call: nat, error: Error)

  datatype World = World(
    replies: nat -> Reply, trims: nat -> bool, cancelledBeforeRecovery: nat -> bool, cancelledBeforeRetry: nat -> bool,
    retries: nat)

  predicate Emits(reply: Reply) {
    exists i | 0 <= i < |reply.responses| :: reply.responses[i].Content?
  }

  // ----- The specification: what a consumer that never stops would receive -----

  /** Where the stack stands: the retry attempt, and whether recovery has already trimmed in this attempt. */
  datatype Stage = Stage(attempt: nat, recovered: bool)

  /** Whether another provider call follows call k, and in which stage. */
  function Continues(world: World, k: nat, stage: Stage): Option<Stage> {
    var reply := world.replies(k);
    if reply.error.None? || Emits(reply) then None
    else if reply.error.value.ContextLimit? then
      if !stage.recovered && !world.cancelledBeforeRecovery(k) && world.trims(k) then Some(stage.(recovered := true)) else None
    else if stage.attempt < world.retries && !world.cancelledBeforeRetry(k) then Some(Stage(stage.attempt + 1, false))
    else None
  }

  function Stream(k: nat, responses: seq<Response>): (items: seq<Item>)
    ensures |items| == |responses|
    ensures forall i | 0 <= i < |items| :: items[i] == Item(k, responses[i])
  {
    seq(|responses|, i requires 0 <= i < |responses| => Item(k, responses[i]))
  }

  function Ending(world: World, k: nat): seq<Item> {
    if world.replies(k).error.Some? then [Failure(k, world.replies(k).error.value)] else []
  }

  function Trace(world: World, k: nat, stage: Stage): seq<Item>
    decreases world.retries - stage.attempt, !stage.recovered
  {
    Stream(k, world.replies(k).responses)
    + match Continues(world, k, stage)
      case None => Ending(world, k)
      case Some(next) => Trace(world, k + 1, next)
  }

  /** The last provider call. */
  function Last(world: World, k: nat, stage: Stage): nat
    decreases world.retries - stage.attempt, !stage.recovered
  {
    match Continues(world, k, stage)
    case None => k
    case Some(next) => Last(world, k + 1, next)
  }

  const START := Stage(0, false)

  // ----- Laws of the specification -----

  /** All non-nil responses come from the last provider call, so no call starts after one was delivered; an error is
      the last item, it is the error of the last call, and it is the only one. */
  lemma {:induction false} OneCallIsHeard(world: World, k: nat, stage: Stage, i: nat)
    requires i < |Trace(world, k, stage)|
    ensures var item := Trace(world, k, stage)[i];
      && k <= item.call <= Last(world, k, stage)
      && (item.Item? && item.response.Content? ==> item.call == Last(world, k, stage))
      && (item.Failure? ==> i == |Trace(world, k, stage)| - 1 && item.call == Last(world, k, stage)
                            && world.replies(item.call).error == Some(item.error))
    decreases world.retries - stage.attempt, !stage.recovered
  {
    LastIsLater(world, k, stage);
    var n := |world.replies(k).responses|;
    var next := Continues(world, k, stage);
    if i >= n && next.Some? {
      OneCallIsHeard(world, k + 1, next.value, i - n);
    }
  }

  lemma {:induction false} LastIsLater(world: World, k: nat, stage: Stage)
    ensures k <= Last(world, k, stage)
    decreases world.retries - stage.attempt, !stage.recovered
  {
    if Continues(world, k, stage).Some? {
      LastIsLater(world, k + 1, Continues(world, k, stage).value);
    }
  }

  /** The last call is heard completely: its responses end the trace, followed by its error if it has one. */
  lemma {:induction false} LastCallIsComplete(world: World, k: nat, stage: Stage)
    ensures var last := Stream(Last(world, k, stage), world.replies(Last(world, k, stage)).responses) + Ending(world, Last(world, k, stage));
      |last| <= |Trace(world, k, stage)| && Trace(world, k, stage)[|Trace(world, k, stage)| - |last|..] == last
    decreases world.retries - stage.attempt, !stage.recovered
  {
    var next := Continues(world, k, stage);
    if next.Some? {
      LastCallIsComplete(world, k + 1, next.value);
      var rest := Trace(world, k + 1, next.value);
      assert Trace(world, k, stage) == Stream(k, world.replies(k).responses) + rest;
    }
  }

  /** At most two provider calls for each of the retries + 1 attempts. */
  lemma {:induction false} CallsAreBounded(world: World, k: nat, stage: Stage)
    requires stage.attempt <= world.retries
    ensures Last(world, k, stage) + 1 - k <= 2 * (world.retries - stage.attempt + 1) - if stage.recovered then 1 else 0
    decreases world.retries - stage.attempt, !stage.recovered
  {
    if Continues(world, k, stage).Some? {
      CallsAreBounded(world, k + 1, Continues(world, k, stage).value);
    }
  }

  /** A provider that alternates between a context limit and another error. */
  function Alternating(retries: nat): World {
    World(k => Reply([], Some(if k % 2 == 0 then ContextLimit(0) else OtherError(0))), _ => true, _ => false, _ => false, retries)
  }

  /** The bound is reached. */
  lemma {:induction false} BoundIsReached(retries: nat, attempt: nat)
    requires attempt <= retries
    ensures Last(Alternating(retries), 2 * attempt, Stage(attempt, false)) + 1 == 2 * (retries + 1)
    decreases retries - attempt
  {
    var world := Alternating(retries);
    assert Continues(world, 2 * attempt, Stage(attempt, false)) == Some(Stage(attempt, true));
    if attempt < retries {
      assert Continues(world, 2 * attempt + 1, Stage(attempt, true)) == Some(Stage(attempt + 1, false));
      BoundIsReached(retries, attempt + 1);
    }
  }

  /** Every further call is justified: the call before it failed without a non-nil response and the request was not
      cancelled after it, and a request over the context limit is only sent again after it was trimmed. */
  lemma {:induction false} EveryCallIsJustified(world: World, k: nat, stage: Stage, call: nat)
    requires k <= call < Last(world, k, stage)
    ensures world.replies(call).error.Some? && !Emits(world.replies(call))
    ensures world.replies(call).error.value.ContextLimit? ==> world.trims(call) && !world.cancelledBeforeRecovery(call)
    ensures world.replies(call).error.value.OtherError? ==> !world.cancelledBeforeRetry(call)
    decreases world.retries - stage.attempt, !stage.recovered
  {
    if k < call {
      EveryCallIsJustified(world, k + 1, Continues(world, k, stage).value, call);
    }
  }

  ghost predicate IsOverLimit(reply: Reply) {
    reply.error.Some? && reply.error.value.ContextLimit?
  }

  /** How many of the first calls failed for another reason than the context limit: each of them used up an attempt. */
  ghost function Failures(world: World, calls: nat): nat {
    if calls == 0 then 0
    else Failures(world, calls - 1) + if world.replies(calls - 1).error.Some? && !IsOverLimit(world.replies(calls - 1)) then 1 else 0
  }

  /** The reasons to end with a call, in terms of what the provider and the environment did: it succeeded, or some output
      was delivered, or the request was cancelled, or the attempts are used up, or the request is over the context limit
      and was trimmed just before, or cannot be trimmed. */
  ghost predicate MustStop(world: World, call: nat) {
    var reply := world.replies(call);
    || reply.error == None
    || (exists i :: 0 <= i < |reply.responses| && reply.responses[i].Content?)
    || (!IsOverLimit(reply) && (world.cancelledBeforeRetry(call) || Failures(world, call) >= world.retries))
    || (IsOverLimit(reply)
        && (world.cancelledBeforeRecovery(call) || !world.trims(call) || (call > 0 && IsOverLimit(world.replies(call - 1)))))
  }

  /** The stage is what the calls so far have led to. */
  ghost predicate Reached(world: World, k: nat, stage: Stage) {
    && stage.attempt == Failures(world, k) <= world.retries
    && (stage.recovered <==> k > 0 && IsOverLimit(world.replies(k - 1)))
  }

  /** The provider is called until there is a reason to stop: the last call is the first one that has one. */
  lemma {:induction false} StopsAtFirstReason(world: World, k: nat, stage: Stage)
    requires Reached(world, k, stage)
    ensures MustStop(world, Last(world, k, stage))
    ensures forall call | k <= call < Last(world, k, stage) :: !MustStop(world, call)
    decreases world.retries - stage.attempt, !stage.recovered
  {
    var next := Continues(world, k, stage);
    if next.Some? {
      assert Reached(world, k + 1, next.value);
      StopsAtFirstReason(world, k + 1, next.value);
    }
  }

  /** The responses of n calls, one call after the other. */
  ghost function Streams(world: World, k: nat, n: nat): seq<Item>
    decreases n
  {
    if n == 0 then [] else Stream(k, world.replies(k).responses) + Streams(world, k + 1, n - 1)
  }

  /** Nothing is lost or added: the trace is what all calls delivered, followed by the error of the last one. */
  lemma {:induction false} TraceIsComplete(world: World, k: nat, stage: Stage)
    ensures var last := Last(world, k, stage);
      k <= last && Trace(world, k, stage) == Streams(world, k, last - k + 1) + Ending(world, last)
    decreases world.retries - stage.attempt, !stage.recovered
  {
    var last, next := Last(world, k, stage), Continues(world, k, stage);
    LastIsLater(world, k, stage);
    var stream := Stream(k, world.replies(k).responses);
    if next.Some? {
      TraceIsComplete(world, k + 1, next.value);
      LastIsLater(world, k + 1, next.value);
      Regroup(stream, Streams(world, k + 1, last - k), Ending(world, last));
    } else {
      assert Streams(world, k, 1) == stream;
    }
  }

  /** Passing failures are hidden: when a call within the retries succeeds after nothing but failures that are neither
      over the context limit nor cancelled nor after some output, the consumer receives that call and no error. */
  lemma {:induction false} RetriesHideFailures(world: World, k: nat, stage: Stage, good: nat)
    requires k <= good && good - k <= world.retries - stage.attempt && world.replies(good).error.None?
    requires forall j | k <= j < good ::
      !Emits(world.replies(j)) && world.replies(j).error.Some? && world.replies(j).error.value.OtherError? && !world.cancelledBeforeRetry(j)
    ensures Last(world, k, stage) == good
    ensures forall i | 0 <= i < |Trace(world, k, stage)| :: !Trace(world, k, stage)[i].Failure?
    decreases good - k
  {
    if k < good {
      RetriesHideFailures(world, k + 1, Stage(stage.attempt + 1, false), good);
    }
  }

  /** What a consumer that stops receives of a trace. */
  function Cut(trace: seq<Item>, stopAfter: nat): seq<Item> {
    if 0 < stopAfter <= |trace| then trace[..stopAfter] else trace
  }

  /** The same laws for what any consumer has received, whenever it stops. */
  lemma ConsumerLaws(world: World, stopAfter: nat, i: nat, j: nat)
    requires i < |Cut(Trace(world, 0, START), stopAfter)| && j < |Cut(Trace(world, 0, START), stopAfter)|
    ensures var seen := Cut(Trace(world, 0, START), stopAfter);
      && (seen[i].Item? && seen[i].response.Content? && seen[j].Item? && seen[j].response.Content? ==> seen[i].call == seen[j].call)
      && (seen[i].Item? && seen[i].response.Content? ==> seen[j].call <= seen[i].call)
      && (seen[i].Failure? ==> i == |seen| - 1)
      && seen[i].call < 2 * (world.retries + 1)
  {
    OneCallIsHeard(world, 0, START, i);
    OneCallIsHeard(world, 0, START, j);
    CallsAreBounded(world, 0, START);
  }

  lemma CallsAreWithin(world: World)
    ensures forall item | item in Trace(world, 0, START) :: item.call <= Last(world, 0, START)
  {
    var trace := Trace(world, 0, START);
    forall item | item in trace ensures item.call <= Last(world, 0, START) {
      var i :| 0 <= i < |trace| && trace[i] == item;
      OneCallIsHeard(world, 0, START, i);
    }
  }

  // ----- The code -----

  class Provider {
    const replies: nat -> Reply
    var calls: nat

    constructor (replies: nat -> Reply)
      ensures this.replies == replies && calls == 0
    {
      this.replies, calls := replies, 0;
    }

    method GenerateContent() returns (reply: Reply)
      modifies this
      ensures calls == old(calls) + 1 && reply == replies(old(calls))
    {
      reply := replies(calls);
      calls := calls + 1;
    }
  }

  /** The consumer stops once it has received `stopAfter` items; with zero it never stops.  Its yield function must not
      be called again after it has returned false. */
  class Consumer {
    const stopAfter: nat
    var seen: seq<Item>

    constructor (stopAfter: nat)
      ensures this.stopAfter == stopAfter && seen == []
    {
      this.stopAfter, seen := stopAfter, [];
    }

    predicate Stopped()
      reads this
    {
      0 < stopAfter <= |seen|
    }

    method Yield(item: Item) returns (more: bool)
      requires !Stopped()
      modifies this
      ensures seen == old(seen) + [item] && more == !Stopped()
    {
      seen := seen + [item];
      more := !(0 < stopAfter <= |seen|);
    }
  }

  /** The body of retryLLM's loop over the recovered stream, which is the yield function of contextRecoveryLLM. */
  class RetryBody {
    const consumer: Consumer
    var emitted: bool
    var runErr: Option<Error>

    constructor (consumer: Consumer)
      ensures this.consumer == consumer && !emitted && runErr == None
    {
      this.consumer, emitted, runErr := consumer, false, None;
    }

    method Yield(item: Item) returns (more: bool)
      requires !consumer.Stopped()
      modifies this, consumer
      ensures item.Failure? ==> !more && runErr == Some(item.error) && consumer.seen == old(consumer.seen) && emitted == old(emitted)
      ensures item.Item? ==> runErr == old(runErr) && consumer.seen == old(consumer.seen) + [item] && more == !consumer.Stopped()
                             && emitted == (old(emitted) || item.response.Content?)
    {
      if item.Failure? {
        runErr := Some(item.error);
        return false;
      }
      if item.response.Content? {
        emitted := true;
      }
      more := consumer.Yield(item);
    }
  }

  predicate EmitsUpTo(reply: Reply, n: nat)
    requires n <= |reply.responses|
  {
    exists i | 0 <= i < n :: reply.responses[i].Content?
  }

  /** Forwarding one provider call; `emitted` is contextRecoveryLLM's own flag. */
  method Forward(provider: Provider, body: RetryBody) returns (reply: Reply, emitted: bool, more: bool)
    requires !body.consumer.Stopped() && !body.emitted && body.runErr == None
    modifies provider, body, body.consumer
    ensures provider.calls == old(provider.calls) + 1 && reply == provider.replies(old(provider.calls)) && body.runErr == None
    ensures more ==> !body.consumer.Stopped() && emitted == body.emitted == Emits(reply)
                     && body.consumer.seen == old(body.consumer.seen) + Stream(old(provider.calls), reply.responses)
    ensures !more ==> body.consumer.Stopped()
                      && body.consumer.seen <= old(body.consumer.seen) + Stream(old(provider.calls), reply.responses)
                      && |body.consumer.seen| == body.consumer.stopAfter
                      && body.consumer.seen[|body.consumer.seen| - 1].call == old(provider.calls)
  {
    var call := provider.calls;
    reply := provider.GenerateContent();
    emitted, more := false, true;
    ghost var stream := Stream(call, reply.responses);
    for i := 0 to |reply.responses|
      invariant provider.calls == call + 1 && body.runErr == None
      invariant !body.consumer.Stopped() && emitted == body.emitted == EmitsUpTo(reply, i)
      invariant body.consumer.seen == old(body.consumer.seen) + stream[..i]
    {
      if reply.responses[i].Content? {
        emitted := true;
      }
      more := body.Yield(Item(call, reply.responses[i]));
      assert stream[..i + 1] == stream[..i] + [stream[i]];
      assert stream == stream[..i + 1] + stream[i + 1..];
      if !more {
        return;
      }
    }
    assert stream[..|reply.responses|] == stream;
  }

  /** The whole trace and the last call that a run of the stack is to reproduce. */
  datatype Goal = Goal(trace: seq<Item>, last: nat)

  /** What was received so far and what calls from k on would add make up the goal. */
  ghost predicate Due(world: World, k: nat, stage: Stage, seen: seq<Item>, goal: Goal) {
    goal.trace == seen + Trace(world, k, stage) && goal.last == Last(world, k, stage)
  }

  /** Only the error of call k may be missing. */
  ghost predicate Finished(world: World, k: nat, seen: seq<Item>, goal: Goal) {
    goal.trace == seen + Ending(world, k) && goal.last == k
  }

  /** What holds when call k was forwarded. */
  ghost predicate Forwarded(world: World, k: nat, stage: Stage, seen: seq<Item>, goal: Goal) {
    match Continues(world, k, stage)
    case None => Finished(world, k, seen, goal)
    case Some(next) => Due(world, k + 1, next, seen, goal)
  }

  lemma Advance(world: World, k: nat, stage: Stage, seen: seq<Item>, goal: Goal)
    requires Due(world, k, stage, seen, goal)
    ensures Forwarded(world, k, stage, seen + Stream(k, world.replies(k).responses), goal)
    ensures seen + Stream(k, world.replies(k).responses) <= goal.trace
  {
    var stream := Stream(k, world.replies(k).responses);
    var rest := match Continues(world, k, stage) case None => Ending(world, k) case Some(next) => Trace(world, k + 1, next);
    assert Trace(world, k, stage) == stream + rest;
    Regroup(seen, stream, rest);
  }

  lemma Regroup(a: seq<Item>, b: seq<Item>, c: seq<Item>)
    ensures a + (b + c) == (a + b) + c && a + b <= a + (b + c)
  {
  }

  /** What a consumer that has stopped has received, and that no call was made after it did. */
  ghost predicate CutOff(consumer: Consumer, calls: nat, goal: Goal)
    reads consumer
  {
    consumer.Stopped() && consumer.seen <= goal.trace && |consumer.seen| == consumer.stopAfter
    && consumer.seen[|consumer.seen| - 1].call + 1 == calls
  }

  lemma PrefixIsCut(seen: seq<Item>, trace: seq<Item>, stopAfter: nat)
    requires seen <= trace && (if 0 < stopAfter <= |seen| then |seen| == stopAfter else seen == trace)
    ensures seen == Cut(trace, stopAfter)
  {
  }

  /** contextRecoveryLLM.GenerateContent. */
  method Recover(world: World, provider: Provider, body: RetryBody, ghost attempt: nat, ghost goal: Goal)
    requires provider.replies == world.replies && attempt <= world.retries
    requires !body.consumer.Stopped() && !body.emitted && body.runErr == None
    requires Due(world, provider.calls, Stage(attempt, false), body.consumer.seen, goal)
    modifies provider, body, body.consumer
    ensures provider.calls > 0
    ensures body.consumer.Stopped() ==> body.runErr == None && CutOff(body.consumer, provider.calls, goal)
    ensures !body.consumer.Stopped() && body.runErr == None ==> body.consumer.seen == goal.trace && provider.calls == goal.last + 1
    ensures body.runErr.Some? ==>
      && world.replies(provider.calls - 1).error == body.runErr
      && body.emitted == Emits(world.replies(provider.calls - 1))
      && Forwarded(world, provider.calls - 1, Stage(attempt, true), body.consumer.seen, goal)
  {
    for pass := 0 to 2
      invariant provider.replies == world.replies && !body.consumer.Stopped() && !body.emitted && body.runErr == None
      invariant pass < 2 && Due(world, provider.calls, Stage(attempt, pass == 1), body.consumer.seen, goal)
    {
      var call := provider.calls;
      Advance(world, call, Stage(attempt, pass == 1), body.consumer.seen, goal);
      var reply, emitted, more := Forward(provider, body);
      if !more {
        return;
      }
      if reply.error.None? {
        return;
      }
      if !reply.error.value.ContextLimit? {
        var _ := body.Yield(Failure(call, reply.error.value));
        return;
      }
      if emitted || pass == 1 || world.cancelledBeforeRecovery(call) {
        var _ := body.Yield(Failure(call, reply.error.value));
        return;
      }
      if !world.trims(call) {
        var _ := body.Yield(Failure(call, reply.error.value));
        return;
      }
    }
  }

  /** The error of the last call, handed to the consumer. */
  method Deliver(consumer: Consumer, call: nat, error: Error, ghost goal: Goal)
    requires !consumer.Stopped() && goal.trace == consumer.seen + [Failure(call, error)]
    modifies consumer
    ensures consumer.seen == goal.trace == Cut(goal.trace, consumer.stopAfter) && goal.trace[|goal.trace| - 1].call == call
  {
    var _ := consumer.Yield(Failure(call, error));
    PrefixIsCut(consumer.seen, goal.trace, consumer.stopAfter);
  }

  /** The retry loop. */
  method Retry(world: World, provider: Provider, consumer: Consumer, ghost goal: Goal)
    requires provider.replies == world.replies && !consumer.Stopped() && Due(world, provider.calls, START, consumer.seen, goal)
    modifies provider, consumer
    ensures consumer.seen == Cut(goal.trace, consumer.stopAfter)
    ensures provider.calls == 1 + if consumer.Stopped() then consumer.seen[|consumer.seen| - 1].call else goal.last
  {
    for attempt := 0 to world.retries + 1
      invariant provider.replies == world.replies && !consumer.Stopped()
      invariant attempt <= world.retries && Due(world, provider.calls, Stage(attempt, false), consumer.seen, goal)
    {
      var body := new RetryBody(consumer);
      Recover(world, provider, body, attempt, goal);
      if body.runErr.None? {
        PrefixIsCut(consumer.seen, goal.trace, consumer.stopAfter);
        return;
      }
      var call := provider.calls - 1;
      if body.emitted || attempt == world.retries || world.cancelledBeforeRetry(call) || body.runErr.value.ContextLimit? {
        assert Continues(world, call, Stage(attempt, true)).None?;
        Deliver(consumer, call, body.runErr.value, goal);
        return;
      }
    }
  }

  /** retryLLM.GenerateContent: the consumer receives the trace, up to the point where it stops, and no provider call
      is made after that.  A consumer that does not stop gets the responses of all calls and the error of the last one,
      and the provider is called until there is a reason to stop, and no more. */
  method Generate(world: World, provider: Provider, consumer: Consumer)
    requires provider.replies == world.replies && provider.calls == 0 && consumer.seen == []
    modifies provider, consumer
    ensures consumer.seen == Cut(Trace(world, 0, START), consumer.stopAfter)
    ensures provider.calls == 1 + if consumer.Stopped() then consumer.seen[|consumer.seen| - 1].call else Last(world, 0, START)
    ensures forall call | 0 <= call < provider.calls - 1 :: !MustStop(world, call)
    ensures !consumer.Stopped() ==>
      MustStop(world, provider.calls - 1) && consumer.seen == Streams(world, 0, provider.calls) + Ending(world, provider.calls - 1)
  {
    StopsAtFirstReason(world, 0, START);
    TraceIsComplete(world, 0, START);
    CallsAreWithin(world);
    Retry(world, provider, consumer, Goal(Trace(world, 0, START), Last(world, 0, START)));
  }
}
