/** internal/bot/extensions.go: the in-memory quota of proactive messages, with reservations that can be rolled back.

    Times are integers; the clock never runs backwards.  The settings of one source, already mapped through its degree,
    are an hourly limit and a cooldown, and a limit or cooldown that is not positive switches that check off. */
module ProactiveQuota {
  import opened Wrappers

  const HOUR: int := 3600

  datatype Settings = Settings(limit: int, cooldown: int)

  /** The window and the last grant of one source. */
  datatype State = State(window: seq<int>, last: Option<int>)

  const EMPTY := State([], None)

  function Live(window: seq<int>, now: int): (kept: seq<int>)
    ensures |kept| <= |window|
  {
    if window == [] then [] else
    var last := window[|window| - 1];
    Live(window[..|window| - 1], now) + if now - last < HOUR then [last] else []
  }

  predicate Cooling(settings: Settings, last: Option<int>, now: int) {
    settings.cooldown > 0 && last.Some? && now - last.value < settings.cooldown
  }

  predicate Grants(settings: Settings, s: State, now: int) {
    !Cooling(settings, s.last, now) && (settings.limit <= 0 || Count(s.window, now) < settings.limit)
  }

  /** The state after a reservation was tried. */
  function Reserved(settings: Settings, s: State, now: int): State {
    if Cooling(settings, s.last, now) then s
    else if Grants(settings, s, now) then State(Live(s.window, now) + [now], Some(now))
    else s.(window := Live(s.window, now))
  }

  function RemoveFirst(window: seq<int>, item: int): seq<int> {
    if window == [] then []
    else if window[0] == item then window[1..]
    else [window[0]] + RemoveFirst(window[1..], item)
  }

  /** The state after a granted reservation was withdrawn.  The last grant is forgotten, not restored. */
  function RolledBack(s: State, at: int): State {
    State(RemoveFirst(s.window, at), if s.last == Some(at) then None else s.last)
  }

  // ----- Counting -----

  /** How many entries still count at a time. */
  function Count(window: seq<int>, now: int): nat {
    |Live(window, now)|
  }

  function One(item: int, now: int): nat {
    if now - item < HOUR then 1 else 0
  }

  lemma {:induction false} CountConcat(a: seq<int>, b: seq<int>, now: int)
    ensures Count(a + b, now) == Count(a, now) + Count(b, now)
  {
    if b == [] {
      assert a + b == a;
    } else {
      CountConcat(a, b[..|b| - 1], now);
      assert (a + b)[..|a + b| - 1] == a + b[..|b| - 1];
    }
  }

  lemma CountOne(item: int, now: int)
    ensures Count([item], now) == One(item, now)
  {
    assert [item][..0] == [];
  }

  /** Pruning never changes what counts later. */
  lemma {:induction false} PruneKeepsCount(window: seq<int>, now: int, later: int)
    requires now <= later
    ensures Count(Live(window, now), later) == Count(window, later)
  {
    if window != [] {
      var front, last := window[..|window| - 1], window[|window| - 1];
      PruneKeepsCount(front, now, later);
      CountOne(last, later);
      CountConcat(Live(front, now), [last], later);
      assert Live(front, now) + [] == Live(front, now);
    }
  }

  lemma {:induction false} CountFalls(window: seq<int>, now: int, later: int)
    requires now <= later
    ensures Count(window, later) <= Count(window, now)
  {
    if window != [] {
      CountFalls(window[..|window| - 1], now, later);
    }
  }

  lemma {:induction false} RemoveCounts(window: seq<int>, item: int, now: int)
    ensures Count(window, now) == Count(RemoveFirst(window, item), now) + if item in window then One(item, now) else 0
  {
    if window != [] {
      assert window == [window[0]] + window[1..];
      CountConcat([window[0]], window[1..], now);
      CountOne(window[0], now);
      if window[0] != item {
        RemoveCounts(window[1..], item, now);
        CountConcat([window[0]], RemoveFirst(window[1..], item), now);
        assert item in window <==> item in window[1..];
      }
    }
  }

  lemma {:induction false} LiveHas(window: seq<int>, now: int, item: int)
    ensures item in Live(window, now) <==> item in window && now - item < HOUR
  {
    if window != [] {
      var front, last := window[..|window| - 1], window[|window| - 1];
      LiveHas(front, now, item);
      assert window == front + [last];
    }
  }

  /** What a try does to the counts of every later time. */
  lemma ReservedCounts(settings: Settings, s: State, now: int, later: int)
    requires now <= later
    ensures Count(Reserved(settings, s, now).window, later)
      == Count(s.window, later) + if Grants(settings, s, now) then One(now, later) else 0
  {
    PruneKeepsCount(s.window, now, later);
    CountConcat(Live(s.window, now), [now], later);
    CountOne(now, later);
  }

  // ----- Equivalent states -----

  /** The last grant no longer matters. */
  predicate Elapsed(settings: Settings, last: Option<int>, now: int) {
    !Cooling(settings, last, now)
  }

  /** From now on the two states decide alike. */
  ghost predicate Equivalent(settings: Settings, s: State, t: State, now: int) {
    && (forall later | now <= later :: Count(s.window, later) == Count(t.window, later))
    && (s.last == t.last || (Elapsed(settings, s.last, now) && Elapsed(settings, t.last, now)))
  }

  lemma EquivalentStep(settings: Settings, s: State, t: State, clock: int, now: int)
    requires Equivalent(settings, s, t, clock) && clock <= now
    ensures Grants(settings, s, now) <==> Grants(settings, t, now)
    ensures Equivalent(settings, Reserved(settings, s, now), Reserved(settings, t, now), now)
  {
    forall later | now <= later
      ensures Count(Reserved(settings, s, now).window, later) == Count(Reserved(settings, t, now).window, later)
    {
      ReservedCounts(settings, s, now, later);
      ReservedCounts(settings, t, now, later);
    }
  }

  predicate Monotone(clock: int, times: seq<int>) {
    && (forall i | 0 <= i < |times| :: clock <= times[i])
    && (forall i, j | 0 <= i < j < |times| :: times[i] <= times[j])
  }

  /** The decisions on a series of tries, and the state they lead to. */
  function Decisions(settings: Settings, s: State, times: seq<int>): seq<bool>
    decreases |times|
  {
    if times == [] then [] else [Grants(settings, s, times[0])] + Decisions(settings, Reserved(settings, s, times[0]), times[1..])
  }

  function Run(settings: Settings, s: State, times: seq<int>): State
    decreases |times|
  {
    if times == [] then s else Run(settings, Reserved(settings, s, times[0]), times[1..])
  }

  /** Equivalent states decide every later series of reservations alike. */
  lemma {:induction false} EquivalentDecides(settings: Settings, s: State, t: State, clock: int, times: seq<int>)
    requires Equivalent(settings, s, t, clock) && Monotone(clock, times)
    ensures Decisions(settings, s, times) == Decisions(settings, t, times)
    decreases |times|
  {
    if times != [] {
      EquivalentStep(settings, s, t, clock, times[0]);
      EquivalentDecides(settings, Reserved(settings, s, times[0]), Reserved(settings, t, times[0]), times[0], times[1..]);
    }
  }

  // ----- Rolling back -----

  ghost predicate MoreCounts(with: State, without: State, at: int, now: int) {
    forall later | now <= later :: Count(with.window, later) == Count(without.window, later) + One(at, later)
  }

  /** The state with a reservation at time `at`, and the state of a world in which it was never made. */
  ghost predicate Ahead(settings: Settings, with: State, without: State, at: int, now: int) {
    && at <= now
    && MoreCounts(with, without, at, now)
    && (now - at < HOUR ==> at in with.window)
    && ((with.last == without.last && with.last.Some? && at <= with.last.value && (with.last.value == at ==> settings.cooldown <= 0))
        || (with.last == Some(at) && Elapsed(settings, without.last, at)))
  }

  lemma AheadStart(settings: Settings, s: State, at: int)
    requires Grants(settings, s, at)
    ensures Ahead(settings, Reserved(settings, s, at), s, at, at)
  {
    forall later | at <= later ensures Count(Reserved(settings, s, at).window, later) == Count(s.window, later) + One(at, later) {
      ReservedCounts(settings, s, at, later);
    }
  }

  lemma AheadGrants(settings: Settings, with: State, without: State, at: int, clock: int, now: int)
    requires Ahead(settings, with, without, at, clock) && clock <= now
    ensures Grants(settings, with, now) ==> Grants(settings, without, now)
  {
    assert Count(with.window, now) == Count(without.window, now) + One(at, now);
  }

  lemma StillIn(settings: Settings, s: State, now: int, at: int)
    requires at in s.window && now - at < HOUR
    ensures at in Reserved(settings, s, now).window
  {
    LiveHas(s.window, now, at);
  }

  /** A try that is granted with the reservation is granted without it, and one that is refused changes nothing that
      matters. */
  lemma AheadStep(settings: Settings, with: State, without: State, at: int, clock: int, now: int)
    requires Ahead(settings, with, without, at, clock) && clock <= now
    ensures Grants(settings, with, now) ==> Grants(settings, without, now)
    ensures Ahead(settings, Reserved(settings, with, now),
      if Grants(settings, with, now) then Reserved(settings, without, now) else without, at, now)
  {
    AheadGrants(settings, with, without, at, clock, now);
    MoreCountsStep(settings, with, without, at, clock, now);
    if now - at < HOUR {
      StillIn(settings, with, now, at);
    }
  }

  lemma MoreCountsStep(settings: Settings, with: State, without: State, at: int, clock: int, now: int)
    requires MoreCounts(with, without, at, clock) && clock <= now
    requires Grants(settings, with, now) ==> Grants(settings, without, now)
    ensures MoreCounts(Reserved(settings, with, now),
      if Grants(settings, with, now) then Reserved(settings, without, now) else without, at, now)
  {
    var next := if Grants(settings, with, now) then Reserved(settings, without, now) else without;
    forall later | now <= later
      ensures Count(Reserved(settings, with, now).window, later) == Count(next.window, later) + One(at, later)
    {
      ReservedCounts(settings, with, now, later);
      ReservedCounts(settings, without, now, later);
      assert Count(with.window, later) == Count(without.window, later) + One(at, later);
    }
  }

  lemma AheadEnd(settings: Settings, with: State, without: State, at: int, now: int)
    requires Ahead(settings, with, without, at, now)
    ensures Equivalent(settings, RolledBack(with, at), without, now)
  {
    forall later | now <= later ensures Count(RolledBack(with, at).window, later) == Count(without.window, later) {
      RemoveCounts(with.window, at, later);
    }
  }

  /** The tries of a series that are granted. */
  function Granted(settings: Settings, s: State, times: seq<int>): seq<int>
    decreases |times|
  {
    if times == [] then [] else
    (if Grants(settings, s, times[0]) then [times[0]] else []) + Granted(settings, Reserved(settings, s, times[0]), times[1..])
  }

  function Latest(clock: int, times: seq<int>): int {
    if times == [] then clock else times[|times| - 1]
  }

  lemma {:induction false} AheadRun(settings: Settings, with: State, without: State, at: int, clock: int, times: seq<int>)
    requires Ahead(settings, with, without, at, clock) && Monotone(clock, times)
    ensures var granted := Granted(settings, with, times);
      && Ahead(settings, Run(settings, with, times), Run(settings, without, granted), at, Latest(clock, times))
      && Granted(settings, without, granted) == granted
    decreases |times|
  {
    if times != [] {
      var now, rest := times[0], times[1..];
      AheadStep(settings, with, without, at, clock, now);
      var granted := Granted(settings, Reserved(settings, with, now), rest);
      assert Latest(now, rest) == Latest(clock, times);
      if Grants(settings, with, now) {
        AheadRun(settings, Reserved(settings, with, now), Reserved(settings, without, now), at, now, rest);
        GrantedFirst(settings, without, now, granted);
      } else {
        AheadRun(settings, Reserved(settings, with, now), without, at, now, rest);
        assert [] + granted == granted;
      }
    }
  }

  lemma GrantedFirst(settings: Settings, s: State, now: int, times: seq<int>)
    requires Grants(settings, s, now)
    ensures Run(settings, s, [now] + times) == Run(settings, Reserved(settings, s, now), times)
    ensures Granted(settings, s, [now] + times) == [now] + Granted(settings, Reserved(settings, s, now), times)
  {
    assert ([now] + times)[0] == now && ([now] + times)[1..] == times;
  }

  /** Rolling back a reservation, even after any number of later tries, leaves a state that decides every further series
      of reservations exactly as if the reservation had never been made and only the later grants had. */
  lemma RollbackAsIfNever(settings: Settings, s: State, at: int, times: seq<int>, further: seq<int>)
    requires Grants(settings, s, at) && Monotone(at, times) && Monotone(Latest(at, times), further)
    ensures var with := Run(settings, Reserved(settings, s, at), times);
      var granted := Granted(settings, Reserved(settings, s, at), times);
      && Granted(settings, s, granted) == granted
      && Decisions(settings, RolledBack(with, at), further) == Decisions(settings, Run(settings, s, granted), further)
  {
    var first, now := Reserved(settings, s, at), Latest(at, times);
    AheadStart(settings, s, at);
    AheadRun(settings, first, s, at, at, times);
    var with, without := Run(settings, first, times), Run(settings, s, Granted(settings, first, times));
    AheadEnd(settings, with, without, at, now);
    EquivalentDecides(settings, RolledBack(with, at), without, now, further);
  }

  // ----- Rolling back when the settings have changed -----

  predicate Full(settings: Settings, s: State, now: int) {
    settings.limit > 0 && Count(s.window, now) >= settings.limit
  }

  /** The state after the rollback, and the state of the world without the reservation, after some later tries. */
  function AfterRollback(settings: Settings, s: State, at: int, times: seq<int>): State {
    RolledBack(Run(settings, Reserved(settings, s, at), times), at)
  }

  function NeverMade(settings: Settings, s: State, at: int, times: seq<int>): State {
    Run(settings, s, Granted(settings, Reserved(settings, s, at), times))
  }

  /** Counting alike from some time on. */
  ghost predicate CountAlike(s: State, t: State, clock: int) {
    forall later | clock <= later :: Count(s.window, later) == Count(t.window, later)
  }

  /** The two states count alike.  They differ at most in the last grant, which the rollback forgets if it still is the
      withdrawn one, and keeps otherwise. */
  lemma OnlyLastGrantIsLost(settings: Settings, s: State, at: int, times: seq<int>)
    requires Grants(settings, s, at) && Monotone(at, times)
    ensures var with := Run(settings, Reserved(settings, s, at), times);
      var rolled, without := AfterRollback(settings, s, at, times), NeverMade(settings, s, at, times);
      && CountAlike(rolled, without, Latest(at, times))
      && (rolled.last == if with.last == Some(at) then None else without.last)
  {
    AheadStart(settings, s, at);
    AheadRun(settings, Reserved(settings, s, at), s, at, at, times);
    AheadEnd(settings, Run(settings, Reserved(settings, s, at), times), NeverMade(settings, s, at, times), at, Latest(at, times));
  }

  /** Under any new settings, the next decision is the one of the world without the reservation if and only if the
      withdrawn grant was no longer the last one, or the last grant without it is out of the new cooldown, or the new
      limit refuses anyway. */
  lemma RollbackDecidesNext(before: Settings, after: Settings, s: State, at: int, times: seq<int>, now: int)
    requires Grants(before, s, at) && Monotone(at, times) && Latest(at, times) <= now
    ensures var rolled, without := AfterRollback(before, s, at, times), NeverMade(before, s, at, times);
      (Grants(after, rolled, now) == Grants(after, without, now)) <==>
        (Run(before, Reserved(before, s, at), times).last != Some(at) || !Cooling(after, without.last, now) || Full(after, without, now))
  {
    OnlyLastGrantIsLost(before, s, at, times);
    assert Count(AfterRollback(before, s, at, times).window, now) == Count(NeverMade(before, s, at, times).window, now);
  }

  /** The forgotten grant cannot make a difference: its cooldown is over, or the window stays full for as long as it lasts. */
  predicate Harmless(settings: Settings, s: State, now: int) {
    Cooling(settings, s.last, now) ==> Full(settings, s, s.last.value + settings.cooldown - 1)
  }

  /** While the cooldown lasts that only one of the two knows about, both refuse. */
  lemma BothRefuse(settings: Settings, rolled: State, without: State, now: int)
    requires Count(rolled.window, now) == Count(without.window, now)
    requires Harmless(settings, without, now) && Cooling(settings, without.last, now)
    ensures !Grants(settings, rolled, now) && !Grants(settings, without, now)
  {
    CountFalls(without.window, now, without.last.value + settings.cooldown - 1);
  }

  /** A refused try changes nothing that counts. */
  lemma RefusedCounts(settings: Settings, s: State, t: State, clock: int, now: int)
    requires CountAlike(s, t, clock) && clock <= now && !Grants(settings, s, now)
    ensures CountAlike(Reserved(settings, s, now), t, now)
  {
    forall later | now <= later ensures Count(Reserved(settings, s, now).window, later) == Count(t.window, later) {
      ReservedCounts(settings, s, now, later);
      assert Count(s.window, later) == Count(t.window, later);
    }
  }

  lemma ForgottenStep(settings: Settings, rolled: State, without: State, clock: int, now: int)
    requires CountAlike(rolled, without, clock) && rolled.last.None? && Harmless(settings, without, clock) && clock <= now
    requires Cooling(settings, without.last, now)
    ensures Grants(settings, rolled, now) == Grants(settings, without, now) == false && Reserved(settings, without, now) == without
    ensures CountAlike(Reserved(settings, rolled, now), without, now) && Reserved(settings, rolled, now).last.None?
    ensures Harmless(settings, without, now)
  {
    assert Count(rolled.window, now) == Count(without.window, now);
    BothRefuse(settings, rolled, without, now);
    RefusedCounts(settings, rolled, without, clock, now);
  }

  lemma {:induction false} ForgottenDecides(settings: Settings, rolled: State, without: State, clock: int, times: seq<int>)
    requires CountAlike(rolled, without, clock) && rolled.last.None? && Harmless(settings, without, clock) && Monotone(clock, times)
    ensures Decisions(settings, rolled, times) == Decisions(settings, without, times)
    decreases |times|
  {
    if times != [] {
      if Cooling(settings, without.last, times[0]) {
        ForgottenStep(settings, rolled, without, clock, times[0]);
        ForgottenDecides(settings, Reserved(settings, rolled, times[0]), without, times[0], times[1..]);
      } else {
        EquivalentDecides(settings, rolled, without, times[0], times);
      }
    }
  }

  /** The two states decide every series of reservations alike. */
  ghost predicate DecideAlike(settings: Settings, s: State, t: State, clock: int) {
    forall further | Monotone(clock, further) :: Decisions(settings, s, further) == Decisions(settings, t, further)
  }

  lemma AlikeWhenKept(settings: Settings, rolled: State, without: State, clock: int)
    requires CountAlike(rolled, without, clock) && rolled.last == without.last
    ensures DecideAlike(settings, rolled, without, clock)
  {
    forall further | Monotone(clock, further) ensures Decisions(settings, rolled, further) == Decisions(settings, without, further) {
      EquivalentDecides(settings, rolled, without, clock, further);
    }
  }

  lemma AlikeWhenForgotten(settings: Settings, rolled: State, without: State, clock: int)
    requires CountAlike(rolled, without, clock) && rolled.last.None?
    ensures DecideAlike(settings, rolled, without, clock) <==> Harmless(settings, without, clock)
  {
    if Harmless(settings, without, clock) {
      forall further | Monotone(clock, further) ensures Decisions(settings, rolled, further) == Decisions(settings, without, further) {
        ForgottenDecides(settings, rolled, without, clock, further);
      }
    } else {
      var end := without.last.value + settings.cooldown - 1;
      assert Count(rolled.window, end) == Count(without.window, end);
      assert Monotone(clock, [end]);
      assert Decisions(settings, rolled, [end])[0] != Decisions(settings, without, [end])[0];
    }
  }

  /** So a rollback leaves no trace in any series of later reservations under new settings if and only if the withdrawn
      grant was no longer the last one, or forgetting the one before it is harmless. */
  lemma RollbackUnderNewSettings(before: Settings, after: Settings, s: State, at: int, times: seq<int>)
    requires Grants(before, s, at) && Monotone(at, times)
    ensures var rolled, without, clock := AfterRollback(before, s, at, times), NeverMade(before, s, at, times), Latest(at, times);
      DecideAlike(after, rolled, without, clock) <==>
        (Run(before, Reserved(before, s, at), times).last != Some(at) || Harmless(after, without, clock))
  {
    var rolled, without, clock := AfterRollback(before, s, at, times), NeverMade(before, s, at, times), Latest(at, times);
    OnlyLastGrantIsLost(before, s, at, times);
    if Run(before, Reserved(before, s, at), times).last != Some(at) {
      AlikeWhenKept(after, rolled, without, clock);
    } else {
      AlikeWhenForgotten(after, rolled, without, clock);
    }
  }

  /** For instance, a cooldown raised from 10 to 100 seconds no longer sees a grant 11 seconds ago. */
  lemma RollbackForgetsEarlierGrant()
    ensures var before, after := Settings(0, 10), Settings(0, 100);
      var s := Reserved(before, EMPTY, 0);
      Grants(before, s, 10) && !Grants(after, s, 11) && Grants(after, AfterRollback(before, s, 10, []), 11)
  {
    var before, after := Settings(0, 10), Settings(0, 100);
    var s := Reserved(before, EMPTY, 0);
    RollbackDecidesNext(before, after, s, 10, [], 11);
  }

  // ----- What the quota guarantees -----

  lemma {:induction false} LiveTwice(window: seq<int>, now: int, later: int)
    requires now <= later
    ensures Live(Live(window, now), later) == Live(window, later)
  {
    if window != [] {
      var front, last := window[..|window| - 1], window[|window| - 1];
      LiveTwice(front, now, later);
      LiveAppend(Live(front, now), last, later);
      assert Live(front, now) + [] == Live(front, now);
    }
  }

  lemma LiveAppend(window: seq<int>, item: int, now: int)
    ensures Live(window + [item], now) == Live(window, now) + if now - item < HOUR then [item] else []
  {
    assert (window + [item])[..|window|] == window;
  }

  lemma {:induction false} RemoveAppend(window: seq<int>, last: int, item: int)
    ensures RemoveFirst(window + [last], item)
      == if item in window then RemoveFirst(window, item) + [last] else if last == item then window else window + [last]
  {
    if window == [] {
      assert [] + [last] == [last];
    } else {
      assert (window + [last])[1..] == window[1..] + [last];
      assert item in window <==> item == window[0] || item in window[1..];
      if window[0] != item {
        RemoveAppend(window[1..], last, item);
        assert [window[0]] + window[1..] == window;
        assert [window[0]] + (window[1..] + [last]) == window + [last];
      }
    }
  }

  lemma {:induction false} RemoveAbsent(window: seq<int>, item: int)
    requires item !in window
    ensures RemoveFirst(window, item) == window
  {
    if window != [] {
      RemoveAbsent(window[1..], item);
    }
  }

  /** Removing an entry that no longer counts changes nothing that does. */
  lemma {:induction false} RemoveExpired(window: seq<int>, item: int, now: int)
    requires now - item >= HOUR
    ensures Live(RemoveFirst(window, item), now) == Live(window, now)
  {
    if window != [] {
      var front, last := window[..|window| - 1], window[|window| - 1];
      assert window == front + [last];
      RemoveExpired(front, item, now);
      RemoveAppend(front, last, item);
      LiveAppend(RemoveFirst(front, item), last, now);
      LiveAppend(front, last, now);
    }
  }

  /** Pruning and removing an entry that counts commute. */
  lemma {:induction false} RemoveLive(window: seq<int>, item: int, now: int)
    requires now - item < HOUR
    ensures Live(RemoveFirst(window, item), now) == RemoveFirst(Live(window, now), item)
  {
    if window != [] {
      var front, last := window[..|window| - 1], window[|window| - 1];
      assert window == front + [last];
      RemoveLive(front, item, now);
      RemoveAppend(front, last, item);
      LiveAppend(RemoveFirst(front, item), last, now);
      LiveAppend(front, last, now);
      LiveHas(front, now, item);
      if now - last < HOUR {
        RemoveAppend(Live(front, now), last, item);
      } else {
        assert Live(front, now) + [] == Live(front, now);
      }
      if item !in front {
        RemoveAbsent(front, item);
        RemoveAbsent(Live(front, now), item);
      }
    }
  }

  /** How many grants fall into the hour that ends at a time. */
  function InHour(grants: seq<int>, end: int): nat {
    if grants == [] then 0 else
    InHour(grants[..|grants| - 1], end) + if 0 <= end - grants[|grants| - 1] < 3600 then 1 else 0
  }

  lemma {:induction false} InHourIsCount(grants: seq<int>, end: int)
    requires forall i | 0 <= i < |grants| :: grants[i] <= end
    ensures InHour(grants, end) == Count(grants, end)
  {
    if grants != [] {
      InHourIsCount(grants[..|grants| - 1], end);
    }
  }

  lemma InHourAppend(grants: seq<int>, item: int, end: int)
    ensures InHour(grants + [item], end) == InHour(grants, end) + if 0 <= end - item < HOUR then 1 else 0
  {
    assert (grants + [item])[..|grants|] == grants;
  }

  lemma {:induction false} InHourOfFewer(grants: seq<int>, item: int, end: int)
    ensures InHour(RemoveFirst(grants, item), end) <= InHour(grants, end)
  {
    if grants != [] {
      var front, last := grants[..|grants| - 1], grants[|grants| - 1];
      assert grants == front + [last];
      RemoveAppend(front, last, item);
      if item in front {
        InHourOfFewer(front, item, end);
        InHourAppend(RemoveFirst(front, item), last, end);
      }
    }
  }

  /** The law of the quota: in no hour more grants than the limit, and no two of them closer than the cooldown. */
  ghost predicate Lawful(settings: Settings, grants: seq<int>) {
    && (settings.limit > 0 ==> forall end :: InHour(grants, end) <= settings.limit)
    && (settings.cooldown > 0 ==> forall i, j | 0 <= i < j < |grants| :: grants[j] - grants[i] >= settings.cooldown)
  }

  /** How the state of a source stands to its grants that were not rolled back: the window holds those of the last hour,
      the last grant is one of them, and a grant is out of its cooldown unless the last grant is not older. */
  ghost predicate Tracks(settings: Settings, s: State, grants: seq<int>, clock: int) {
    && Live(s.window, clock) == Live(grants, clock)
    && (s.last.Some? ==> s.last.value in grants)
    && Spaced(settings, s.last, grants, clock)
  }

  ghost predicate Fair(settings: Settings, s: State, grants: seq<int>, clock: int) {
    Tracks(settings, s, grants, clock) && Lawful(settings, grants)
  }

  /** Tracking goes on while time passes. */
  lemma TracksLater(settings: Settings, s: State, grants: seq<int>, clock: int, now: int)
    requires Tracks(settings, s, grants, clock) && clock <= now
    ensures Tracks(settings, s, grants, now)
  {
    LiveTwice(s.window, clock, now);
    LiveTwice(grants, clock, now);
  }

  lemma TryTracksWindow(settings: Settings, s: State, grants: seq<int>, now: int)
    requires Live(s.window, now) == Live(grants, now)
    ensures Live(Reserved(settings, s, now).window, now) == Live(if Grants(settings, s, now) then grants + [now] else grants, now)
  {
    LiveTwice(s.window, now, now);
    LiveAppend(Live(s.window, now), now, now);
    LiveAppend(grants, now, now);
  }

  /** Every grant is out of its cooldown, or not younger than the last one. */
  ghost predicate Spaced(settings: Settings, last: Option<int>, grants: seq<int>, clock: int) {
    forall i | 0 <= i < |grants| ::
      grants[i] <= clock && (Elapsed(settings, Some(grants[i]), clock) || (last.Some? && grants[i] <= last.value))
  }

  lemma TryTracks(settings: Settings, s: State, grants: seq<int>, now: int)
    requires Tracks(settings, s, grants, now)
    ensures Tracks(settings, Reserved(settings, s, now), if Grants(settings, s, now) then grants + [now] else grants, now)
  {
    TryTracksWindow(settings, s, grants, now);
    if Grants(settings, s, now) {
      TrySpaces(settings, s.last, grants, now);
    }
  }

  lemma TrySpaces(settings: Settings, last: Option<int>, grants: seq<int>, now: int)
    requires Spaced(settings, last, grants, now)
    ensures Spaced(settings, Some(now), grants + [now], now) && now in grants + [now]
  {
    assert (grants + [now])[|grants|] == now;
  }

  lemma TryIsLawful(settings: Settings, s: State, grants: seq<int>, now: int)
    requires Tracks(settings, s, grants, now) && Lawful(settings, grants) && Grants(settings, s, now)
    ensures Lawful(settings, grants + [now])
  {
    if settings.limit > 0 {
      forall end ensures InHour(grants + [now], end) <= settings.limit {
        assert (grants + [now])[..|grants|] == grants;
        if now <= end {
          InHourIsCount(grants, end);
          CountFalls(grants, now, end);
        }
      }
    }
  }

  /** Removing takes out one position, if any, and moves the later ones up. */
  lemma {:induction false} RemovePosition(grants: seq<int>, item: int) returns (k: nat)
    requires item in grants
    ensures k < |grants| && grants[k] == item && |RemoveFirst(grants, item)| == |grants| - 1
    ensures forall i | 0 <= i < |grants| - 1 :: RemoveFirst(grants, item)[i] == grants[if i < k then i else i + 1]
  {
    k := 0;
    if grants[0] != item {
      var rest := RemovePosition(grants[1..], item);
      k := rest + 1;
    }
  }

  lemma WithdrawIsLawful(settings: Settings, grants: seq<int>, at: int)
    requires Lawful(settings, grants) && at in grants
    ensures Lawful(settings, RemoveFirst(grants, at))
  {
    forall end ensures InHour(RemoveFirst(grants, at), end) <= InHour(grants, end) {
      InHourOfFewer(grants, at, end);
    }
    var k := RemovePosition(grants, at);
  }

  lemma WithdrawTracksWindow(window: seq<int>, grants: seq<int>, clock: int, at: int)
    requires Live(window, clock) == Live(grants, clock)
    ensures Live(RemoveFirst(window, at), clock) == Live(RemoveFirst(grants, at), clock)
  {
    if clock - at < HOUR {
      RemoveLive(window, at, clock);
      RemoveLive(grants, at, clock);
    } else {
      RemoveExpired(window, at, clock);
      RemoveExpired(grants, at, clock);
    }
  }

  /** The last grant, unless it is the one that goes, is still among the grants. */
  lemma LastStays(s: State, grants: seq<int>, at: int)
    requires (s.last.Some? ==> s.last.value in grants) && at in grants
    ensures RolledBack(s, at).last.Some? ==> RolledBack(s, at).last.value in RemoveFirst(grants, at)
  {
    var k := RemovePosition(grants, at);
    var rest := RemoveFirst(grants, at);
    if s.last.Some? && s.last.value != at {
      var j :| 0 <= j < |grants| && grants[j] == s.last.value;
      assert rest[if j < k then j else j - 1] == s.last.value;
    }
  }

  lemma WithdrawTracks(settings: Settings, s: State, grants: seq<int>, clock: int, at: int)
    requires Tracks(settings, s, grants, clock) && Lawful(settings, grants) && at in grants
    ensures Tracks(settings, RolledBack(s, at), RemoveFirst(grants, at), clock)
  {
    WithdrawTracksWindow(s.window, grants, clock, at);
    var k := RemovePosition(grants, at);
    var rest := RemoveFirst(grants, at);
    LastStays(s, grants, at);
    forall i | 0 <= i < |rest|
      ensures Elapsed(settings, Some(rest[i]), clock) || (RolledBack(s, at).last.Some? && rest[i] <= RolledBack(s, at).last.value)
    {
      var j := if i < k then i else i + 1;
      assert rest[i] == grants[j] && j != k;
    }
  }

  /** As many grants in the last hour as the limit allows, or one that is younger than the cooldown. */
  ghost predicate IsUsedUp(settings: Settings, grants: seq<int>, now: int) {
    || (settings.limit > 0 && InHour(grants, now) >= settings.limit)
    || (settings.cooldown > 0 && exists i :: 0 <= i < |grants| && now - grants[i] < settings.cooldown)
  }

  /** A try is refused if and only if the quota is used up by grants that were not rolled back. */
  lemma RefusalIsDue(settings: Settings, s: State, grants: seq<int>, now: int)
    requires Tracks(settings, s, grants, now)
    ensures !Grants(settings, s, now) <==> IsUsedUp(settings, grants, now)
  {
    InHourIsCount(grants, now);
  }

  lemma FairTry(settings: Settings, s: State, grants: seq<int>, now: int)
    requires Fair(settings, s, grants, now)
    ensures Fair(settings, Reserved(settings, s, now), if Grants(settings, s, now) then grants + [now] else grants, now)
  {
    TryTracks(settings, s, grants, now);
    if Grants(settings, s, now) {
      TryIsLawful(settings, s, grants, now);
    }
  }

  lemma FairWithdraw(settings: Settings, s: State, grants: seq<int>, clock: int, at: int)
    requires Fair(settings, s, grants, clock) && at in grants
    ensures Fair(settings, RolledBack(s, at), RemoveFirst(grants, at), clock)
  {
    WithdrawTracks(settings, s, grants, clock, at);
    WithdrawIsLawful(settings, grants, at);
  }

  // ----- The tables -----

  datatype Source = Source(name: string)

  /** The tables of the manager: the windows and last grants, and beside them the grants that were not rolled back, the
      sources whose window was once dropped to bound the table, and the clock. */
  datatype Tables = Tables(windows: map<Source, seq<int>>, lasts: map<Source, int>, grants: map<Source, seq<int>>,
    dropped: set<Source>, clock: int)

  function StateOf(t: Tables, source: Source): State {
    State(if source in t.windows then t.windows[source] else [], if source in t.lasts then Some(t.lasts[source]) else None)
  }

  function GrantsOf(t: Tables, source: Source): seq<int> {
    if source in t.grants then t.grants[source] else []
  }

  ghost predicate FairAt(settings: Source -> Settings, t: Tables, source: Source) {
    Fair(settings(source), StateOf(t, source), GrantsOf(t, source), t.clock)
  }

  /** Every source whose window was never dropped is within its quota. */
  ghost predicate AllFair(settings: Source -> Settings, t: Tables) {
    forall source | source !in t.dropped :: FairAt(settings, t, source)
  }

  lemma AllFairLater(settings: Source -> Settings, t: Tables, now: int)
    requires AllFair(settings, t) && t.clock <= now
    ensures AllFair(settings, t.(clock := now))
  {
    forall source | source !in t.dropped ensures FairAt(settings, t.(clock := now), source) {
      assert FairAt(settings, t, source);
      TracksLater(settings(source), StateOf(t, source), GrantsOf(t, source), t.clock, now);
    }
  }

  lemma FairDecision(settings: Source -> Settings, t: Tables, source: Source, now: int)
    requires AllFair(settings, t) && source !in t.dropped && t.clock <= now
    ensures Grants(settings(source), StateOf(t, source), now) <==> !IsUsedUp(settings(source), GrantsOf(t, source), now)
  {
    assert FairAt(settings, t, source);
    TracksLater(settings(source), StateOf(t, source), GrantsOf(t, source), t.clock, now);
    RefusalIsDue(settings(source), StateOf(t, source), GrantsOf(t, source), now);
  }

  /** Only the one source has changed, apart from windows that were dropped. */
  ghost predicate Elsewhere(before: Tables, after: Tables, source: Source) {
    && before.clock == after.clock && before.dropped <= after.dropped
    && forall other | other != source && other !in after.dropped ::
         StateOf(after, other) == StateOf(before, other) && GrantsOf(after, other) == GrantsOf(before, other)
  }

  lemma AllFairTry(settings: Source -> Settings, before: Tables, after: Tables, source: Source)
    requires AllFair(settings, before) && Elsewhere(before, after, source)
    requires source !in after.dropped ==>
      && StateOf(after, source) == Reserved(settings(source), StateOf(before, source), before.clock)
      && GrantsOf(after, source)
         == if Grants(settings(source), StateOf(before, source), before.clock) then GrantsOf(before, source) + [before.clock]
            else GrantsOf(before, source)
    ensures AllFair(settings, after)
  {
    forall other | other !in after.dropped ensures FairAt(settings, after, other) {
      assert FairAt(settings, before, other);
      if other == source {
        FairTry(settings(source), StateOf(before, source), GrantsOf(before, source), before.clock);
      }
    }
  }

  lemma AllFairWithdraw(settings: Source -> Settings, before: Tables, after: Tables, source: Source, at: int)
    requires AllFair(settings, before) && Elsewhere(before, after, source) && at in GrantsOf(before, source)
    requires StateOf(after, source) == RolledBack(StateOf(before, source), at)
    requires GrantsOf(after, source) == RemoveFirst(GrantsOf(before, source), at)
    ensures AllFair(settings, after)
  {
    forall other | other !in after.dropped ensures FairAt(settings, after, other) {
      assert FairAt(settings, before, other);
      if other == source {
        FairWithdraw(settings(source), StateOf(before, source), GrantsOf(before, source), before.clock, at);
      }
    }
  }

  lemma TakeKeeps(settings: Source -> Settings, before: Tables, middle: Tables, after: Tables, source: Source)
    requires AllFair(settings, before) && Elsewhere(before, middle, source)
    requires StateOf(middle, source) == Reserved(settings(source), StateOf(before, source), before.clock)
    requires middle.grants == before.grants && after == middle.(grants := after.grants)
    requires after.grants == if Grants(settings(source), StateOf(before, source), before.clock)
                             then before.grants[source := GrantsOf(before, source) + [before.clock]] else before.grants
    ensures AllFair(settings, after) && Elsewhere(before, after, source)
    ensures StateOf(after, source) == Reserved(settings(source), StateOf(before, source), before.clock)
  {
    assert StateOf(after, source) == StateOf(middle, source);
    forall other | other != source && other !in after.dropped
      ensures StateOf(after, other) == StateOf(before, other) && GrantsOf(after, other) == GrantsOf(before, other)
    {
      assert StateOf(after, other) == StateOf(middle, other);
    }
    AllFairTry(settings, before, after, source);
  }

  lemma RollbackKeeps(settings: Source -> Settings, before: Tables, middle: Tables, after: Tables, source: Source, at: int)
    requires AllFair(settings, before) && Elsewhere(before, middle, source) && at in GrantsOf(before, source)
    requires StateOf(middle, source) == RolledBack(StateOf(before, source), at) && middle.grants == before.grants
    requires after == middle.(grants := before.grants[source := RemoveFirst(GrantsOf(before, source), at)])
    ensures AllFair(settings, after)
    ensures StateOf(after, source) == RolledBack(StateOf(before, source), at)
  {
    assert StateOf(after, source) == StateOf(middle, source);
    forall other | other != source && other !in after.dropped
      ensures StateOf(after, other) == StateOf(before, other) && GrantsOf(after, other) == GrantsOf(before, other)
    {
      assert StateOf(after, other) == StateOf(middle, other);
    }
    AllFairWithdraw(settings, before, after, source, at);
  }

  // ----- The code -----

  const MAX_WINDOWS: nat := 512

  class Manager {
    /** The windows of proactive messages; the table is shared with `platformWindows` windows of another kind. */
    var rateWindows: map<Source, seq<int>>
    var proactiveLast: map<Source, int>
    const platformWindows: nat
    const settings: Source -> Settings
    ghost var grants: map<Source, seq<int>>
    ghost var dropped: set<Source>
    ghost var clock: int

    constructor (settings: Source -> Settings, platformWindows: nat, clock: int)
      ensures Valid() && this.settings == settings && grants == map[] && dropped == {}
    {
      rateWindows, proactiveLast, grants, dropped := map[], map[], map[], {};
      this.settings, this.platformWindows, this.clock := settings, platformWindows, clock;
    }

    ghost function Contents(): Tables
      reads this
    {
      Tables(rateWindows, proactiveLast, grants, dropped, clock)
    }

    ghost predicate Valid()
      reads this
    {
      AllFair(settings, Contents())
    }

    /** The filter loop of a reservation. */
    method Prune(entries: seq<int>, now: int) returns (kept: seq<int>)
      ensures kept == Live(entries, now)
    {
      kept := [];
      for i := 0 to |entries|
        invariant kept == Live(entries[..i], now)
      {
        assert entries[..i + 1] == entries[..i] + [entries[i]];
        LiveAppend(entries[..i], entries[i], now);
        if now - entries[i] < HOUR {
          kept := kept + [entries[i]];
        }
      }
      assert entries[..|entries|] == entries;
    }

    /** reserveProactiveDelivery.  `admitted` stands for the switches, quiet hours and allow list in front of the quota. */
    method Reserve(source: Source, now: int, admitted: bool) returns (granted: bool, ghost lost: Option<Source>)
      requires Valid() && clock <= now
      modifies this
      ensures Valid() && clock == now && dropped == old(dropped) + Lost(lost)
      ensures lost.Some? <==> granted && Crowded(old(rateWindows.Keys), source)
      ensures grants == if granted then old(grants)[source := GrantsOf(old(Contents()), source) + [now]] else old(grants)
      ensures granted == (admitted && Grants(settings(source), StateOf(old(Contents()), source), now))
      ensures source !in old(dropped) ==>
        (granted <==> admitted && !IsUsedUp(settings(source), GrantsOf(old(Contents()), source), now))
      ensures StateOf(Contents(), source)
        == if admitted then Reserved(settings(source), StateOf(old(Contents()), source), now) else StateOf(old(Contents()), source)
      ensures forall other | other != source && other !in dropped :: StateOf(Contents(), other) == StateOf(old(Contents()), other)
    {
      ghost var before := Contents();
      granted, lost := TakeIfAdmitted(source, now, admitted);
      if source !in before.dropped {
        FairDecision(settings, before, source, now);
      }
    }

    method TakeIfAdmitted(source: Source, now: int, admitted: bool) returns (granted: bool, ghost lost: Option<Source>)
      requires Valid() && clock <= now
      modifies this
      ensures Valid() && clock == now && dropped == old(dropped) + Lost(lost)
      ensures lost.Some? <==> granted && Crowded(old(rateWindows.Keys), source)
      ensures grants == if granted then old(grants)[source := GrantsOf(old(Contents()), source) + [now]] else old(grants)
      ensures granted == (admitted && Grants(settings(source), StateOf(old(Contents()), source), now))
      ensures StateOf(Contents(), source)
        == if admitted then Reserved(settings(source), StateOf(old(Contents()), source), now) else StateOf(old(Contents()), source)
      ensures forall other | other != source && other !in dropped :: StateOf(Contents(), other) == StateOf(old(Contents()), other)
    {
      AllFairLater(settings, Contents(), now);
      clock := now;
      granted, lost := false, None;
      if admitted {
        granted, lost := Take(source, now);
      }
    }

    /** The reservation proper, at the present time. */
    method Take(source: Source, now: int) returns (granted: bool, ghost lost: Option<Source>)
      requires Valid() && clock == now
      modifies this
      ensures Valid() && clock == now && dropped == old(dropped) + Lost(lost)
      ensures lost.Some? <==> granted && Crowded(old(rateWindows.Keys), source)
      ensures grants == if granted then old(grants)[source := GrantsOf(old(Contents()), source) + [now]] else old(grants)
      ensures granted == Grants(settings(source), StateOf(old(Contents()), source), now)
      ensures StateOf(Contents(), source) == Reserved(settings(source), StateOf(old(Contents()), source), now)
      ensures Elsewhere(old(Contents()), Contents(), source)
    {
      ghost var before := Contents();
      granted, lost := TryReserve(source, now);
      ghost var middle := Contents();
      if granted {
        grants := grants[source := GrantsOf(before, source) + [now]];
      }
      TakeKeeps(settings, before, middle, Contents(), source);
    }

    /** The critical section of a reservation. */
    method TryReserve(source: Source, now: int) returns (granted: bool, ghost lost: Option<Source>)
      modifies this`rateWindows, this`proactiveLast, this`dropped
      ensures dropped == old(dropped) + Lost(lost)
      ensures lost.Some? <==> granted && Crowded(old(rateWindows.Keys), source)
      ensures granted == Grants(settings(source), StateOf(old(Contents()), source), now)
      ensures StateOf(Contents(), source) == Reserved(settings(source), StateOf(old(Contents()), source), now)
      ensures Elsewhere(old(Contents()), Contents(), source)
    {
      var setting := settings(source);
      ghost var s := StateOf(Contents(), source);
      if source in proactiveLast && setting.cooldown > 0 && now - proactiveLast[source] < setting.cooldown {
        assert Cooling(setting, s.last, now);
        return false, None;
      }
      var kept := Prune(if source in rateWindows then rateWindows[source] else [], now);
      assert !Cooling(setting, s.last, now) && kept == Live(s.window, now);
      if setting.limit > 0 && |kept| >= setting.limit {
        Replace(source, kept);
        return false, None;
      }
      lost := Record(source, kept, now);
      granted := true;
    }

    /** A refused reservation leaves the pruned window. */
    method Replace(source: Source, kept: seq<int>)
      modifies this`rateWindows
      ensures rateWindows.Keys == old(rateWindows.Keys) + {source}
      ensures StateOf(Contents(), source) == old(StateOf(Contents(), source)).(window := kept)
      ensures Elsewhere(old(Contents()), Contents(), source)
    {
      rateWindows := rateWindows[source := kept];
    }

    /** A granted reservation enters the tables. */
    method Record(source: Source, kept: seq<int>, now: int) returns (ghost lost: Option<Source>)
      modifies this`rateWindows, this`proactiveLast, this`dropped
      ensures dropped == old(dropped) + Lost(lost)
      ensures lost.Some? <==> Crowded(old(rateWindows.Keys), source)
      ensures StateOf(Contents(), source) == State(kept + [now], Some(now))
      ensures Elsewhere(old(Contents()), Contents(), source)
    {
      Replace(source, kept + [now]);
      proactiveLast := proactiveLast[source := now];
      assert rateWindows.Keys == old(rateWindows.Keys) + {source};
      lost := Bound(source);
      SameCrowd(old(rateWindows.Keys), source);
    }

    /** Whether a new window of the source makes the table too large, and there is another one to drop. */
    ghost predicate Crowded(keys: set<Source>, source: Source) {
      |keys + {source}| + platformWindows > 512 && keys - {source} != {}
    }

    ghost function Lost(lost: Option<Source>): set<Source> {
      if lost.Some? then {lost.value} else {}
    }

    lemma SameCrowd(keys: set<Source>, source: Source)
      ensures Crowded(keys + {source}, source) <==> Crowded(keys, source)
    {
      assert keys + {source} + {source} == keys + {source} && keys + {source} - {source} == keys - {source};
    }

    /** Dropping some other window when the table has become too large. */
    method Bound(source: Source) returns (ghost lost: Option<Source>)
      requires source in rateWindows
      modifies this`rateWindows, this`dropped
      ensures dropped == old(dropped) + Lost(lost)
      ensures lost.Some? <==> Crowded(old(rateWindows.Keys), source)
      ensures rateWindows.Keys == old(rateWindows.Keys) - Lost(lost) && source !in Lost(lost)
      ensures forall other | other == source || other !in dropped :: StateOf(Contents(), other) == StateOf(old(Contents()), other)
    {
      lost := None;
      assert rateWindows.Keys + {source} == rateWindows.Keys && |rateWindows.Keys| == |rateWindows|;
      if |rateWindows| + platformWindows > MAX_WINDOWS {
        var others := rateWindows.Keys - {source};
        if others != {} {
          var candidate :| candidate in others;
          lost := Some(candidate);
          dropped := dropped + {candidate};
          rateWindows := rateWindows - {candidate};
        }
      }
    }

    /** rollbackProactiveDelivery of a reservation that was granted and not yet rolled back. */
    method Rollback(source: Source, at: int)
      requires Valid() && at in GrantsOf(Contents(), source)
      modifies this
      ensures Valid() && clock == old(clock) && dropped == old(dropped)
      ensures StateOf(Contents(), source) == RolledBack(StateOf(old(Contents()), source), at)
      ensures GrantsOf(Contents(), source) == RemoveFirst(GrantsOf(old(Contents()), source), at)
      ensures forall other | other != source :: StateOf(Contents(), other) == StateOf(old(Contents()), other)
    {
      ghost var before := Contents();
      Withdraw(source, at);
      ghost var middle := Contents();
      grants := grants[source := RemoveFirst(GrantsOf(before, source), at)];
      RollbackKeeps(settings, before, middle, Contents(), source, at);
    }

    /** The critical section of a rollback. */
    method Withdraw(source: Source, at: int)
      modifies this`rateWindows, this`proactiveLast
      ensures StateOf(Contents(), source) == RolledBack(StateOf(old(Contents()), source), at)
      ensures forall other | other != source :: StateOf(Contents(), other) == StateOf(old(Contents()), other)
    {
      var entries := if source in rateWindows then rateWindows[source] else [];
      var kept, removed := RemoveEntry(entries, at);
      if removed {
        rateWindows := rateWindows[source := kept];
      }
      if source in proactiveLast && proactiveLast[source] == at {
        proactiveLast := proactiveLast - {source};
      }
    }

    /** The loop that leaves out the first equal entry. */
    method RemoveEntry(entries: seq<int>, at: int) returns (kept: seq<int>, removed: bool)
      ensures kept == RemoveFirst(entries, at) && (!removed ==> kept == entries)
    {
      kept, removed := [], false;
      for i := 0 to |entries|
        invariant kept == RemoveFirst(entries[..i], at) && (removed <==> at in entries[..i])
        invariant !removed ==> kept == entries[..i]
      {
        assert entries[..i + 1] == entries[..i] + [entries[i]];
        RemoveAppend(entries[..i], entries[i], at);
        if !removed && entries[i] == at {
          removed := true;
          continue;
        }
        kept := kept + [entries[i]];
      }
      assert entries[..|entries|] == entries;
    }
  }
}
