/** The daemon loop (main.cpp:153-177): when ticks start, and how long the waits between them are. */
module Scheduler {
  import opened Wrappers
  import opened Config
  import opened EngineSpec
  import opened Engine
  import opened EngineModes

  const NS_PER_SECOND: int := 1_000_000_000
  const NS_PER_MS: int := 1_000_000

  /** `duration_cast` to milliseconds truncates toward zero. */
  function ToMs(ns: int): int { if ns >= 0 then ns / NS_PER_MS else -(-ns / NS_PER_MS) }

  /** A conversion to a 32-bit integer keeps the low 32 bits. */
  function ToInt32(n: int): int { (n + 0x8000_0000) % 0x1_0000_0000 - 0x8000_0000 }

  /** The wait asked for when `remaining` nanoseconds are left. */
  function WaitMs(remaining: int): int { ToInt32(ToMs(remaining)) }

  /** Every reading of a monotone clock, in order. */
  ghost predicate Monotone(clock: nat -> int) { forall i: nat, j: nat :: i <= j ==> clock(i) <= clock(j) }

  /** The loop between rounds: when the next tick is due, the number of the last clock reading, when each
      tick started, and the time left at each wait. */
  datatype Loop = Loop(next: int, reading: nat, starts: seq<int>, waits: seq<int>)

  /** One round. A wait may end at any later reading, and a tick may take any time. */
  function Round(l: Loop, clock: nat -> int, interval: int): Loop {
    var now := clock(l.reading + 1);
    if now >= l.next then
      Loop(if Stalls(l, clock, interval) then clock(l.reading + 3) else l.next + interval,
           l.reading + if Stalls(l, clock, interval) then 3 else 2, l.starts + [now], l.waits)
    else
      Loop(l.next, l.reading + 2, l.starts, l.waits + [l.next - clock(l.reading + 2)])
  }

  /** The tick of this round lasts until the next one is due already. */
  predicate Stalls(l: Loop, clock: nat -> int, interval: int) {
    clock(l.reading + 1) >= l.next && clock(l.reading + 2) >= l.next + interval
  }

  function Rounds(n: nat, clock: nat -> int, interval: int): Loop {
    if n == 0 then Loop(clock(0), 0, [], []) else Round(Rounds(n - 1, clock, interval), clock, interval)
  }

  function Span(n: int, interval: int): int { n * interval }

  /** Tick `k` starts no earlier than `k` intervals after `start`. */
  predicate RateBounded(starts: seq<int>, start: int, interval: int) {
    forall k :: 0 <= k < |starts| ==> starts[k] >= start + Span(k, interval)
  }

  /** No burst: between tick `j` and tick `k` at least `k - j - 1` intervals pass, whatever delayed them. */
  predicate NoBurst(starts: seq<int>, interval: int) {
    forall j, k :: 0 <= j < k < |starts| ==> starts[k] >= starts[j] + Span(k - j - 1, interval)
  }

  /** The next tick is due no earlier than every past start allows. */
  predicate Due(starts: seq<int>, next: int, interval: int) {
    forall j :: 0 <= j < |starts| ==> next >= starts[j] + Span(|starts| - 1 - j, interval)
  }

  lemma StartWhenDue(starts: seq<int>, next: int, now: int, interval: int)
    requires NoBurst(starts, interval) && Due(starts, next, interval) && now >= next
    ensures NoBurst(starts + [now], interval)
  {
  }

  /** After a tick that started at `now`, the schedule moves on by an interval, or to a later reading. */
  lemma DueAfterTick(starts: seq<int>, next: int, now: int, next': int, interval: int)
    requires Due(starts, next, interval) && next' >= next + interval && next' >= now
    ensures Due(starts + [now], next', interval)
  {
    forall j | 0 <= j < |starts| ensures next' >= starts[j] + Span(|starts| - j, interval) {
      assert Span(|starts| - j, interval) == Span(|starts| - 1 - j, interval) + interval;
    }
  }

  predicate WaitsBounded(waits: seq<int>, interval: int) {
    forall k :: 0 <= k < |waits| ==> waits[k] <= interval
  }

  function TickCount(plan: seq<Move>): nat {
    if plan == [] then 0 else TickCount(plan[..|plan| - 1]) + if plan[|plan| - 1].DoTick? then 1 else 0
  }

  lemma TickCountMore(plan: seq<Move>, move: Move)
    ensures TickCount(plan + [move]) == TickCount(plan) + if move.DoTick? then 1 else 0
  {
    assert (plan + [move])[..|plan|] == plan;
  }

  /** `plan` leads the engine from state `from` to where it is, with `ticks` ticks. */
  ghost predicate Explains(plan: seq<Move>, engine: ChaosEngine, from: State, ticks: nat)
    reads engine, engine.roller, engine.world
  {
    engine.Model() == Run(from, engine.world.env, plan) && TickCount(plan) == ticks
  }

  /** `shutting_down()`: the scheduler's own look at the stop flag. */
  method Look(engine: ChaosEngine, ghost plan: seq<Move>, ghost from: State, ghost ticks: nat)
    returns (stop: bool, ghost plan': seq<Move>)
    requires Explains(plan, engine, from, ticks)
    modifies engine.world
    ensures engine.world.log == old(engine.world.log) + [ReadFlag(stop)]
    ensures stop == engine.world.env.Flag(|old(engine.world.log)|)
    ensures Explains(plan', engine, from, ticks)
  {
    stop := engine.world.StopRequested();
    plan' := plan + [Move.Look];
    RunMore(from, engine.world.env, plan, Move.Look);
    TickCountMore(plan, Move.Look);
  }

  method TickOnce(engine: ChaosEngine, ghost plan: seq<Move>, ghost from: State, ghost ticks: nat)
    returns (ghost plan': seq<Move>)
    requires Explains(plan, engine, from, ticks)
    modifies engine, engine.roller, engine.world
    ensures Explains(plan', engine, from, ticks + 1)
    ensures engine.Model() == EngineSpec.Tick(old(engine.Model()), engine.world.env)
  {
    hide EngineSpec.Tick;
    var ok := engine.Tick();
    plan' := plan + [DoTick];
    RunMore(from, engine.world.env, plan, DoTick);
    TickCountMore(plan, DoTick);
  }

  /** The rest of a round that found the tick due. */
  method TickRound(engine: ChaosEngine, l: Loop, clock: nat -> int, interval: int,
                   ghost plan: seq<Move>, ghost from: State, ghost ticks: nat, ghost base: nat)
    returns (l': Loop, ghost plan': seq<Move>)
    requires clock(l.reading + 1) >= l.next
    requires Explains(plan, engine, from, ticks)
    modifies engine, engine.roller, engine.world
    requires var log := engine.world.log;
      base < |log| && StopsAtOnce(log, base, engine.world.env) && log[|log| - 1] == ReadFlag(false)
    ensures l' == Round(l, clock, interval)
    ensures Explains(plan', engine, from, ticks + 1)
    ensures |engine.world.log| > base && StopsAtOnce(engine.world.log, base, engine.world.env)
  {
    hide Explains, StopsAtOnce, EngineSpec.Tick;
    TickStops(engine.Model(), engine.world.env);
    ghost var s := engine.Model();
    plan' := TickOnce(engine, plan, from, ticks);
    StopsJoin(s.log, EngineSpec.Tick(s, engine.world.env).log, base, engine.world.env);
    var nextTick, reading := l.next + interval, l.reading + 2;
    if clock(reading) >= nextTick {
      reading := reading + 1;
      nextTick := clock(reading);
    }
    l' := Loop(nextTick, reading, l.starts + [clock(l.reading + 1)], l.waits);
  }

  lemma NextRound(n: nat, clock: nat -> int, interval: int)
    ensures Rounds(n + 1, clock, interval) == Round(Rounds(n, clock, interval), clock, interval)
  {
  }

  /** From `base` on, a stop was seen at most by the last two steps: a tick's own look, and the loop's. */
  predicate HeedsStop(log: seq<Event>, base: nat) { forall i :: base <= i < |log| - 2 ==> log[i] != ReadFlag(true) }

  lemma LastLook(log: seq<Event>, base: nat, env: Env, e: Event)
    requires StopsAtOnce(log, base, env)
    ensures HeedsStop(log, base) && HeedsStop(log + [e], base)
  {
  }

  /** The body of the loop: a look at the flag, and then a tick or a wait. */
  method OneRound(engine: ChaosEngine, l: Loop, clock: nat -> int, interval: int,
                  ghost plan: seq<Move>, ghost from: State, ghost base: nat)
    returns (stop: bool, l': Loop, ghost plan': seq<Move>)
    requires Explains(plan, engine, from, |l.starts|)
    requires base <= |engine.world.log| && StopsAtOnce(engine.world.log, base, engine.world.env)
    modifies engine, engine.roller, engine.world
    ensures l' == if stop then l else Round(l, clock, interval)
    ensures Explains(plan', engine, from, |l'.starts|)
    ensures base < |engine.world.log| && HeedsStop(engine.world.log, base)
    ensures if stop then engine.world.log == old(engine.world.log) + [ReadFlag(true)]
            else StopsAtOnce(engine.world.log, base, engine.world.env)
  {
    hide Explains, StopsAtOnce, HeedsStop, EngineSpec.Tick;
    ghost var log, env := engine.world.log, engine.world.env;
    stop, plan' := Look(engine, plan, from, |l.starts|);
    LastLook(log, base, env, ReadFlag(stop));
    l' := l;
    if stop { return; }
    LookGoesOn(log, base, env);
    if clock(l.reading + 1) >= l.next {
      l', plan' := TickRound(engine, l, clock, interval, plan', from, |l.starts|, base);
      LastLook(engine.world.log, base, env, ReadFlag(false));
    } else {
      l' := Loop(l.next, l.reading + 2, l.starts, l.waits + [l.next - clock(l.reading + 2)]);
    }
  }

  /** `run_until_shutdown`, for at most `rounds` rounds. It ends early only after seeing the stop flag, and it goes
      on no more once it has seen it. */
  method RunUntilShutdown(engine: ChaosEngine, clock: nat -> int, rounds: nat)
    returns (done: nat, l: Loop, ghost plan: seq<Move>)
    modifies engine, engine.roller, engine.world
    ensures l == Rounds(done, clock, engine.cfg.intervalSeconds * NS_PER_SECOND)
    ensures Explains(plan, engine, old(engine.Model()), |l.starts|)
    ensures done <= rounds
    ensures done < rounds ==> engine.world.log != [] && engine.world.log[|engine.world.log| - 1] == ReadFlag(true)
    ensures HeedsStop(engine.world.log, |old(engine.world.log)|)
  {
    var interval := engine.cfg.intervalSeconds * NS_PER_SECOND;
    l, plan, done := Loop(clock(0), 0, [], []), [], 0;
    ghost var from, base, env := engine.Model(), |engine.world.log|, engine.world.env;
    assert Explains(plan, engine, from, 0);
    assert l == Rounds(0, clock, interval);
    NothingSeen(engine.world.log, env);
    hide Explains, Rounds, Round, StopsAtOnce, HeedsStop, Env.Flag;
    var stop;
    ghost var log := engine.world.log;
    stop, plan := Look(engine, plan, from, 0);
    LastLook(log, base, env, ReadFlag(stop));
    if stop { return; }
    LookGoesOn(log, base, env);
    while done < rounds
      invariant done <= rounds
      invariant l == Rounds(done, clock, interval)
      invariant Explains(plan, engine, from, |l.starts|)
      invariant base < |engine.world.log| && StopsAtOnce(engine.world.log, base, env)
      invariant HeedsStop(engine.world.log, base)
    {
      stop, l, plan := OneRound(engine, l, clock, interval, plan, from, base);
      if stop { return; }
      NextRound(done, clock, interval);
      done := done + 1;
    }
  }

  // ---- when ticks start ----

  /** What holds between rounds. */
  predicate OnSchedule(l: Loop, start: int, now: int, interval: int) {
    && start + Span(|l.starts|, interval) <= l.next <= now + interval
    && NoBurst(l.starts, interval) && Due(l.starts, l.next, interval)
    && RateBounded(l.starts, start, interval) && WaitsBounded(l.waits, interval)
  }

  /** A tick that started at `at`, when it was due, leaves the loop on schedule if the next one is not
      planned before an interval later. */
  lemma TickKeepsSchedule(l: Loop, start: int, at: int, l': Loop, now: int, interval: int)
    requires OnSchedule(l, start, at, interval) && l.next <= at
    requires l'.starts == l.starts + [at] && l'.waits == l.waits
    requires l'.next >= l.next + interval && at <= l'.next <= now + interval
    ensures OnSchedule(l', start, now, interval)
  {
    hide NoBurst, Due;
    StartWhenDue(l.starts, l.next, at, interval);
    DueAfterTick(l.starts, l.next, at, l'.next, interval);
    assert Span(|l.starts| + 1, interval) == Span(|l.starts|, interval) + interval;
  }

  lemma RoundKeepsSchedule(l: Loop, start: int, clock: nat -> int, interval: int)
    requires OnSchedule(l, start, clock(l.reading), interval) && interval >= 0
    requires clock(l.reading) <= clock(l.reading + 1) <= clock(l.reading + 2) <= clock(l.reading + 3)
    ensures var l' := Round(l, clock, interval); OnSchedule(l', start, clock(l'.reading), interval)
  {
    hide NoBurst, Due;
    if clock(l.reading + 1) >= l.next {
      assert OnSchedule(l, start, clock(l.reading + 1), interval);
      var l' := Round(l, clock, interval);
      TickKeepsSchedule(l, start, clock(l.reading + 1), l', clock(l'.reading), interval);
    }
  }

  lemma {:induction false} RoundsOnSchedule(n: nat, clock: nat -> int, interval: int)
    requires Monotone(clock) && interval >= 0
    ensures var l := Rounds(n, clock, interval); OnSchedule(l, clock(0), clock(l.reading), interval)
  {
    if n > 0 {
      RoundsOnSchedule(n - 1, clock, interval);
      var l := Rounds(n - 1, clock, interval);
      hide Monotone, OnSchedule, Round;
      Later(clock, l.reading);
      Later(clock, l.reading + 1);
      Later(clock, l.reading + 2);
      RoundKeepsSchedule(l, clock(0), clock, interval);
    }
  }

  lemma Later(clock: nat -> int, i: nat)
    requires Monotone(clock)
    ensures clock(i) <= clock(i + 1)
  {
  }

  /** Over any number of rounds: tick `k` starts no earlier than `k` intervals after the loop did, delays
      never cause a burst, and the time left at a wait is at most one interval. */
  lemma RateBound(n: nat, clock: nat -> int, interval: int)
    requires Monotone(clock) && interval >= 0
    ensures var l := Rounds(n, clock, interval);
      RateBounded(l.starts, clock(0), interval) && NoBurst(l.starts, interval) && WaitsBounded(l.waits, interval)
  {
    RoundsOnSchedule(n, clock, interval);
  }

  /** The schedule does not drift: as long as no tick stalls, the next one is due a whole number of intervals
      after the start. */
  lemma {:induction false} NoDrift(n: nat, clock: nat -> int, interval: int)
    requires forall k: nat :: k < n ==> !Stalls(Rounds(k, clock, interval), clock, interval)
    ensures var l := Rounds(n, clock, interval); l.next == clock(0) + Span(|l.starts|, interval)
  {
    if n > 0 {
      NoDrift(n - 1, clock, interval);
      var l := Rounds(n - 1, clock, interval);
      assert Span(|l.starts| + 1, interval) == Span(|l.starts|, interval) + interval;
    }
  }

  /** A stall resets the schedule: the next round ticks at once. */
  lemma StallCatchesUp(n: nat, clock: nat -> int, interval: int)
    requires Monotone(clock) && Stalls(Rounds(n, clock, interval), clock, interval)
    ensures |Rounds(n + 1, clock, interval).starts| == |Rounds(n, clock, interval).starts| + 1
    ensures |Rounds(n + 2, clock, interval).starts| == |Rounds(n, clock, interval).starts| + 2
  {
    hide Rounds;
    var l := Rounds(n, clock, interval);
    NextRound(n, clock, interval);
    NextRound(n + 1, clock, interval);
    Later(clock, l.reading + 3);
  }

  /** From a stall on, the schedule does not drift either: the next tick is due a whole number of intervals after
      the reading that ended the stall. */
  lemma {:induction false} NoDriftSince(m: nat, n: nat, clock: nat -> int, interval: int)
    requires m < n && Stalls(Rounds(m, clock, interval), clock, interval)
    requires forall k: nat :: m < k < n ==> !Stalls(Rounds(k, clock, interval), clock, interval)
    ensures var l, since := Rounds(n, clock, interval), Rounds(m + 1, clock, interval);
      && |since.starts| <= |l.starts|
      && l.next == clock(since.reading) + Span(|l.starts| - |since.starts|, interval)
    decreases n
  {
    hide Rounds;
    if n == m + 1 {
      NextRound(m, clock, interval);
    } else {
      NoDriftSince(m, n - 1, clock, interval);
      NextRound(n - 1, clock, interval);
      var l, since := Rounds(n - 1, clock, interval), Rounds(m + 1, clock, interval);
      assert Span(|l.starts| + 1 - |since.starts|, interval) == Span(|l.starts| - |since.starts|, interval) + interval;
    }
  }

  /** A round either ticks or waits; it waits only while the next tick is not due, and exactly for the time that is
      left. */
  lemma RoundWaits(n: nat, clock: nat -> int, interval: int)
    ensures var l, l' := Rounds(n, clock, interval), Rounds(n + 1, clock, interval);
      if clock(l.reading + 1) < l.next
      then l'.starts == l.starts && l'.next == l.next && |l'.waits| == |l.waits| + 1
           && clock(l'.reading) + l'.waits[|l.waits|] == l.next
      else l'.waits == l.waits && l'.starts == l.starts + [clock(l.reading + 1)]
  {
    hide Rounds;
    NextRound(n, clock, interval);
  }

  // ---- the length of a wait ----

  lemma MsBound(remaining: int, interval: int)
    requires 1 <= interval <= 86400 && remaining <= interval * NS_PER_SECOND
    ensures ToMs(remaining) <= 1000 * interval < 0x8000_0000
  {
  }

  /** For a validated interval, the number of milliseconds is passed on unchanged exactly when the loop is
      at most 2^31 ms late. */
  lemma WaitIsExact(remaining: int, interval: int)
    requires 1 <= interval <= 86400 && remaining <= interval * NS_PER_SECOND
    ensures WaitMs(remaining) == ToMs(remaining) <==> -ToMs(remaining) <= 0x8000_0000
  {
    MsBound(remaining, interval);
  }

  /** How late the loop is, in milliseconds modulo 2^32, when the narrowed wait exceeds one interval. */
  predicate InWindow(remaining: int, interval: int) {
    0x8000_0000 < -ToMs(remaining) % 0x1_0000_0000 < 0x1_0000_0000 - 1000 * interval
  }

  /** A wait is at most one interval, except in one window of lateness (modulo 2^32 ms): when the process
      was held up between its two clock readings for more than 2^31 ms and less than 2^32 ms minus the
      interval, the narrowed number comes out as a longer wait. */
  lemma WaitBound(remaining: int, interval: int)
    requires 1 <= interval <= 86400 && remaining <= interval * NS_PER_SECOND
    ensures WaitMs(remaining) <= 1000 * interval <==> !InWindow(remaining, interval)
  {
    MsBound(remaining, interval);
    var late := -ToMs(remaining);
    var m := late % 0x1_0000_0000;
    assert (0x8000_0000 - late) % 0x1_0000_0000 == (0x8000_0000 - m) % 0x1_0000_0000;
  }

  /** Every wait of every run under an accepted configuration. */
  lemma RunWaits(n: nat, clock: nat -> int, cfg: Config, k: nat)
    requires Monotone(clock) && Sane(cfg)
    ensures var waits := Rounds(n, clock, cfg.intervalSeconds * NS_PER_SECOND).waits;
      k < |waits| ==>
        && (WaitMs(waits[k]) <= 1000 * cfg.intervalSeconds <==> !InWindow(waits[k], cfg.intervalSeconds))
        && (waits[k] >= 0 ==> 0 <= WaitMs(waits[k]) == waits[k] / NS_PER_MS <= 1000 * cfg.intervalSeconds)
  {
    hide Rounds, Monotone, InWindow;
    var interval := cfg.intervalSeconds;
    RateBound(n, clock, interval * NS_PER_SECOND);
    var waits := Rounds(n, clock, interval * NS_PER_SECOND).waits;
    if k < |waits| {
      WaitBound(waits[k], interval);
      WaitIsExact(waits[k], interval);
      MsBound(waits[k], interval);
    }
  }

  /** A clock that jumps once, between the reading that finds the second tick not due and the reading that the
      wait is computed from, to just over 2^31 ms past the time the tick was due. */
  function LateClock(i: nat): int { if i < 4 then 0 else NS_PER_SECOND + 0x8000_0001 * NS_PER_MS }

  /** The window is reachable: under that clock and an interval of one second the loop ticks once, and then asks
      for the longest possible wait. */
  lemma LongWaitExample()
    ensures Monotone(LateClock)
    ensures var l := Rounds(2, LateClock, NS_PER_SECOND);
      l.starts == [0] && |l.waits| == 1 && WaitMs(l.waits[0]) == 0x7FFF_FFFF && InWindow(l.waits[0], 1)
  {
    var l0 := Loop(0, 0, [], []);
    assert Rounds(0, LateClock, NS_PER_SECOND) == l0;
    var l1 := Loop(NS_PER_SECOND, 2, [0], []);
    assert Rounds(1, LateClock, NS_PER_SECOND) == l1;
    assert Rounds(2, LateClock, NS_PER_SECOND).waits == [-0x8000_0001 * NS_PER_MS];
  }
}
