/**
 * The game loop of the legacy TypeScript server
 * (`legacy-ts-server/src/game/gameLoop.ts`).
 *
 * `TICKS_PER_SECOND` is `1000 / TICK_DELAY_MS` in floating point, so it need
 * not be whole; the tick delay and the time limit come from a constants file
 * that is not part of this model and are parameters. The loop is modelled
 * as run without interruption: the asynchronous sleep between ticks and
 * handlers running during it are left out, so the loop ends only at the
 * time limit. Broadcasts are recorded in a log, in order.
 */
module GameLoop {
  import opened Common
  import opened TsPlayers
  import opened TsRepository

  const TIME_LIMIT_REASON := "Time Limit Reached"

  /** `TICKS_PER_SECOND`, exactly. */
  function TicksPerSecond(delay: nat): real
    requires delay > 0
  {
    1000.0 / (delay as real)
  }

  /** `count >= TICKS_PER_SECOND`, the test of both the age increment and the counter reset. */
  predicate ReachesSecond(count: int, delay: nat)
    requires delay > 0
  {
    count as real >= TicksPerSecond(delay)
  }

  /** The number of ticks in one game second: 1000 / delay rounded up. */
  function Period(delay: nat): (p: nat)
    requires delay > 0
    ensures p >= 1
  {
    (999 + delay) / delay
  }

  lemma ReachesSecondIff(count: int, delay: nat)
    requires delay > 0
    ensures ReachesSecond(count, delay) <==> count * delay >= 1000
  {
    var d := delay as real;
    assert TicksPerSecond(delay) * d == 1000.0;
    assert (count * delay) as real == (count as real) * d;
    if count as real >= TicksPerSecond(delay) {
      assert (count as real) * d >= TicksPerSecond(delay) * d;
    } else {
      assert (count as real) * d < TicksPerSecond(delay) * d;
    }
  }

  /** A count reaches a second exactly when it is at least the period. */
  lemma ReachesSecondAtPeriod(count: int, delay: nat)
    requires delay > 0
    ensures ReachesSecond(count, delay) <==> count >= Period(delay)
  {
    ReachesSecondIff(count, delay);
    var p, m := Period(delay), (999 + delay) % delay;
    assert 999 + delay == p * delay + m;
    assert p * delay >= 1000;
    assert (p - 1) * delay < 1000;
    if count >= p {
      assert count * delay - p * delay == (count - p) * delay;
    } else {
      assert (p - 1) * delay - count * delay == (p - 1 - count) * delay;
    }
  }

  /** When the delay divides a second, the period is the plain quotient. */
  lemma PeriodWhenDelayDivides(delay: nat)
    requires delay > 0 && 1000 % delay == 0
    ensures Period(delay) == 1000 / delay
  {
    var q := 1000 / delay;
    assert 999 + delay == q * delay + (delay - 1);
    ModUnique(999 + delay, delay, q, delay - 1);
  }

  /**
   * `nextGameTick`: a second passes when the counter is about to reach
   * TICKS_PER_SECOND; every player moves once; an update is always needed.
   */
  function NextGameTick(r: Repo, tickCount: int, delay: nat, a: Arena): (res: (bool, Repo))
    requires delay > 0
    ensures res.0
    ensures res.1.age == if ReachesSecond(tickCount + 1, delay) then r.age + 1 else r.age
    ensures res.1 == MoveAll(r, a).(age := res.1.age)
  {
    var aged := if ReachesSecond(tickCount + 1, delay) then r.(age := r.age + 1) else r;
    (true, MoveAll(aged, a))
  }

  /** The repository after `n` rounds of movement. */
  function MoveTimes(r: Repo, a: Arena, n: nat): (r': Repo)
    ensures r'.age == r.age && r'.isRunning == r.isRunning
    ensures |r'.entries| == |r.entries|
    ensures forall i :: 0 <= i < |r.entries| ==> r'.entries[i].0 == r.entries[i].0
  {
    if n == 0 then r else MoveAll(MoveTimes(r, a, n - 1), a)
  }

  /** Players that start inside the arena are inside it after any number of ticks. */
  predicate AllInside(r: Repo, a: Arena)
  {
    forall i :: 0 <= i < |r.entries| ==> InsideArena(r.entries[i].1, a)
  }

  lemma {:induction false} MoveTimesKeepsInside(r: Repo, a: Arena, n: nat)
    requires AllInside(r, a)
    ensures AllInside(MoveTimes(r, a, n), a)
  {
    if n > 0 {
      MoveTimesKeepsInside(r, a, n - 1);
    }
  }

  /** The game as the loop leaves it after `n` ticks from a fresh start. */
  function StateAfter(r0: Repo, a: Arena, delay: nat, n: nat): (r: Repo)
    requires delay > 0
    ensures r.isRunning && r.age == n / Period(delay)
  {
    MoveTimes(r0, a, n).(age := n / Period(delay), isRunning := true)
  }

  lemma ClockStep(m: nat, p: nat)
    requires p > 0
    ensures m % p + 1 == p ==> (m + 1) % p == 0 && (m + 1) / p == m / p + 1
    ensures m % p + 1 < p ==> (m + 1) % p == m % p + 1 && (m + 1) / p == m / p
  {
    var q, c := m / p, m % p;
    assert m == q * p + c;
    if c + 1 == p {
      ModUnique(m + 1, p, q + 1, 0);
    } else {
      ModUnique(m + 1, p, q, c + 1);
    }
  }

  /** The age stays below the limit exactly while fewer than `limit` periods of ticks have run. */
  lemma BelowLimit(ticks: nat, limit: int, p: nat)
    requires p > 0
    ensures ticks / p < limit <==> limit > 0 && ticks < limit * p
  {
    if limit > 0 {
      ModUnique(limit * p, p, limit, 0);
      if ticks >= limit * p {
        DivMonotone(limit * p, ticks, p);
      } else {
        DivMonotone(ticks, limit * p - 1, p);
        ClockStep(limit * p - 1, p);
      }
    }
  }

  /**
   * One pass of the loop body from the state after `ticks` ticks: the tick
   * yields the state after `ticks + 1`, and the counter is reset exactly on
   * a second boundary.
   */
  lemma LoopStep(r0: Repo, a: Arena, delay: nat, ticks: nat)
    requires delay > 0
    ensures var p := Period(delay);
      && NextGameTick(StateAfter(r0, a, delay, ticks), ticks % p, delay, a).1 == StateAfter(r0, a, delay, ticks + 1)
      && (ReachesSecond(ticks % p + 1, delay) <==> (ticks + 1) % p == 0)
      && (!ReachesSecond(ticks % p + 1, delay) ==> (ticks + 1) % p == ticks % p + 1)
  {
    var p := Period(delay);
    ClockStep(ticks, p);
    ReachesSecondAtPeriod(ticks % p + 1, delay);
  }

  /**
   * `runGameLoop`: starting at age 0, the loop ticks until the age reaches
   * the time limit, broadcasting an update after every tick, then stops the
   * game and broadcasts the game-over message. The loop makes exactly
   * `limit` game seconds of ticks.
   */
  method RunGameLoop(r0: Repo, limit: int, delay: nat, a: Arena) returns (r: Repo, log: seq<Outbound>, ticks: nat)
    requires delay > 0
    ensures ticks == if limit > 0 then limit * Period(delay) else 0
    ensures !r.isRunning && r.age == ticks / Period(delay)
    ensures limit > 0 ==> r.age == limit
    ensures r == MoveTimes(r0, a, ticks).(age := r.age, isRunning := false)
    ensures |log| == ticks + 1 && log[ticks] == GameOverUpdate(TIME_LIMIT_REASON)
    ensures forall i :: 0 <= i < ticks ==> log[i] == GetUpdate(StateAfter(r0, a, delay, i + 1))
  {
    var p := Period(delay);
    var bound := if limit > 0 then limit * p else 0;
    var tickCount := 0;
    r := r0.(age := 0, isRunning := true);
    log := [];
    ticks := 0;
    BelowLimit(ticks, limit, p);
    while r.isRunning && r.age < limit
      invariant r == StateAfter(r0, a, delay, ticks)
      invariant tickCount == ticks % p
      invariant ticks <= bound
      invariant r.age < limit <==> ticks < bound
      invariant |log| == ticks
      invariant forall i :: 0 <= i < ticks ==> log[i] == GetUpdate(StateAfter(r0, a, delay, i + 1))
      decreases bound - ticks
    {
      LoopStep(r0, a, delay, ticks);
      var (isUpdateNeeded, next) := NextGameTick(r, tickCount, delay, a);
      r := next;
      if isUpdateNeeded {
        log := log + [GetUpdate(r)];
      }
      tickCount := tickCount + 1;
      if ReachesSecond(tickCount, delay) {
        tickCount := 0;
      }
      ticks := ticks + 1;
      BelowLimit(ticks, limit, p);
    }
    if limit > 0 {
      ModUnique(limit * p, p, limit, 0);
    }
    r := r.(isRunning := false);
    log := log + [GameOverUpdate(TIME_LIMIT_REASON)];
  }

  lemma DivMonotone(x: nat, y: nat, p: nat)
    requires p > 0 && x <= y
    ensures x / p <= y / p
  {
    var qx, qy := x / p, y / p;
    assert x == qx * p + x % p && y == qy * p + y % p;
    if qx > qy {
      MulAtLeast(qx - qy, p);
    }
  }
}
