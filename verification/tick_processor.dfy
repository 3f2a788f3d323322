/**
 * One tick of the current platformer server (`engine/TickProcessor.java`):
 * the clock, the fall of the platforms, the movement and scoring of the
 * players, the ping sent to clients and the platform-spawn decision.
 *
 * The Java method mutates the players in place and returns the new platform
 * list and the players to remove; here it returns the response together with
 * the updated store. Removal itself, and storing the new platforms, are left
 * to the caller as in the source.
 */
module TickProcessor {
  import opened Common
  import opened Bounds
  import opened Platforms
  import opened PlayerStores
  import opened GameStores

  const SCORE_PER_SECOND := 5
  const MIN_PLATFORM_SPACING := 100
  const MAX_PLATFORM_SPACING := 350

  /** One chance in this many of spawning a platform when spacing leaves the choice open. */
  const SPAWN_PROBABILITY := TICKS_PER_SECOND / 2

  /** The removal list is built in hash-map order, so it is modelled as a set. */
  datatype TickResponse = TickResponse(
    isUpdateNeeded: bool,
    nextPlatformsState: seq<Platform>,
    playersToRemove: set<string>)

  /** `addOneSecond`: age grows by one; every PLATFORM_SPEEDUP_INTERVAL seconds the platforms speed up. */
  function AddOneSecond(s: GameStore): (r: GameStore)
    ensures r.gameAgeSeconds == s.gameAgeSeconds + 1
    ensures r.gameAgeSeconds % PLATFORM_SPEEDUP_INTERVAL == 0 ==> r.platformGravity == s.platformGravity + LEVELUP_PLATFORM_GRAVITY
    ensures r.gameAgeSeconds % PLATFORM_SPEEDUP_INTERVAL != 0 ==> r.platformGravity == s.platformGravity
    ensures r == s.(gameAgeSeconds := r.gameAgeSeconds, platformGravity := r.platformGravity)
  {
    var newAge := s.gameAgeSeconds + 1;
    var aged := s.(gameAgeSeconds := newAge);
    if JavaRem(newAge, PLATFORM_SPEEDUP_INTERVAL) == 0 then
      aged.(platformGravity := s.platformGravity + LEVELUP_PLATFORM_GRAVITY)
    else aged
  }

  /** The time-keeping part of a tick. */
  function AdvanceClock(s: GameStore): (r: GameStore)
    ensures s.tickCount >= -1 ==> r.tickCount == (s.tickCount + 1) % TICKS_PER_SECOND
    ensures r.tickCount == 0 ==> r == AddOneSecond(s.(tickCount := 0))
    ensures r.tickCount != 0 ==> r == s.(tickCount := r.tickCount)
  {
    var next := JavaRem(s.tickCount + 1, TICKS_PER_SECOND);
    var ticked := s.(tickCount := next);
    if next == 0 then AddOneSecond(ticked) else ticked
  }

  lemma SecondBoundary(a: int)
    requires a >= 0
    ensures (a + 1) % PLATFORM_SPEEDUP_INTERVAL == 0 ==>
      (a + 1) / PLATFORM_SPEEDUP_INTERVAL == a / PLATFORM_SPEEDUP_INTERVAL + 1
    ensures (a + 1) % PLATFORM_SPEEDUP_INTERVAL != 0 ==>
      (a + 1) / PLATFORM_SPEEDUP_INTERVAL == a / PLATFORM_SPEEDUP_INTERVAL
  {
  }

  /** A tick keeps the clock invariant. */
  lemma AdvanceClockKeepsValid(s: GameStore)
    requires ValidClock(s)
    ensures ValidClock(AdvanceClock(s))
  {
    SecondBoundary(s.gameAgeSeconds);
  }

  /** The clock after `n` ticks. */
  function AdvanceClockTimes(s: GameStore, n: nat): GameStore
  {
    if n == 0 then s else AdvanceClock(AdvanceClockTimes(s, n - 1))
  }

  lemma TickBoundary(m: int)
    requires m >= 0
    ensures (m % TICKS_PER_SECOND + 1) % TICKS_PER_SECOND == (m + 1) % TICKS_PER_SECOND
    ensures (m + 1) % TICKS_PER_SECOND == 0 ==> (m + 1) / TICKS_PER_SECOND == m / TICKS_PER_SECOND + 1
    ensures (m + 1) % TICKS_PER_SECOND != 0 ==> (m + 1) / TICKS_PER_SECOND == m / TICKS_PER_SECOND
  {
  }

  /**
   * Starting from a fresh store, after `n` ticks the tick counter is `n`
   * modulo the ticks per second and the age is the number of completed
   * seconds; the gravity follows from the clock invariant.
   */
  lemma {:induction false} ClockAfterTicks(n: nat)
    ensures var c := AdvanceClockTimes(NewGameStore(), n);
      && c.tickCount == n % TICKS_PER_SECOND
      && c.gameAgeSeconds == n / TICKS_PER_SECOND
      && c.platformGravity == INIT_PLATFORM_GRAVITY
           + LEVELUP_PLATFORM_GRAVITY * (n / TICKS_PER_SECOND / PLATFORM_SPEEDUP_INTERVAL)
  {
    ClockAfterTicksValid(n);
    if n > 0 {
      ClockAfterTicks(n - 1);
      TickBoundary(n - 1);
    }
  }

  lemma {:induction false} ClockAfterTicksValid(n: nat)
    ensures ValidClock(AdvanceClockTimes(NewGameStore(), n))
  {
    if n == 0 {
      NewGameStoreIsValid();
    } else {
      ClockAfterTicksValid(n - 1);
      AdvanceClockKeepsValid(AdvanceClockTimes(NewGameStore(), n - 1));
    }
  }

  /** A player that ends a tick at or below this line has fallen to the ground and loses. */
  predicate OnGround(p: PlayerStore)
  {
    p.y >= HEIGHT - PLAYER_HEIGHT
  }

  /** The per-player part of a tick: move, clear hasChanged, score if a second passed and still alive. */
  function TickPlayer(p: PlayerStore, platforms: seq<Platform>, gravity: int, isNewSecond: bool): (q: PlayerStore)
    requires forall pl :: pl in platforms ==> pl.y <= HEIGHT
    ensures !q.hasChanged
    ensures q.name == p.name && q.color == p.color
    ensures q.x == Saturate(p.x + p.xVelocity, 0, MAX_PLAYER_X)
    ensures q.y <= MAX_PLAYER_Y
    ensures OnGround(q) <==> q.y == MAX_PLAYER_Y
    ensures q.score == p.score + (if !OnGround(q) && isNewSecond then SCORE_PER_SECOND else 0)
    ensures q == MoveToNextTick(p, platforms, gravity).(hasChanged := false, score := q.score)
  {
    var moved := MoveToNextTick(p, platforms, gravity).(hasChanged := false);
    if OnGround(moved) then moved
    else if isNewSecond then AddToScore(moved, SCORE_PER_SECOND)
    else moved
  }

  /** `advanceToNextTick(store)`. */
  function AdvanceToNextTick(s: GameStore): (r: (TickResponse, GameStore))
    ensures r.0.isUpdateNeeded
    ensures r.1 == AdvanceClock(s).(players := r.1.players)
    ensures r.0.nextPlatformsState == MoveAndCull(s.platforms, r.1.platformGravity)
    ensures r.1.players.Keys == s.players.Keys
    ensures forall k :: k in r.1.players ==>
      var p, q := s.players[k], r.1.players[k];
      && !q.hasChanged
      && q.name == p.name && q.color == p.color
      && q.x == Saturate(p.x + p.xVelocity, 0, MAX_PLAYER_X)
      && q.y <= MAX_PLAYER_Y
      && q.score == p.score + (if k !in r.0.playersToRemove && r.1.tickCount == 0 then SCORE_PER_SECOND else 0)
    ensures forall k :: k in r.0.playersToRemove <==> k in s.players && r.1.players[k].y == MAX_PLAYER_Y
    ensures forall k :: k in s.players ==>
      r.1.players[k] == TickPlayer(s.players[k], r.0.nextPlatformsState, r.1.platformGravity, r.1.tickCount == 0)
  {
    var c := AdvanceClock(s);
    var next := MoveAndCull(s.platforms, c.platformGravity);
    var isNewSecond := c.tickCount == 0;
    var players := map k | k in s.players :: TickPlayer(s.players[k], next, c.platformGravity, isNewSecond);
    var remove := set k | k in players && OnGround(players[k]);
    (TickResponse(true, next, remove), c.(players := players))
  }

  /** Every tick keeps the clock invariant and leaves the stored platform list for the caller to replace. */
  lemma AdvanceToNextTickKeepsValid(s: GameStore)
    requires ValidClock(s)
    ensures ValidClock(AdvanceToNextTick(s).1)
    ensures AdvanceToNextTick(s).1.platforms == s.platforms
  {
    AdvanceClockKeepsValid(s);
  }

  /** What a ping tells clients about a player. */
  datatype PingPlayer = PingPlayer(color: string, name: string, score: int, x: int, y: int)

  datatype PingPlatform = PingPlatform(width: int, x: int, y: int)

  datatype GamePing = GamePing(serverAge: int, players: seq<PingPlayer>, platforms: seq<PingPlatform>)

  /** The per-player message of a ping: identity, score and position. */
  function ToPingPlayer(p: PlayerStore): (pp: PingPlayer)
    ensures pp.color == p.color && pp.name == p.name && pp.score == p.score
    ensures pp.x == p.x && pp.y == p.y
  {
    PingPlayer(p.color, p.name, p.score, p.x, p.y)
  }

  /** Clients see two players alike exactly when they agree on everything but velocity and the change flag. */
  lemma PingIgnoresOnlyMotionState(p: PlayerStore, q: PlayerStore)
    ensures ToPingPlayer(p) == ToPingPlayer(q) <==>
      p.(xVelocity := 0, yVelocity := 0, hasChanged := false) == q.(xVelocity := 0, yVelocity := 0, hasChanged := false)
  {
  }

  /**
   * `createGamePing(store)`. The players come out in hash-map order, which is
   * the parameter `order`: an enumeration of the player keys.
   */
  function CreateGamePing(s: GameStore, order: seq<string>): (ping: GamePing)
    requires |order| == |s.players|
    requires forall k :: k in order <==> k in s.players
    ensures ping.serverAge == s.gameAgeSeconds
    ensures |ping.players| == |s.players|
    ensures forall k :: k in s.players ==> ToPingPlayer(s.players[k]) in ping.players
    ensures forall i :: 0 <= i < |ping.players| ==> exists k :: k in s.players && ping.players[i] == ToPingPlayer(s.players[k])
    ensures |ping.platforms| == |s.platforms|
    ensures forall i :: 0 <= i < |s.platforms| ==>
      ping.platforms[i] == PingPlatform(s.platforms[i].width, s.platforms[i].x, s.platforms[i].y)
  {
    var players := seq(|order|, i requires 0 <= i < |order| => ToPingPlayer(s.players[order[i]]));
    assert forall k :: k in s.players ==> exists i :: 0 <= i < |order| && order[i] == k && players[i] == ToPingPlayer(s.players[k]);
    var platforms := seq(|s.platforms|, i requires 0 <= i < |s.platforms| =>
      PingPlatform(s.platforms[i].width, s.platforms[i].x, s.platforms[i].y));
    GamePing(s.gameAgeSeconds, players, platforms)
  }

  /** The highest platform's y (smallest value), or 0 when there are none. */
  function SmallestY(ps: seq<Platform>): (m: int)
    ensures |ps| == 0 ==> m == 0
    ensures |ps| > 0 ==> (exists i :: 0 <= i < |ps| && ps[i].y == m) && forall i :: 0 <= i < |ps| ==> m <= ps[i].y
  {
    if |ps| == 0 then 0
    else if |ps| == 1 then ps[0].y
    else
      var rest := SmallestY(ps[1..]);
      assert forall i :: 1 <= i < |ps| ==> ps[i] == ps[1..][i - 1];
      if ps[0].y <= rest then ps[0].y else rest
  }

  /**
   * `shouldSpawnPlatform(platforms)`; `draw` is `RandomUtil.getPositiveInt()`.
   * Never spawn while some platform is within MIN_PLATFORM_SPACING of the top
   * (or when there are no platforms at all); always spawn once every platform
   * is more than MAX_PLATFORM_SPACING below it; otherwise one chance in
   * SPAWN_PROBABILITY.
   */
  function ShouldSpawnPlatform(ps: seq<Platform>, draw: nat): (r: bool)
    ensures |ps| == 0 ==> !r
    ensures (exists i :: 0 <= i < |ps| && ps[i].y < MIN_PLATFORM_SPACING) ==> !r
    ensures |ps| > 0 && (forall i :: 0 <= i < |ps| ==> ps[i].y > MAX_PLATFORM_SPACING) ==> r
    ensures && (forall i :: 0 <= i < |ps| ==> ps[i].y >= MIN_PLATFORM_SPACING)
            && (exists i :: 0 <= i < |ps| && ps[i].y <= MAX_PLATFORM_SPACING)
      ==> (r <==> draw % SPAWN_PROBABILITY == 0)
  {
    var smallestY := SmallestY(ps);
    if smallestY < MIN_PLATFORM_SPACING then false
    else if smallestY > MAX_PLATFORM_SPACING then true
    else draw % SPAWN_PROBABILITY == 0
  }
}
