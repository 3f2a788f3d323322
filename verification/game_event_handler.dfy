/**
 * One tick of the first platformer server generation
 * (`game/GameEventHandler.java`): platforms fall by the fixed platform
 * gravity, players move with the first generation's physics, players that
 * reach the ground are removed from the collection, the others score once a
 * second.
 *
 * Its `spawnInitPlatforms` and `shouldSpawnPlatform` are the same procedures
 * as the current generation's and are modelled once, by
 * `Platforms.SpawnInitPlatforms` and `TickProcessor.ShouldSpawnPlatform`.
 */
module GameEventHandler {
  import opened Common
  import opened Platforms
  import opened PlayerStores
  import LegacyPlayers
  import TickProcessor
  import GameStores

  datatype LegacyTickResponse = LegacyTickResponse(
    isUpdateNeeded: bool,
    nextPlatformsState: seq<Platform>,
    nextTickCount: int)

  /** The per-player step: move, clear hasChanged, score if a second passed. */
  function Step(p: PlayerStore, platforms: seq<Platform>, isNewSecond: bool): (q: PlayerStore)
    ensures !q.hasChanged
    ensures q == LegacyPlayers.MoveToNextTick(p, platforms).(hasChanged := false, score := q.score)
    ensures q.score == p.score + (if !TickProcessor.OnGround(q) && isNewSecond then TickProcessor.SCORE_PER_SECOND else 0)
  {
    var moved := LegacyPlayers.MoveToNextTick(p, platforms).(hasChanged := false);
    if !TickProcessor.OnGround(moved) && isNewSecond then
      AddToScore(moved, TickProcessor.SCORE_PER_SECOND)
    else moved
  }

  /**
   * The player loop: every player is moved, in collection order, and those on
   * the ground afterwards are removed. The survivors are exactly the moved
   * players still above the ground, in their original order.
   */
  function Survivors(ps: seq<PlayerStore>, platforms: seq<Platform>, isNewSecond: bool): (r: seq<PlayerStore>)
    ensures |r| <= |ps|
    ensures forall q :: q in r ==> !TickProcessor.OnGround(q) && !q.hasChanged
    ensures forall q :: q in r ==> exists p :: p in ps && q == Step(p, platforms, isNewSecond)
    ensures forall p :: p in ps && !TickProcessor.OnGround(Step(p, platforms, isNewSecond)) ==>
      Step(p, platforms, isNewSecond) in r
  {
    if |ps| == 0 then []
    else
      var q := Step(ps[0], platforms, isNewSecond);
      var rest := Survivors(ps[1..], platforms, isNewSecond);
      assert forall p :: p in ps[1..] ==> p in ps;
      assert forall p :: p in ps ==> p == ps[0] || p in ps[1..];
      if TickProcessor.OnGround(q) then rest else [q] + rest
  }

  /** The survivors of a concatenation are the concatenated survivors: order is kept. */
  lemma {:induction false} SurvivorsKeepOrder(a: seq<PlayerStore>, b: seq<PlayerStore>, platforms: seq<Platform>, isNewSecond: bool)
    ensures Survivors(a + b, platforms, isNewSecond) == Survivors(a, platforms, isNewSecond) + Survivors(b, platforms, isNewSecond)
    decreases |a|
  {
    if |a| == 0 {
      assert a + b == b;
    } else {
      assert (a + b)[1..] == a[1..] + b;
      SurvivorsKeepOrder(a[1..], b, platforms, isNewSecond);
    }
  }

  /**
   * `advanceToNextTick(players, platforms, tickCount)`: the response, and the
   * player collection as the method leaves it.
   */
  function AdvanceToNextTick(players: seq<PlayerStore>, platforms: seq<Platform>, tickCount: int): (r: (LegacyTickResponse, seq<PlayerStore>))
    ensures r.0.isUpdateNeeded
    ensures tickCount >= -1 ==> r.0.nextTickCount == (tickCount + 1) % GameStores.TICKS_PER_SECOND
    ensures r.0.nextPlatformsState == MoveAndCull(platforms, PLATFORM_GRAVITY)
    ensures r.1 == Survivors(players, r.0.nextPlatformsState, r.0.nextTickCount == 0)
    ensures forall q :: q in r.1 ==> q.y < MAX_PLAYER_Y
  {
    var next := JavaRem(tickCount + 1, GameStores.TICKS_PER_SECOND);
    var nextPlatforms := MoveAndCull(platforms, PLATFORM_GRAVITY);
    (LegacyTickResponse(true, nextPlatforms, next), Survivors(players, nextPlatforms, next == 0))
  }

  /** A surviving player's score grows by SCORE_PER_SECOND exactly on second boundaries. */
  lemma SurvivorScore(p: PlayerStore, platforms: seq<Platform>, isNewSecond: bool)
    requires !TickProcessor.OnGround(Step(p, platforms, isNewSecond))
    ensures Step(p, platforms, isNewSecond).score == p.score + (if isNewSecond then TickProcessor.SCORE_PER_SECOND else 0)
    ensures Step(p, platforms, isNewSecond).name == p.name
  {
  }
}
