/**
 * The player of the first platformer server generation
 * (`players/Player.java`). It shares the record and the horizontal half of
 * the step with `PlayerStores`, but the floor of the vertical clamp is 0,
 * collisions are detected by touching only, and a landed player moves with
 * the fixed platform gravity.
 */
module LegacyPlayers {
  import opened Bounds
  import opened Platforms
  import opened PlayerStores

  /** The record sent to clients. */
  datatype PlayerState = PlayerState(name: string, color: string, x: int, y: int, score: int)

  /** `createRandomPlayer`: positions are multiples of the player size anywhere in the arena. */
  function CreateRandomPlayer(name: string, color: string, xCell: int, yCell: int): (p: PlayerStore)
    requires HexColor(color)
    requires 0 <= xCell < WIDTH / PLAYER_WIDTH
    requires 0 <= yCell < HEIGHT / PLAYER_HEIGHT
    ensures p.x % PLAYER_WIDTH == 0 && p.y % PLAYER_HEIGHT == 0
    ensures 0 <= p.x <= MAX_PLAYER_X && 0 <= p.y <= MAX_PLAYER_Y
    ensures p.xVelocity == 0 && p.yVelocity == 0 && p.score == 0 && p.hasChanged
    ensures p.name == name && p.color == color
  {
    PlayerStore(color, name, xCell * PLAYER_WIDTH, yCell * PLAYER_HEIGHT, 0, 0, 0, true)
  }

  /** Every cell-aligned in-arena position is a possible spawn. */
  lemma CreateRandomPlayerCoversCells(name: string, color: string, x: int, y: int)
    requires HexColor(color)
    requires x % PLAYER_WIDTH == 0 && y % PLAYER_HEIGHT == 0
    requires 0 <= x <= MAX_PLAYER_X && 0 <= y <= MAX_PLAYER_Y
    ensures 0 <= x / PLAYER_WIDTH < WIDTH / PLAYER_WIDTH
    ensures 0 <= y / PLAYER_HEIGHT < HEIGHT / PLAYER_HEIGHT
    ensures CreateRandomPlayer(name, color, x / PLAYER_WIDTH, y / PLAYER_HEIGHT).x == x
    ensures CreateRandomPlayer(name, color, x / PLAYER_WIDTH, y / PLAYER_HEIGHT).y == y
  {
  }

  /** The legacy landing test: still falling and touching the platform. */
  predicate TouchesWhileFalling(p: PlayerStore, pl: Platform)
  {
    IsTouchingPlatform(p, pl) && p.yVelocity > 0
  }

  /**
   * The legacy collision loop: touching alone triggers a landing. A player
   * that touches some platform while falling ends standing on one of them
   * with the fixed platform gravity; one that touches none is left as it is.
   */
  function LandAllTouching(p: PlayerStore, pls: seq<Platform>): (q: PlayerStore)
    ensures q == p.(y := q.y, yVelocity := q.yVelocity)
    ensures q == p || (q.yVelocity == PLATFORM_GRAVITY && exists pl :: pl in pls && q.y == pl.y - PLAYER_HEIGHT)
    ensures (exists pl :: pl in pls && TouchesWhileFalling(p, pl)) ==>
      q.yVelocity == PLATFORM_GRAVITY && exists pl :: pl in pls && q.y == pl.y - PLAYER_HEIGHT
    ensures (forall pl :: pl in pls ==> !TouchesWhileFalling(p, pl)) ==> q == p
    decreases |pls|
  {
    if |pls| == 0 then p
    else
      var pl := pls[0];
      var landed := if TouchesWhileFalling(p, pl)
        then p.(y := pl.y - PLAYER_HEIGHT, yVelocity := PLATFORM_GRAVITY)
        else p;
      assert forall q :: q in pls <==> q == pls[0] || q in pls[1..];
      LandAllTouching(landed, pls[1..])
  }

  /** The first generation's player after the horizontal clamp and the fall, floor 0. */
  function Fallen(p: PlayerStore): (f: PlayerStore)
    ensures f.x == Saturate(p.x + p.xVelocity, 0, MAX_PLAYER_X)
    ensures f.y == FallTarget(p, 0) && 0 <= f.y <= MAX_PLAYER_Y
  {
    FallY(ClampX(p), 0)
  }

  /** `moveToNextTick(platforms)` of the first generation. */
  function MoveToNextTick(p: PlayerStore, pls: seq<Platform>): (q: PlayerStore)
    ensures 0 <= q.x <= MAX_PLAYER_X
    ensures q.x == Saturate(p.x + p.xVelocity, 0, MAX_PLAYER_X)
    ensures q.xVelocity == if 0 <= p.x + p.xVelocity <= MAX_PLAYER_X then p.xVelocity else 0
    ensures q.hasChanged == (p.hasChanged || q.x != p.x || FallTarget(p, 0) != p.y)
    ensures q.score == p.score && q.name == p.name && q.color == p.color
    ensures || (q.y == FallTarget(p, 0) && 0 <= q.y <= MAX_PLAYER_Y)
            || (q.yVelocity == PLATFORM_GRAVITY && exists pl :: pl in pls && q.y == pl.y - PLAYER_HEIGHT)
    ensures (exists pl :: pl in pls && TouchesWhileFalling(Fallen(p), pl)) ==>
      q.yVelocity == PLATFORM_GRAVITY && exists pl :: pl in pls && q.y == pl.y - PLAYER_HEIGHT
    ensures (forall pl :: pl in pls ==> !TouchesWhileFalling(Fallen(p), pl)) ==> q == Fallen(p)
  {
    LandAllTouching(Fallen(p), pls)
  }

  /**
   * With a single platform: a falling player touching it is put on top of it
   * with the fixed platform gravity; otherwise only the fall applies.
   */
  lemma {:induction false} LandingOnOnePlatform(p: PlayerStore, pl: Platform)
    ensures var q := MoveToNextTick(p, [pl]);
      && q.x == Fallen(p).x
      && (TouchesWhileFalling(Fallen(p), pl) ==> q.y == pl.y - PLAYER_HEIGHT && q.yVelocity == PLATFORM_GRAVITY)
      && (!TouchesWhileFalling(Fallen(p), pl) ==> q == Fallen(p))
  {
    assert [pl][1..] == [];
  }

  /**
   * Away from platforms the two platformer generations differ only in the
   * floor of the vertical clamp: while the fall does not go above y = 0 they
   * agree, and above it the first generation stops at 0.
   */
  lemma GenerationsDifferOnlyInFloor(p: PlayerStore, g: int)
    ensures p.y + p.yVelocity + GRAVITY >= 0 ==> MoveToNextTick(p, []) == PlayerStores.MoveToNextTick(p, [], g)
    ensures p.y + p.yVelocity + GRAVITY < 0 ==> MoveToNextTick(p, []).y == 0 && MoveToNextTick(p, []).yVelocity == 0
  {
  }

  /** `toPlayerState`: the public projection of a player. */
  function ToPlayerState(p: PlayerStore): (s: PlayerState)
    ensures s.name == p.name && s.color == p.color && s.score == p.score
    ensures s.x == p.x && s.y == p.y
  {
    PlayerState(p.name, p.color, p.x, p.y, p.score)
  }

  /** What clients see does not depend on the velocities: cloning leaves it unchanged. */
  lemma ToPlayerStateIgnoresVelocity(p: PlayerStore)
    ensures ToPlayerState(Clone(p)) == ToPlayerState(p)
    ensures ToPlayerState(AddToScore(p, 0)) == ToPlayerState(p)
  {
  }

  /** A player resting on the floor with no velocity stays where it is. */
  lemma RestingOnFloorIsFixpoint(p: PlayerStore, pls: seq<Platform>)
    requires p.y == MAX_PLAYER_Y && p.xVelocity == 0 && p.yVelocity == 0
    requires 0 <= p.x <= MAX_PLAYER_X
    ensures MoveToNextTick(p, pls) == p
  {
    var f := Fallen(p);
    assert f == p;
    NoLandingWithoutFalling(p, pls);
  }

  lemma {:induction false} NoLandingWithoutFalling(p: PlayerStore, pls: seq<Platform>)
    requires p.yVelocity <= 0
    ensures LandAllTouching(p, pls) == p
    decreases |pls|
  {
    if |pls| > 0 {
      NoLandingWithoutFalling(p, pls[1..]);
    }
  }
}
