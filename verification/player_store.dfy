/**
 * The player of the current platformer server (`models/PlayerStore.java`):
 * creation, the physics step with gravity, saturation against the arena
 * walls and landing on platforms, scoring and cloning.
 *
 * The Java object is mutated in place; here every operation returns the
 * updated record.
 */
module PlayerStores {
  import opened Common
  import opened Bounds
  import opened Platforms

  const PLAYER_WIDTH := 40
  const PLAYER_HEIGHT := 40
  const GRAVITY := 2

  /** Room left between a freshly spawned player's top and its platform. */
  const SPAWN_HEIGHT := PLAYER_HEIGHT + 100

  const MAX_PLAYER_X := WIDTH - PLAYER_WIDTH
  const MAX_PLAYER_Y := HEIGHT - PLAYER_HEIGHT

  /** Players may jump this far above the visible space. */
  const MIN_PLAYER_Y := -500

  /** Random spawns stay in the top third of the arena. */
  const MAX_SPAWN_HEIGHT := MAX_PLAYER_Y / 3

  datatype PlayerStore = PlayerStore(
    color: string,
    name: string,
    x: int,
    y: int,
    xVelocity: int,
    yVelocity: int,
    score: int,
    hasChanged: bool)

  /** The shape of a random colour: '#' followed by six lower-case hex digits. */
  predicate HexColor(c: string)
  {
    |c| == 7 && c[0] == '#' && forall i :: 1 <= i < 7 ==> c[i] in "0123456789abcdef"
  }

  /**
   * `createRandomPlayer`: `xCell` and `yCell` are the draws of
   * `nextInt(WIDTH / PLAYER_WIDTH)` and `nextInt(MAX_SPAWN_HEIGHT / PLAYER_HEIGHT)`.
   */
  function CreateRandomPlayer(name: string, color: string, xCell: int, yCell: int): (p: PlayerStore)
    requires HexColor(color)
    requires 0 <= xCell < WIDTH / PLAYER_WIDTH
    requires 0 <= yCell < MAX_SPAWN_HEIGHT / PLAYER_HEIGHT
    ensures p.x % PLAYER_WIDTH == 0 && p.y % PLAYER_HEIGHT == 0
    ensures 0 <= p.x <= WIDTH - PLAYER_WIDTH
    ensures 0 <= p.y < MAX_SPAWN_HEIGHT / PLAYER_HEIGHT * PLAYER_HEIGHT < MAX_SPAWN_HEIGHT
    ensures p.xVelocity == 0 && p.yVelocity == 0 && p.score == 0 && p.hasChanged
    ensures p.name == name && p.color == color
  {
    PlayerStore(color, name, xCell * PLAYER_WIDTH, yCell * PLAYER_HEIGHT, 0, 0, 0, true)
  }

  /** Every cell-aligned position in the spawn band is a possible spawn. */
  lemma CreateRandomPlayerCoversSpawnBand(name: string, color: string, x: int, y: int)
    requires HexColor(color)
    requires x % PLAYER_WIDTH == 0 && y % PLAYER_HEIGHT == 0
    requires 0 <= x <= WIDTH - PLAYER_WIDTH && 0 <= y < MAX_SPAWN_HEIGHT / PLAYER_HEIGHT * PLAYER_HEIGHT
    ensures 0 <= x / PLAYER_WIDTH < WIDTH / PLAYER_WIDTH
    ensures 0 <= y / PLAYER_HEIGHT < MAX_SPAWN_HEIGHT / PLAYER_HEIGHT
    ensures CreateRandomPlayer(name, color, x / PLAYER_WIDTH, y / PLAYER_HEIGHT).x == x
    ensures CreateRandomPlayer(name, color, x / PLAYER_WIDTH, y / PLAYER_HEIGHT).y == y
  {
  }

  /**
   * `createAbovePlatform`: the player is centred horizontally on the platform
   * (Java's truncating division) with SPAWN_HEIGHT of room above it.
   */
  function CreateAbovePlatform(name: string, color: string, pl: Platform): (p: PlayerStore)
    requires HexColor(color)
    ensures var left, right := p.x - pl.x, (pl.x + pl.width) - (p.x + PLAYER_WIDTH);
      && left + right == pl.width - PLAYER_WIDTH
      && (pl.width >= PLAYER_WIDTH ==> 0 <= left <= right <= left + 1)
      && (pl.width < PLAYER_WIDTH ==> right <= left <= right + 1)
    ensures pl.y - (p.y + PLAYER_HEIGHT) == SPAWN_HEIGHT - PLAYER_HEIGHT
    ensures p.xVelocity == 0 && p.yVelocity == 0 && p.score == 0 && p.hasChanged
    ensures p.name == name && p.color == color
  {
    var x := pl.x + JavaDiv(pl.width - PLAYER_WIDTH, 2);
    PlayerStore(color, name, x, pl.y - SPAWN_HEIGHT, 0, 0, 0, true)
  }

  /** Horizontal half of a step: move by xVelocity, saturate at the walls. */
  function ClampX(p: PlayerStore): (q: PlayerStore)
    ensures q.x == Saturate(p.x + p.xVelocity, 0, MAX_PLAYER_X)
    ensures q.xVelocity == if 0 <= p.x + p.xVelocity <= MAX_PLAYER_X then p.xVelocity else 0
    ensures q.hasChanged == (p.hasChanged || q.x != p.x)
    ensures q == p.(x := q.x, xVelocity := q.xVelocity, hasChanged := q.hasChanged)
  {
    var newX := p.x + p.xVelocity;
    var clamped := if newX > MAX_PLAYER_X then p.(xVelocity := 0, x := MAX_PLAYER_X)
      else if newX < 0 then p.(xVelocity := 0, x := 0)
      else p.(x := newX);
    if clamped.x != p.x then clamped.(hasChanged := true) else clamped
  }

  /** Where the vertical half of a step puts the player before platforms are considered. */
  function FallTarget(p: PlayerStore, floor: int): int
    requires floor <= MAX_PLAYER_Y
  {
    Saturate(p.y + p.yVelocity + GRAVITY, floor, MAX_PLAYER_Y)
  }

  /**
   * Vertical half of a step: gravity is added to yVelocity, then y moves and
   * is saturated to `[floor, MAX_PLAYER_Y]`, zeroing yVelocity on a clamp.
   */
  function FallY(p: PlayerStore, floor: int): (q: PlayerStore)
    requires floor <= MAX_PLAYER_Y
    ensures q.y == FallTarget(p, floor)
    ensures q.yVelocity == if floor <= p.y + p.yVelocity + GRAVITY <= MAX_PLAYER_Y then p.yVelocity + GRAVITY else 0
    ensures q.hasChanged == (p.hasChanged || q.y != p.y)
    ensures q == p.(y := q.y, yVelocity := q.yVelocity, hasChanged := q.hasChanged)
  {
    var vy := p.yVelocity + GRAVITY;
    var newY := p.y + vy;
    var clamped := if newY > MAX_PLAYER_Y then p.(yVelocity := 0, y := MAX_PLAYER_Y)
      else if newY < floor then p.(yVelocity := 0, y := floor)
      else p.(yVelocity := vy, y := newY);
    if clamped.y != p.y then clamped.(hasChanged := true) else clamped
  }

  /** `isTouchingPlatform`, branch for branch. */
  predicate IsTouchingPlatform(p: PlayerStore, pl: Platform)
  {
    var minY, maxY := p.y, p.y + PLAYER_HEIGHT;
    if minY >= pl.y || pl.y >= maxY then false
    else
      var minX, maxX := p.x, p.x + PLAYER_WIDTH;
      var platformMax := pl.x + pl.width;
      if minX < pl.x && pl.x < maxX then true
      else if minX < platformMax && platformMax < maxX then true
      else
        var isPlayerBehind := maxX < pl.x;
        var isPlayerAhead := platformMax < minX;
        !isPlayerBehind && !isPlayerAhead
  }

  /**
   * For a platform of non-negative width, touching means: the platform's
   * top lies strictly inside the player's vertical extent and the two
   * horizontal extents overlap (edges included).
   */
  lemma TouchingMeansOverlap(p: PlayerStore, pl: Platform)
    requires pl.width >= 0
    ensures IsTouchingPlatform(p, pl) <==>
      && p.y < pl.y < p.y + PLAYER_HEIGHT
      && pl.x <= p.x + PLAYER_WIDTH
      && p.x <= pl.x + pl.width
  {
  }

  function Signum(v: int): int
  {
    if v > 0 then 1 else if v < 0 then -1 else 0
  }

  /**
   * `crossesPlatform`: horizontally overlapping, and the platform's top was
   * on a different side of the player's top at `lastY` than it is now.
   */
  predicate CrossesPlatform(p: PlayerStore, lastY: int, pl: Platform)
  {
    if p.x + PLAYER_WIDTH < pl.x then false
    else if pl.x + pl.width < p.x then false
    else Signum(pl.y - lastY) != Signum(pl.y - p.y)
  }

  /** A player whose top moved from above a platform to below it has crossed it. */
  lemma PassingThroughIsCrossing(p: PlayerStore, lastY: int, pl: Platform)
    requires lastY < pl.y < p.y
    requires pl.x <= p.x + PLAYER_WIDTH && p.x <= pl.x + pl.width
    ensures CrossesPlatform(p, lastY, pl)
  {
  }

  /**
   * For a player that did not move up, crossing means: the horizontal
   * extents overlap, the player moved, and the platform's top lies between
   * the old and the new top, both ends included.
   */
  lemma CrossingMeansPassingTop(p: PlayerStore, lastY: int, pl: Platform)
    requires lastY <= p.y
    ensures CrossesPlatform(p, lastY, pl) <==>
      && pl.x <= p.x + PLAYER_WIDTH && p.x <= pl.x + pl.width
      && lastY < p.y
      && lastY <= pl.y <= p.y
  {
  }

  /** The landing test of the collision loop: still falling, and touching or crossing the platform. */
  predicate Collides(p: PlayerStore, lastY: int, pl: Platform)
  {
    p.yVelocity > 0 && (IsTouchingPlatform(p, pl) || CrossesPlatform(p, lastY, pl))
  }

  /** One iteration of the collision-correction loop. */
  function Land(p: PlayerStore, lastY: int, pl: Platform, platformGravity: int): PlayerStore
  {
    if Collides(p, lastY, pl) then
      p.(y := pl.y - PLAYER_HEIGHT, yVelocity := platformGravity)
    else p
  }

  /**
   * The whole collision-correction loop, platform by platform in list order.
   * Only y and yVelocity can change. A player that collides with some
   * platform ends standing on one of them, moving with the platform gravity;
   * a player that collides with none is left as it is.
   */
  function LandAll(p: PlayerStore, lastY: int, pls: seq<Platform>, platformGravity: int): (q: PlayerStore)
    ensures q == p.(y := q.y, yVelocity := q.yVelocity)
    ensures q == p || (q.yVelocity == platformGravity && exists pl :: pl in pls && q.y == pl.y - PLAYER_HEIGHT)
    ensures (exists pl :: pl in pls && Collides(p, lastY, pl)) ==>
      q.yVelocity == platformGravity && exists pl :: pl in pls && q.y == pl.y - PLAYER_HEIGHT
    ensures (forall pl :: pl in pls ==> !Collides(p, lastY, pl)) ==> q == p
    decreases |pls|
  {
    if |pls| == 0 then p
    else
      var r := LandAll(Land(p, lastY, pls[0], platformGravity), lastY, pls[1..], platformGravity);
      assert forall pl :: pl in pls <==> pl == pls[0] || pl in pls[1..];
      r
  }

  /** The player after the horizontal clamp and the fall, before collision correction. */
  function Fallen(p: PlayerStore): (f: PlayerStore)
    ensures f.x == Saturate(p.x + p.xVelocity, 0, MAX_PLAYER_X)
    ensures f.y == FallTarget(p, MIN_PLAYER_Y) && MIN_PLAYER_Y <= f.y <= MAX_PLAYER_Y
  {
    FallY(ClampX(p), MIN_PLAYER_Y)
  }

  /**
   * `moveToNextTick(platforms, platformGravity)`: clamp x, fall in y, then
   * correct collisions with the platforms.
   */
  function MoveToNextTick(p: PlayerStore, pls: seq<Platform>, platformGravity: int): (q: PlayerStore)
    ensures 0 <= q.x <= MAX_PLAYER_X
    ensures q.x == Saturate(p.x + p.xVelocity, 0, MAX_PLAYER_X)
    ensures q.xVelocity == if 0 <= p.x + p.xVelocity <= MAX_PLAYER_X then p.xVelocity else 0
    ensures q.hasChanged == (p.hasChanged || q.x != p.x || FallTarget(p, MIN_PLAYER_Y) != p.y)
    ensures q.score == p.score && q.name == p.name && q.color == p.color
    ensures || (q.y == FallTarget(p, MIN_PLAYER_Y) && MIN_PLAYER_Y <= q.y <= MAX_PLAYER_Y)
            || (q.yVelocity == platformGravity && exists pl :: pl in pls && q.y == pl.y - PLAYER_HEIGHT)
    ensures (exists pl :: pl in pls && Collides(Fallen(p), p.y, pl)) ==>
      q.yVelocity == platformGravity && exists pl :: pl in pls && q.y == pl.y - PLAYER_HEIGHT
    ensures (forall pl :: pl in pls ==> !Collides(Fallen(p), p.y, pl)) ==> q == Fallen(p)
  {
    LandAll(Fallen(p), p.y, pls, platformGravity)
  }

  /** The no-argument overload: no platforms, platform gravity 0. */
  function MoveToNextTickAlone(p: PlayerStore): (q: PlayerStore)
    ensures 0 <= q.x <= MAX_PLAYER_X && MIN_PLAYER_Y <= q.y <= MAX_PLAYER_Y
    ensures q.y == FallTarget(p, MIN_PLAYER_Y)
    ensures q.yVelocity == if MIN_PLAYER_Y <= p.y + p.yVelocity + GRAVITY <= MAX_PLAYER_Y then p.yVelocity + GRAVITY else 0
  {
    MoveToNextTick(p, [], 0)
  }

  /**
   * The step only ever raises hasChanged; an in-bounds player whose velocity
   * exactly cancels gravity keeps it lowered, whatever the platforms.
   */
  lemma HasChangedOnlyOnMovement(p: PlayerStore, pls: seq<Platform>, g: int)
    ensures p.hasChanged ==> MoveToNextTick(p, pls, g).hasChanged
    ensures && !p.hasChanged && 0 <= p.x <= MAX_PLAYER_X && MIN_PLAYER_Y <= p.y <= MAX_PLAYER_Y
            && p.xVelocity == 0 && p.yVelocity + GRAVITY == 0
      ==> !MoveToNextTick(p, pls, g).hasChanged
  {
  }

  /**
   * With a single platform: when the player is still falling after gravity
   * and touches or has passed through it, it is put on top of the platform
   * and moves with the platform gravity; x is unaffected.
   */
  lemma {:induction false} LandingOnOnePlatform(p: PlayerStore, pl: Platform, g: int)
    ensures var q := MoveToNextTick(p, [pl], g);
      && q.x == Fallen(p).x
      && (Collides(Fallen(p), p.y, pl) ==> q.y == pl.y - PLAYER_HEIGHT && q.yVelocity == g)
      && (!Collides(Fallen(p), p.y, pl) ==> q == Fallen(p))
  {
    var f := Fallen(p);
    assert [pl][1..] == [];
    assert MoveToNextTick(p, [pl], g) == LandAll(Land(f, p.y, pl, g), p.y, [], g);
  }

  /** A player resting on the floor with no velocity is a fixed point of the step. */
  lemma RestingOnFloorIsFixpoint(p: PlayerStore, pls: seq<Platform>, g: int)
    requires p.y == MAX_PLAYER_Y && p.xVelocity == 0 && p.yVelocity == 0
    requires 0 <= p.x <= MAX_PLAYER_X
    ensures MoveToNextTick(p, pls, g) == p
  {
    var f := Fallen(p);
    assert f == p;
    LandingNeedsFalling(f, p.y, pls, g);
  }

  /** Without downward velocity nothing lands. */
  lemma {:induction false} LandingNeedsFalling(p: PlayerStore, lastY: int, pls: seq<Platform>, g: int)
    requires p.yVelocity <= 0
    ensures LandAll(p, lastY, pls, g) == p
    decreases |pls|
  {
    if |pls| > 0 {
      LandingNeedsFalling(p, lastY, pls[1..], g);
    }
  }

  /** `addToScore(points)`: the score grows by exactly `points`. */
  function AddToScore(p: PlayerStore, points: int): (q: PlayerStore)
    ensures q.score - p.score == points
    ensures q == p.(score := q.score)
  {
    p.(score := p.score + points)
  }

  /** Successive calls accumulate. */
  lemma AddToScoreAccumulates(p: PlayerStore, a: int, b: int)
    ensures AddToScore(AddToScore(p, a), b) == AddToScore(p, a + b)
  {
  }

  /** `clone`: the builder never sets xVelocity, which comes out as 0. */
  function Clone(p: PlayerStore): (q: PlayerStore)
    ensures q.xVelocity == 0
    ensures q == p.(xVelocity := 0)
  {
    PlayerStore(p.color, p.name, p.x, p.y, 0, p.yVelocity, p.score, p.hasChanged)
  }

  /** A clone equals its original exactly when the original stood still horizontally. */
  lemma CloneIsFaithfulIffNoXVelocity(p: PlayerStore)
    ensures Clone(p) == p <==> p.xVelocity == 0
    ensures Clone(Clone(p)) == Clone(p)
  {
  }

  /** The collision test of the unit tests: a player just above a platform lands on it. */
  lemma LandsOnPlatformExample(g: int)
    ensures var p := PlayerStore("", "", 200, 200, 0, 0, 0, false);
      var q := MoveToNextTick(p, [Platform(100, 150, 200 + PLAYER_HEIGHT)], g);
      q.x == 200 && q.y == 200 && q.xVelocity == 0 && q.yVelocity == g && q.hasChanged
  {
    var p := PlayerStore("", "", 200, 200, 0, 0, 0, false);
    var pl := Platform(100, 150, 200 + PLAYER_HEIGHT);
    LandingOnOnePlatform(p, pl, g);
  }
}
