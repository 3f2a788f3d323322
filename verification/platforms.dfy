/**
 * Falling platforms of the platformer servers: the record, its random
 * generation (the random draws are parameters bounded to the ranges of
 * `Random.nextInt`), one tick of falling, and the list-level move-and-cull
 * step used by both tick processors.
 */
module Platforms {
  import opened Common

  const WIDTH := 1920
  const HEIGHT := 1080

  /** Fixed per-tick fall of the older platform class; also the jump cutoff unit. */
  const PLATFORM_GRAVITY := 5
  const MIN_WIDTH := 300
  const MAX_WIDTH := 600

  /** Spacing between the platforms laid out for the first player. */
  const INIT_PLATFORM_SPACING := 175

  datatype Platform = Platform(width: int, x: int, y: int)

  /**
   * The two random draws of a platform: `widthDraw` from
   * `nextInt(MAX_WIDTH - MIN_WIDTH)` and `xDraw` from `nextInt(WIDTH - width)`.
   */
  datatype Draw = Draw(widthDraw: int, xDraw: int)

  predicate ValidDraw(d: Draw)
  {
    && 0 <= d.widthDraw < MAX_WIDTH - MIN_WIDTH
    && 0 <= d.xDraw < WIDTH - (d.widthDraw + MIN_WIDTH)
  }

  /** The shape every randomly generated platform has. */
  predicate WellShaped(p: Platform)
  {
    && MIN_WIDTH <= p.width < MAX_WIDTH
    && 0 <= p.x
    && p.x + p.width < WIDTH
  }

  /** `GamePlatform.generateAtHeight`: a random platform at the given height. */
  function GenerateAtHeight(height: int, d: Draw): (r: Result<Platform>)
    requires ValidDraw(d)
    ensures r.Failure? <==> height < 0 || HEIGHT < height
    ensures r.Failure? ==> r.error == "Platform height out of bounds: " + IntToDecimal(height)
    ensures r.Success? ==> r.value.y == height && WellShaped(r.value)
  {
    if height < 0 || HEIGHT < height then
      Failure("Platform height out of bounds: " + IntToDecimal(height))
    else
      var width := d.widthDraw + MIN_WIDTH;
      Success(Platform(width, d.xDraw, height))
  }

  /** Every well-shaped platform at a legal height is a possible outcome of generation. */
  lemma GenerateAtHeightCoversAll(p: Platform)
    requires WellShaped(p) && 0 <= p.y <= HEIGHT
    ensures var d := Draw(p.width - MIN_WIDTH, p.x);
      ValidDraw(d) && GenerateAtHeight(p.y, d) == Success(p)
  {
  }

  /** The older `createRandomPlatform`: a random platform at the top of the screen. */
  function CreateRandomPlatform(d: Draw): (p: Platform)
    requires ValidDraw(d)
    ensures p.y == 0
    ensures MIN_WIDTH <= p.width < MAX_WIDTH
    ensures 0 <= p.x < WIDTH - p.width
    ensures GenerateAtHeight(0, d) == Success(p)
  {
    Platform(d.widthDraw + MIN_WIDTH, d.xDraw, 0)
  }

  /** `toNextTick(gravity)`: the platform falls by `gravity`, keeping width and x. */
  function ToNextTick(p: Platform, gravity: int): (q: Platform)
    ensures q.width == p.width && q.x == p.x
    ensures q.y - p.y == gravity
  {
    Platform(p.width, p.x, p.y + gravity)
  }

  /** The fixed-gravity `toNextTick()` of both platform classes. */
  function ToNextTickFixed(p: Platform): (q: Platform)
    ensures q.width == p.width && q.x == p.x
    ensures q.y == p.y + PLATFORM_GRAVITY
  {
    Platform(p.width, p.x, p.y + PLATFORM_GRAVITY)
  }

  /** Falling twice is falling once by the sum; the fixed form is the gravity-5 case. */
  lemma ToNextTickComposes(p: Platform, a: int, b: int)
    ensures ToNextTick(ToNextTick(p, a), b) == ToNextTick(p, a + b)
    ensures ToNextTickFixed(p) == ToNextTick(p, PLATFORM_GRAVITY)
  {
  }

  /**
   * The platform half of a tick: every platform falls by `gravity`, and those
   * that end below the ground (y > HEIGHT) are dropped.
   */
  function MoveAndCull(ps: seq<Platform>, gravity: int): (r: seq<Platform>)
    ensures |r| <= |ps|
    ensures forall q :: q in r ==> q.y <= HEIGHT
    ensures forall q :: q in r ==> exists p :: p in ps && q == ToNextTick(p, gravity)
    ensures forall p :: p in ps && p.y + gravity <= HEIGHT ==> ToNextTick(p, gravity) in r
  {
    if |ps| == 0 then []
    else
      var next := ToNextTick(ps[0], gravity);
      var rest := MoveAndCull(ps[1..], gravity);
      assert forall p :: p in ps[1..] ==> p in ps;
      assert forall p :: p in ps ==> p == ps[0] || p in ps[1..];
      if next.y <= HEIGHT then [next] + rest else rest
  }

  /** Move-and-cull respects concatenation, so the surviving platforms keep their order. */
  lemma {:induction false} MoveAndCullKeepsOrder(a: seq<Platform>, b: seq<Platform>, gravity: int)
    ensures MoveAndCull(a + b, gravity) == MoveAndCull(a, gravity) + MoveAndCull(b, gravity)
    decreases |a|
  {
    if |a| == 0 {
      assert a + b == b;
    } else {
      assert (a + b)[1..] == a[1..] + b;
      MoveAndCullKeepsOrder(a[1..], b, gravity);
    }
  }

  /** When nothing falls out, move-and-cull keeps every platform, position by position. */
  lemma {:induction false} MoveAndCullKeepsAllInBounds(ps: seq<Platform>, gravity: int)
    requires forall i :: 0 <= i < |ps| ==> ps[i].y + gravity <= HEIGHT
    ensures |MoveAndCull(ps, gravity)| == |ps|
    ensures forall i :: 0 <= i < |ps| ==> MoveAndCull(ps, gravity)[i] == ToNextTick(ps[i], gravity)
    decreases |ps|
  {
    if |ps| > 0 {
      MoveAndCullKeepsAllInBounds(ps[1..], gravity);
    }
  }

  /** Heights of the initial layout: 0, 175, 350, ... strictly below HEIGHT, from `h` on. */
  function InitHeightsFrom(h: int): (hs: seq<int>)
    requires h >= 0
    ensures forall i :: 0 <= i < |hs| ==> hs[i] == h + i * INIT_PLATFORM_SPACING && hs[i] < HEIGHT
    ensures h + |hs| * INIT_PLATFORM_SPACING >= HEIGHT
    decreases HEIGHT - h
  {
    if h >= HEIGHT then [] else [h] + InitHeightsFrom(h + INIT_PLATFORM_SPACING)
  }

  /** Number of platforms laid out for the first player (7 with the constants above). */
  const INIT_PLATFORM_COUNT := 7

  lemma InitHeightsCount()
    ensures |InitHeightsFrom(0)| == INIT_PLATFORM_COUNT
  {
    assert InitHeightsFrom(0) == [0, 175, 350, 525, 700, 875, 1050];
  }

  /**
   * `spawnInitPlatforms`: one generated platform per height 0, 175, 350, ...
   * below HEIGHT, in that order; `draws[i]` are the random draws of the i-th.
   */
  function SpawnInitPlatformsFrom(h: int, draws: seq<Draw>): (ps: seq<Platform>)
    requires h >= 0
    requires |draws| >= |InitHeightsFrom(h)|
    requires forall i :: 0 <= i < |draws| ==> ValidDraw(draws[i])
    ensures |ps| == |InitHeightsFrom(h)|
    ensures forall i :: 0 <= i < |ps| ==> ps[i].y == h + i * INIT_PLATFORM_SPACING
    ensures forall i :: 0 <= i < |ps| ==> ps[i].y < HEIGHT && WellShaped(ps[i])
    decreases HEIGHT - h
  {
    if h >= HEIGHT then []
    else
      var p := GenerateAtHeight(h, draws[0]).value;
      [p] + SpawnInitPlatformsFrom(h + INIT_PLATFORM_SPACING, draws[1..])
  }

  predicate ValidInitDraws(draws: seq<Draw>)
  {
    |draws| == INIT_PLATFORM_COUNT && forall i :: 0 <= i < |draws| ==> ValidDraw(draws[i])
  }

  /** The whole initial layout: seven platforms at heights k * 175, k = 0..6. */
  function SpawnInitPlatforms(draws: seq<Draw>): (ps: seq<Platform>)
    requires ValidInitDraws(draws)
    ensures |ps| == INIT_PLATFORM_COUNT
    ensures forall i :: 0 <= i < |ps| ==> ps[i].y == i * INIT_PLATFORM_SPACING && WellShaped(ps[i])
    ensures forall k: nat :: k * INIT_PLATFORM_SPACING < HEIGHT ==> k < |ps|
  {
    InitHeightsCount();
    SpawnInitPlatformsFrom(0, draws)
  }
}
