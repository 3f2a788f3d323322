/**
 * The first Java game server (`java-server`): free-flying square players in
 * an 800 x 500 arena, without gravity or platforms. A move on an axis is
 * rejected (the coordinate is kept) when it would take the player's box
 * outside the arena. The JSON decoding of client messages is not modelled;
 * the handler receives the decoded list of pressed controls.
 */
module JavaServer {
  import opened Common
  import opened Bounds
  import opened EventProcessor
  import PlayerStores

  const WIDTH := 800
  const HEIGHT := 500
  const PLAYER_WIDTH := 20
  const PLAYER_HEIGHT := 20
  const PLAYER_SPEED := 10
  const TICK_DELAY_MS := 20
  const TICKS_PER_SECOND := 1000 / TICK_DELAY_MS

  datatype Player = Player(color: string, age: int, x: int, y: int, xVelocity: int, yVelocity: int)

  datatype PlayerState = PlayerState(color: string, x: int, y: int, age: int)

  datatype PlayerVelocity = PlayerVelocity(xVelocity: int, yVelocity: int)

  datatype TickResponse = TickResponse(isUpdateNeeded: bool, nextTickCount: int)

  /** The player's whole box lies inside the arena. */
  predicate InsideArena(p: Player)
  {
    InsideAxis(p.x, PLAYER_WIDTH, WIDTH) && InsideAxis(p.y, PLAYER_HEIGHT, HEIGHT)
  }

  /**
   * `createRandomPlayer` as written: `xDraw` and `yDraw` are
   * `nextInt(WIDTH)` and `nextInt(HEIGHT)`, so the box may stick out of the
   * right or bottom edge.
   */
  function CreateRandomPlayer(color: string, xDraw: int, yDraw: int): (p: Player)
    requires PlayerStores.HexColor(color)
    requires 0 <= xDraw < WIDTH && 0 <= yDraw < HEIGHT
    ensures 0 <= p.x < WIDTH && 0 <= p.y < HEIGHT
    ensures p.age == 0 && p.xVelocity == 0 && p.yVelocity == 0 && p.color == color
  {
    Player(color, 0, xDraw, yDraw, 0, 0)
  }

  /**
   * `createRandomPlayer` corrected: the draws range over the positions where
   * the whole box fits, `nextInt(WIDTH - PLAYER_WIDTH + 1)` and
   * `nextInt(HEIGHT - PLAYER_HEIGHT + 1)`.
   */
  function CreateRandomPlayerInside(color: string, xDraw: int, yDraw: int): (p: Player)
    requires PlayerStores.HexColor(color)
    requires 0 <= xDraw <= WIDTH - PLAYER_WIDTH && 0 <= yDraw <= HEIGHT - PLAYER_HEIGHT
    ensures InsideArena(p)
    ensures p.age == 0 && p.xVelocity == 0 && p.yVelocity == 0 && p.color == color
  {
    Player(color, 0, xDraw, yDraw, 0, 0)
  }

  /** Every position inside the arena is a possible corrected spawn. */
  lemma CreateRandomPlayerInsideCoversArena(color: string, p: Player)
    requires PlayerStores.HexColor(color)
    requires InsideArena(p)
    ensures CreateRandomPlayerInside(color, p.x, p.y) == Player(color, 0, p.x, p.y, 0, 0)
  {
  }

  /** `moveToNextTick`: each axis moves by its velocity unless that leaves the arena. */
  function MoveToNextTick(p: Player): (q: Player)
    ensures q.x == StepWithin(p.x, p.xVelocity, PLAYER_WIDTH, WIDTH)
    ensures q.y == StepWithin(p.y, p.yVelocity, PLAYER_HEIGHT, HEIGHT)
    ensures q == p.(x := q.x, y := q.y)
    ensures InsideArena(p) ==> InsideArena(q)
  {
    var newX := p.x + p.xVelocity;
    var newY := p.y + p.yVelocity;
    var movedX := if 0 <= newX && newX + PLAYER_WIDTH <= WIDTH then p.(x := newX) else p;
    if 0 <= newY && newY + PLAYER_HEIGHT <= HEIGHT then movedX.(y := newY) else movedX
  }

  /**
   * A spawn the as-written generator allows: x = 795, with the box reaching
   * x = 815 in an 800-wide arena. With any horizontal velocity a control can
   * set, the player never moves horizontally again.
   */
  lemma SpawnAtEdgeIsStuck(vx: int)
    requires vx in {-PLAYER_SPEED, 0, PLAYER_SPEED}
    ensures var p := CreateRandomPlayer("#000000", 795, 0);
      && !InsideArena(p)
      && MoveToNextTick(p.(xVelocity := vx)).x == 795
  {
    assert PlayerStores.HexColor("#000000");
  }

  /** Corrected spawns start inside the arena and stay there whatever the velocities. */
  lemma CorrectedSpawnStaysInside(color: string, xDraw: int, yDraw: int, vx: int, vy: int)
    requires PlayerStores.HexColor(color)
    requires 0 <= xDraw <= WIDTH - PLAYER_WIDTH && 0 <= yDraw <= HEIGHT - PLAYER_HEIGHT
    ensures InsideArena(MoveToNextTick(CreateRandomPlayerInside(color, xDraw, yDraw).(xVelocity := vx, yVelocity := vy)))
  {
  }

  /**
   * `computeVelocity`: right wins over left, down wins over up, each at
   * PLAYER_SPEED; the result depends only on the set of pressed controls.
   */
  function ComputeVelocity(pressed: seq<Control>): (v: PlayerVelocity)
    ensures v.xVelocity == PLAYER_SPEED <==> Right in pressed
    ensures v.xVelocity == -PLAYER_SPEED <==> Right !in pressed && Left in pressed
    ensures v.xVelocity == 0 <==> Right !in pressed && Left !in pressed
    ensures v.yVelocity == PLAYER_SPEED <==> Down in pressed
    ensures v.yVelocity == -PLAYER_SPEED <==> Down !in pressed && Up in pressed
    ensures v.yVelocity == 0 <==> Down !in pressed && Up !in pressed
  {
    var pressedControls := ControlSet(pressed);
    var xVelocity := if Right in pressedControls then PLAYER_SPEED
      else if Left in pressedControls then -PLAYER_SPEED else 0;
    var yVelocity := if Down in pressedControls then PLAYER_SPEED
      else if Up in pressedControls then -PLAYER_SPEED else 0;
    PlayerVelocity(xVelocity, yVelocity)
  }

  /** A player is moved by a tick exactly when it has a velocity. */
  predicate IsMoving(p: Player)
  {
    p.xVelocity != 0 || p.yVelocity != 0
  }

  /**
   * `advanceToNextTick(players, tickCount)`: moving players move; an update
   * is needed on a second boundary or when some player has a velocity.
   */
  function AdvanceToNextTick(players: map<string, Player>, tickCount: int): (r: (TickResponse, map<string, Player>))
    ensures tickCount >= -1 ==> r.0.nextTickCount == (tickCount + 1) % TICKS_PER_SECOND
    ensures r.0.isUpdateNeeded <==> r.0.nextTickCount == 0 || exists k :: k in players && IsMoving(players[k])
    ensures r.1.Keys == players.Keys
    ensures forall k :: k in players && IsMoving(players[k]) ==> r.1[k] == MoveToNextTick(players[k])
    ensures forall k :: k in players && !IsMoving(players[k]) ==> r.1[k] == players[k]
  {
    var nextTickCount := JavaRem(tickCount + 1, TICKS_PER_SECOND);
    var moved := map k | k in players :: if IsMoving(players[k]) then MoveToNextTick(players[k]) else players[k];
    var anyMoving := exists k :: k in players && IsMoving(players[k]);
    (TickResponse(nextTickCount == 0 || anyMoving, nextTickCount), moved)
  }

  /** Skipping the players without velocity changes nothing: moving them would leave them in place. */
  lemma SkippingStillPlayersIsSound(players: map<string, Player>, tickCount: int)
    ensures forall k :: k in players ==> AdvanceToNextTick(players, tickCount).1[k] == MoveToNextTick(players[k])
  {
  }

  /** `toPlayerState`. */
  function ToPlayerState(p: Player): (s: PlayerState)
    ensures s.color == p.color && s.x == p.x && s.y == p.y && s.age == p.age
  {
    PlayerState(p.color, p.x, p.y, p.age)
  }

  /** Only moving changes what clients see. */
  lemma StillPlayerStateUnchanged(p: Player)
    requires !IsMoving(p)
    ensures ToPlayerState(MoveToNextTick(p)) == ToPlayerState(p)
  {
  }
}
