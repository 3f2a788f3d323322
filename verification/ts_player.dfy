/**
 * The player of the TypeScript server (`server/src/game/player.ts`):
 * movement that rejects a step leaving the arena, the velocity chosen by a
 * list of pressed controls, and the public projection of a player.
 *
 * The arena and player dimensions come from a constants file that is not
 * part of this model; they are the parameter `Arena`.
 */
module TsPlayers {
  import opened Bounds
  import opened EventProcessor

  /** Movement speed in pixels per tick. */
  const PLAYER_SPEED := 10

  datatype Arena = Arena(width: int, height: int, playerWidth: int, playerHeight: int)

  predicate ValidArena(a: Arena)
  {
    0 < a.playerWidth <= a.width && 0 < a.playerHeight <= a.height
  }

  datatype TsPlayer = TsPlayer(id: string, color: string, age: int, x: int, y: int, vx: int, vy: int)

  datatype PlayerState = PlayerState(color: string, x: int, y: int, age: int)

  predicate InsideArena(p: TsPlayer, a: Arena)
  {
    InsideAxis(p.x, a.playerWidth, a.width) && InsideAxis(p.y, a.playerHeight, a.height)
  }

  /** `movePlayer`: each axis takes its step only if the box stays inside the arena. */
  function MovePlayer(p: TsPlayer, a: Arena): (q: TsPlayer)
    ensures q.x == StepWithin(p.x, p.vx, a.playerWidth, a.width)
    ensures q.y == StepWithin(p.y, p.vy, a.playerHeight, a.height)
    ensures q == p.(x := q.x, y := q.y)
    ensures InsideArena(p, a) ==> InsideArena(q, a)
  {
    var newX := p.x + p.vx;
    var newY := p.y + p.vy;
    var movedX := if 0 <= newX && newX + a.playerWidth <= a.width then p.(x := newX) else p;
    if 0 <= newY && newY + a.playerHeight <= a.height then movedX.(y := newY) else movedX
  }

  /** The controls in order of first occurrence: the iteration order of a JavaScript `Set`. */
  function Dedup(s: seq<Control>): (d: seq<Control>)
    ensures forall c :: c in d <==> c in s
    ensures forall i, j :: 0 <= i < j < |d| ==> d[i] != d[j]
    decreases |s|
  {
    if |s| == 0 then []
    else
      var d := Dedup(s[..|s| - 1]);
      assert forall c :: c in s <==> c in s[..|s| - 1] || c == s[|s| - 1];
      if s[|s| - 1] in d then d else d + [s[|s| - 1]]
  }

  /** One iteration of the velocity loop: the control overwrites its axis. */
  function ApplyControl(v: (int, int), c: Control): (int, int)
  {
    match c
    case Right => (PLAYER_SPEED, v.1)
    case Left => (-PLAYER_SPEED, v.1)
    case Down => (v.0, PLAYER_SPEED)
    case Up => (v.0, -PLAYER_SPEED)
  }

  /**
   * The velocity loop over a control sequence. Each axis ends at zero
   * exactly when none of its controls occurs, and otherwise at the speed of
   * one of its controls that does occur.
   */
  function ApplyControls(d: seq<Control>): (v: (int, int))
    ensures v.0 == 0 <==> Right !in d && Left !in d
    ensures v.0 == PLAYER_SPEED ==> Right in d
    ensures v.0 == -PLAYER_SPEED ==> Left in d
    ensures v.0 in {-PLAYER_SPEED, 0, PLAYER_SPEED}
    ensures v.1 == 0 <==> Down !in d && Up !in d
    ensures v.1 == PLAYER_SPEED ==> Down in d
    ensures v.1 == -PLAYER_SPEED ==> Up in d
    ensures v.1 in {-PLAYER_SPEED, 0, PLAYER_SPEED}
    decreases |d|
  {
    if |d| == 0 then (0, 0)
    else
      var init := d[..|d| - 1];
      assert forall c :: c in d <==> c in init || c == d[|d| - 1];
      ApplyControl(ApplyControls(init), d[|d| - 1])
  }

  /**
   * `getPlayerVelocity`: with no conflicting controls, each axis moves at
   * PLAYER_SPEED in the pressed direction, or not at all.
   */
  function GetPlayerVelocity(pressed: seq<Control>): (v: (int, int))
    ensures Right in pressed && Left !in pressed ==> v.0 == PLAYER_SPEED
    ensures Left in pressed && Right !in pressed ==> v.0 == -PLAYER_SPEED
    ensures Right !in pressed && Left !in pressed ==> v.0 == 0
    ensures Down in pressed && Up !in pressed ==> v.1 == PLAYER_SPEED
    ensures Up in pressed && Down !in pressed ==> v.1 == -PLAYER_SPEED
    ensures Down !in pressed && Up !in pressed ==> v.1 == 0
    ensures v.0 in {-PLAYER_SPEED, 0, PLAYER_SPEED} && v.1 in {-PLAYER_SPEED, 0, PLAYER_SPEED}
  {
    ApplyControls(Dedup(pressed))
  }

  /** Duplicates are ignored: repeating a control already pressed changes nothing. */
  lemma DuplicatesIgnored(pressed: seq<Control>, c: Control)
    requires c in pressed
    ensures GetPlayerVelocity(pressed + [c]) == GetPlayerVelocity(pressed)
  {
    assert (pressed + [c])[..|pressed + [c]| - 1] == pressed;
  }

  /** The position of the first press of `c`. */
  function FirstIndex(s: seq<Control>, c: Control): (i: nat)
    requires c in s
    ensures i < |s| && s[i] == c
    ensures forall j :: 0 <= j < i ==> s[j] != c
    decreases |s|
  {
    var init := s[..|s| - 1];
    if c in init then
      var i := FirstIndex(init, c);
      assert forall j :: 0 <= j < i ==> s[j] == init[j];
      i
    else
      assert forall j :: 0 <= j < |s| - 1 ==> s[j] == init[j];
      |s| - 1
  }

  /** A control pressed for the first time is applied after all earlier ones. */
  lemma NewControlApplied(pressed: seq<Control>, c: Control)
    requires c !in pressed
    ensures GetPlayerVelocity(pressed + [c]) == ApplyControl(GetPlayerVelocity(pressed), c)
  {
    var s := pressed + [c];
    assert s[..|s| - 1] == pressed;
    var d := Dedup(pressed);
    assert (d + [c])[..|d + [c]| - 1] == d;
  }

  /** Pressing another control does not move earlier first presses. */
  lemma FirstIndexAfterAppend(pressed: seq<Control>, last: Control, c: Control)
    requires c in pressed
    ensures FirstIndex(pressed + [last], c) == FirstIndex(pressed, c)
  {
    var s := pressed + [last];
    assert s[..|s| - 1] == pressed;
  }

  /** A control pressed for the first time has its first press last. */
  lemma FirstIndexOfNew(pressed: seq<Control>, c: Control)
    requires c !in pressed
    ensures FirstIndex(pressed + [c], c) == |pressed|
  {
    var s := pressed + [c];
    assert s[..|s| - 1] == pressed;
  }

  /** The horizontal half of the conflict rule. */
  lemma {:induction false} HorizontalConflict(pressed: seq<Control>)
    ensures Right in pressed && Left in pressed ==>
      GetPlayerVelocity(pressed).0
        == if FirstIndex(pressed, Left) < FirstIndex(pressed, Right) then PLAYER_SPEED else -PLAYER_SPEED
    decreases |pressed|
  {
    if Right in pressed && Left in pressed {
      var init, last := pressed[..|pressed| - 1], pressed[|pressed| - 1];
      assert pressed == init + [last];
      if last in init {
        DuplicatesIgnored(init, last);
        HorizontalConflict(init);
        FirstIndexAfterAppend(init, last, Right);
        FirstIndexAfterAppend(init, last, Left);
      } else {
        NewControlApplied(init, last);
        FirstIndexOfNew(init, last);
        if last == Right {
          FirstIndexAfterAppend(init, last, Left);
        } else if last == Left {
          FirstIndexAfterAppend(init, last, Right);
        } else {
          HorizontalConflict(init);
          FirstIndexAfterAppend(init, last, Right);
          FirstIndexAfterAppend(init, last, Left);
        }
      }
    }
  }

  /** The vertical half of the conflict rule. */
  lemma {:induction false} VerticalConflict(pressed: seq<Control>)
    ensures Down in pressed && Up in pressed ==>
      GetPlayerVelocity(pressed).1
        == if FirstIndex(pressed, Up) < FirstIndex(pressed, Down) then PLAYER_SPEED else -PLAYER_SPEED
    decreases |pressed|
  {
    if Down in pressed && Up in pressed {
      var init, last := pressed[..|pressed| - 1], pressed[|pressed| - 1];
      assert pressed == init + [last];
      if last in init {
        DuplicatesIgnored(init, last);
        VerticalConflict(init);
        FirstIndexAfterAppend(init, last, Down);
        FirstIndexAfterAppend(init, last, Up);
      } else {
        NewControlApplied(init, last);
        FirstIndexOfNew(init, last);
        if last == Down {
          FirstIndexAfterAppend(init, last, Up);
        } else if last == Up {
          FirstIndexAfterAppend(init, last, Down);
        } else {
          VerticalConflict(init);
          FirstIndexAfterAppend(init, last, Down);
          FirstIndexAfterAppend(init, last, Up);
        }
      }
    }
  }

  /**
   * Conflicting controls: the set visits controls in order of first press,
   * and each visit overwrites its axis, so of two opposite controls the one
   * first pressed later wins.
   */
  lemma ConflictFollowsFirstOccurrence(pressed: seq<Control>)
    ensures Right in pressed && Left in pressed ==>
      GetPlayerVelocity(pressed).0
        == if FirstIndex(pressed, Left) < FirstIndex(pressed, Right) then PLAYER_SPEED else -PLAYER_SPEED
    ensures Down in pressed && Up in pressed ==>
      GetPlayerVelocity(pressed).1
        == if FirstIndex(pressed, Up) < FirstIndex(pressed, Down) then PLAYER_SPEED else -PLAYER_SPEED
  {
    HorizontalConflict(pressed);
    VerticalConflict(pressed);
  }

  /** The rule on concrete inputs. */
  lemma ConflictExamples()
    ensures GetPlayerVelocity([Right, Left]) == (-PLAYER_SPEED, 0)
    ensures GetPlayerVelocity([Left, Right, Left]) == (PLAYER_SPEED, 0)
    ensures GetPlayerVelocity([Up, Down, Right]) == (PLAYER_SPEED, PLAYER_SPEED)
  {
    assert [Right, Left][..1] == [Right];
    assert [Left, Right, Left][..2] == [Left, Right];
    assert [Left, Right][..1] == [Left];
    assert [Up, Down, Right][..2] == [Up, Down];
    assert [Up, Down][..1] == [Up];
  }

  /** `playerToPlayerState`: drops the id and the velocity. */
  function PlayerToPlayerState(p: TsPlayer): (s: PlayerState)
    ensures s.color == p.color && s.x == p.x && s.y == p.y && s.age == p.age
  {
    PlayerState(p.color, p.x, p.y, p.age)
  }

  /** Velocity is invisible to clients: two players differing only in velocity look the same. */
  lemma StateIgnoresVelocity(p: TsPlayer, vx: int, vy: int)
    ensures PlayerToPlayerState(p.(vx := vx, vy := vy)) == PlayerToPlayerState(p)
  {
  }
}
