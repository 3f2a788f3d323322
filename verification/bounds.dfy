/**
 * The two ways the server generations keep a player inside the arena:
 * saturation (the Java platformer servers push the position back onto the
 * wall) and rejection (the simpler servers refuse a move that would leave
 * the arena and keep the old coordinate).
 */
module Bounds {

  /** Reference definition of clamping `v` into `[lo, hi]`. */
  function Saturate(v: int, lo: int, hi: int): (r: int)
    requires lo <= hi
    ensures lo <= r <= hi
    ensures lo <= v <= hi ==> r == v
    ensures v < lo ==> r == lo
    ensures v > hi ==> r == hi
  {
    if v < lo then lo else if v > hi then hi else v
  }

  /**
   * One axis of a rejecting move: `pos + vel` is taken only if the box of
   * extent `size` starting there stays inside `[0, limit]`.
   */
  function StepWithin(pos: int, vel: int, size: int, limit: int): (r: int)
    ensures r == pos || r == pos + vel
    ensures r == pos + vel <==> vel == 0 || (0 <= pos + vel && pos + vel + size <= limit)
  {
    var next := pos + vel;
    if 0 <= next && next + size <= limit then next else pos
  }

  /** A coordinate whose box of extent `size` lies inside `[0, limit]`. */
  predicate InsideAxis(pos: int, size: int, limit: int)
  {
    0 <= pos && pos + size <= limit
  }

  /** A rejecting move never takes an in-bounds coordinate out of bounds. */
  lemma StepWithinStaysInside(pos: int, vel: int, size: int, limit: int)
    requires InsideAxis(pos, size, limit)
    ensures InsideAxis(StepWithin(pos, vel, size, limit), size, limit)
  {
  }

  /** Against a wall with velocity pointing outward, the coordinate does not move. */
  lemma StepWithinAtWall(pos: int, vel: int, size: int, limit: int)
    requires (pos == 0 && vel < 0) || (pos + size == limit && vel > 0)
    ensures StepWithin(pos, vel, size, limit) == pos
  {
  }
}
