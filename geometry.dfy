/** World constants, axis-aligned rectangles and the overlap test shared by
    the level grid, the character bodies and the session. Coordinates,
    velocities and frame times are reals: IEEE rounding is not modelled. */
module Geometry {

  const TILE_SIZE: int := 32
  const GRAVITY: real := 1200.0          // px/s^2
  const MOVE_SPEED: real := 180.0        // px/s
  const JUMP_FORCE: real := 420.0        // initial upward speed, px/s
  const MAX_FALL_SPEED: real := 1000.0
  const MAX_DT: real := 0.05             // frame-time ceiling, s
  const SKIN: real := 0.001              // gap left after a push-out
  const GEM_INSET: int := 6
  const PLAYER_WIDTH: real := 24.0
  const PLAYER_HEIGHT: real := 28.0
  const MIN_COLS: int := 10

  datatype Vec = Vec(x: real, y: real)

  datatype Rect = Rect(x: real, y: real, width: real, height: real)

  /** Strict, positive-area intersection: rectangles that only touch along
      an edge do not overlap. This is the meaning assumed for raylib's
      CheckCollisionRecs. */
  predicate Overlaps(a: Rect, b: Rect)
  {
    a.x < b.x + b.width && a.x + a.width > b.x &&
    a.y < b.y + b.height && a.y + a.height > b.y
  }

  /** The index of the first rectangle in `rs` that `r` overlaps, or |rs|
      when there is none. */
  function FirstOverlap(r: Rect, rs: seq<Rect>): (k: nat)
    ensures k <= |rs|
    ensures k < |rs| ==> Overlaps(r, rs[k])
    ensures forall j :: 0 <= j < k ==> !Overlaps(r, rs[j])
    decreases |rs|
  {
    if |rs| == 0 then 0
    else if Overlaps(r, rs[0]) then 0
    else 1 + FirstOverlap(r, rs[1..])
  }

  /** Whether `r` overlaps some rectangle of `rs`. */
  predicate OverlapsAny(r: Rect, rs: seq<Rect>)
  {
    exists i :: 0 <= i < |rs| && Overlaps(r, rs[i])
  }

  lemma FirstOverlapFindsAny(r: Rect, rs: seq<Rect>)
    ensures FirstOverlap(r, rs) < |rs| <==> OverlapsAny(r, rs)
  {
    if OverlapsAny(r, rs) {
      var i :| 0 <= i < |rs| && Overlaps(r, rs[i]);
      assert FirstOverlap(r, rs) <= i;
    }
  }
}
