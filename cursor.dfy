/**
 * The renderer's drawing cursor: one position, moved by `translate` calls.
 * An absolute move resets the cursor to the origin before adding its offset;
 * a relative move adds its offset to wherever the cursor is.
 */
module Cursor {

  datatype Point = Point(x: real, y: real)

  /** The arguments of one `translate($x, $y, $absolute)` call. */
  datatype Move = Move(dx: real, dy: real, absolute: bool)

  /** Where one move leaves the cursor. */
  function Step(p: Point, m: Move): (q: Point)
    ensures m.absolute ==> q == Point(m.dx, m.dy)
    ensures !m.absolute ==> q.x - p.x == m.dx && q.y - p.y == m.dy
  {
    var base := if m.absolute then Point(0.0, 0.0) else p;
    Point(base.x + m.dx, base.y + m.dy)
  }

  /** Where a series of moves, applied in order, leaves the cursor. */
  function Follow(p: Point, ms: seq<Move>): Point
    decreases |ms|
  {
    if ms == [] then p else Follow(Step(p, ms[0]), ms[1..])
  }

  /** One more move at the end takes one more step from where the others
      left the cursor. */
  lemma {:induction false} FollowSnoc(p: Point, ms: seq<Move>, m: Move)
    ensures Follow(p, ms + [m]) == Step(Follow(p, ms), m)
    decreases |ms|
  {
    if ms != [] {
      assert (ms + [m])[1..] == ms[1..] + [m];
      FollowSnoc(Step(p, ms[0]), ms[1..], m);
    }
  }

  /** The sum of the offsets of a series of moves. */
  function Offsets(ms: seq<Move>): Point
  {
    if ms == [] then Point(0.0, 0.0)
    else var rest := Offsets(ms[1..]); Point(ms[0].dx + rest.x, ms[0].dy + rest.y)
  }

  predicate AllRelative(ms: seq<Move>)
  {
    forall i :: 0 <= i < |ms| ==> !ms[i].absolute
  }

  /** Relative moves add up: the cursor ends at its start plus the sum of the offsets. */
  lemma {:induction false} RelativeMovesAdd(p: Point, ms: seq<Move>)
    requires AllRelative(ms)
    ensures Follow(p, ms) == Point(p.x + Offsets(ms).x, p.y + Offsets(ms).y)
    decreases |ms|
  {
    if ms != [] {
      assert AllRelative(ms[1..]) by {
        forall i | 0 <= i < |ms[1..]| ensures !ms[1..][i].absolute {
          assert ms[1..][i] == ms[i + 1];
        }
      }
      RelativeMovesAdd(Step(p, ms[0]), ms[1..]);
    }
  }

  /** An absolute move forgets where the cursor was: what follows it does not
      depend on the starting position. */
  lemma {:induction false} AbsoluteMoveForgets(p: Point, q: Point, ms: seq<Move>, i: nat)
    requires i < |ms| && ms[i].absolute
    ensures Follow(p, ms) == Follow(q, ms)
    decreases i
  {
    if i > 0 {
      AbsoluteMoveForgets(Step(p, ms[0]), Step(q, ms[0]), ms[1..], i - 1);
    }
  }

  /** `k` equal relative moves by `(dx, dy)` from `p` end at `p + k * (dx, dy)`. */
  lemma RepeatedMove(p: Point, dx: real, dy: real, k: nat)
    ensures Follow(p, seq(k, _ => Move(dx, dy, false))) == Point(p.x + k as real * dx, p.y + k as real * dy)
  {
    var ms := seq(k, _ => Move(dx, dy, false));
    RelativeMovesAdd(p, ms);
    OffsetsOfRepeat(dx, dy, k);
  }

  lemma {:induction false} OffsetsOfRepeat(dx: real, dy: real, k: nat)
    ensures Offsets(seq(k, _ => Move(dx, dy, false))) == Point(k as real * dx, k as real * dy)
  {
    if k > 0 {
      var ms := seq(k, _ => Move(dx, dy, false));
      assert ms[1..] == seq(k - 1, _ => Move(dx, dy, false));
      OffsetsOfRepeat(dx, dy, k - 1);
    }
  }
}
