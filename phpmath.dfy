/**
 * The two PHP rounding built-ins the renderer relies on, on exact numbers:
 * `ceil` (palette index, clock centre) and `round` (pixel addressing).
 */
module PhpMath {

  /** `ceil`: the least integer not below `v`. */
  function Ceil(v: real): (n: int)
    ensures v <= n as real < v + 1.0
  {
    -((-v).Floor)
  }

  /** `round` with its default mode: to the nearest integer, halves away from zero. */
  function Round(v: real): (n: int)
    ensures v - 0.5 <= n as real <= v + 0.5
    ensures n as real == v + 0.5 ==> v > 0.0
    ensures n as real == v - 0.5 ==> v < 0.0
  {
    if v >= 0.0 then (v + 0.5).Floor else -((0.5 - v).Floor)
  }

  /** Rounding never reverses the order of two numbers. */
  lemma RoundMonotone(v: real, w: real)
    requires v <= w
    ensures Round(v) <= Round(w)
  {
    if v >= 0.0 {
      assert (v + 0.5).Floor <= (w + 0.5).Floor;
    } else if w < 0.0 {
      assert (0.5 - w).Floor <= (0.5 - v).Floor;
    }
  }

  /** A number between two integers rounds to an integer between them. */
  lemma RoundBetween(v: real, lo: int, hi: int)
    requires lo as real <= v <= hi as real
    ensures lo <= Round(v) <= hi
  {
    RoundMonotone(lo as real, v);
    RoundMonotone(v, hi as real);
  }

  /** Half of a non-negative integer, rounded up, is `(n + 1) / 2`. */
  lemma CeilHalf(n: int)
    requires n >= 0
    ensures Ceil(n as real / 2.0) == (n + 1) / 2
  {
    var c := Ceil(n as real / 2.0);
    assert 2 * c - 2 < n <= 2 * c by {
      assert n as real / 2.0 <= c as real < n as real / 2.0 + 1.0;
    }
  }
}
