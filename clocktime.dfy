/**
 * The clock's reading of a timestamp and the angles of its three hands.
 * The timestamp is read in UTC, so the calendar split is plain floor
 * division; the hour is on a 12-hour dial running 1..12. Angles are in
 * degrees, clockwise from twelve o'clock.
 */
module ClockTime {

  datatype Time = Time(hour: int, minute: int, second: int)

  /** The hour (`date('h')`, 1..12), minute (`date('i')`) and second
      (`date('s')`) of a UTC timestamp. */
  function SplitTime(t: int): (c: Time)
    ensures 1 <= c.hour <= 12 && 0 <= c.minute < 60 && 0 <= c.second < 60
    ensures (c.hour % 12) * 3600 + c.minute * 60 + c.second == t % 43200
  {
    var h := (t / 3600) % 24 % 12;
    var c := Time(if h == 0 then 12 else h, (t / 60) % 60, t % 60);
    HalfDayDecomposition(t);
    c
  }

  /** The seconds into a half day, split into hours, minutes and seconds. */
  lemma HalfDayDecomposition(t: int)
    ensures ((t / 3600) % 24 % 12) * 3600 + ((t / 60) % 60) * 60 + t % 60 == t % 43200
  {
    var r := t % 43200;
    MinutesOfHalfDay(t);
    HoursOfHalfDay(t);
    SplitBelowHalfDay(r);
  }

  /** Whole minutes and seconds pass in step with whole half days. */
  lemma MinutesOfHalfDay(t: int)
    ensures (t / 60) % 60 == ((t % 43200) / 60) % 60
    ensures t % 60 == (t % 43200) % 60
  {
    var q, r := t / 43200, t % 43200;
    var a, b := r / 60, r % 60;
    DivideBy(t, 60, 720 * q + a, b);
    DivideBy(720 * q + a, 60, 12 * q + a / 60, a % 60);
  }

  /** Whole hours on the twelve-hour dial are the hours into the half day. */
  lemma HoursOfHalfDay(t: int)
    ensures (t / 3600) % 24 % 12 == (t % 43200) / 3600
  {
    var q, r := t / 43200, t % 43200;
    var a, b := r / 3600, r % 3600;
    DivideBy(t, 3600, 12 * q + a, b);
    DivideBy(12 * q + a, 24, (12 * q + a) / 24, (12 * q + a) % 24);
    DivideBy(12 * q + a, 12, q, a);
  }

  /** Quotient and remainder are the only split of `n` into multiples of
      `d` and a rest below `d`. */
  lemma DivideBy(n: int, d: int, k: int, b: int)
    requires d > 0 && n == d * k + b && 0 <= b < d
    ensures n / d == k && n % d == b
  {
    var k', b' := n / d, n % d;
    if k' < k {
      assert d * k == d * k' + d * (k - k');
      AtLeastOnce(d, k - k');
    } else if k' > k {
      assert d * k' == d * k + d * (k' - k);
      AtLeastOnce(d, k' - k);
    }
  }

  /** A positive multiple of a positive number is at least that number. */
  lemma {:induction false} AtLeastOnce(d: int, m: int)
    requires d > 0 && m >= 1
    ensures d * m >= d
    decreases m
  {
    if m > 1 {
      AtLeastOnce(d, m - 1);
      assert d * m == d * (m - 1) + d;
    }
  }

  /** A count of seconds below a half day, split into hours, minutes and seconds. */
  lemma SplitBelowHalfDay(r: int)
    requires 0 <= r < 43200
    ensures (r / 3600) * 3600 + ((r / 60) % 60) * 60 + r % 60 == r
  {
    assert r / 60 == 60 * (r / 3600) + (r / 60) % 60;
  }

  /** The second hand: six degrees per second. */
  function SecondAngle(c: Time): (a: real)
    requires 0 <= c.second < 60
    ensures 0.0 <= a <= 354.0
  {
    (360.0 / 60.0) * c.second as real
  }

  /** The minute hand: six degrees per minute, advanced by the seconds. */
  function MinuteAngle(c: Time): (a: real)
    requires 0 <= c.minute < 60 && 0 <= c.second < 60
    ensures 0.0 <= a < 360.0
  {
    (360.0 / 60.0) * (c.minute as real + c.second as real / 60.0)
  }

  /** The hour hand: thirty degrees per hour, advanced by the minutes only;
      twelve o'clock gives 360 rather than 0. */
  function HourAngle(c: Time): (a: real)
    requires 1 <= c.hour <= 12 && 0 <= c.minute < 60
    ensures 30.0 <= a < 390.0
  {
    (360.0 / 12.0) * (c.hour as real + c.minute as real / 60.0)
  }

  /** The second hand sweeps six degrees per second of the minute. */
  lemma SecondAngleOfTimestamp(t: int)
    ensures SecondAngle(SplitTime(t)) == 6.0 * (t % 60) as real
  {
  }

  /** The minute hand turns a tenth of a degree per second of the hour. */
  lemma MinuteAngleOfTimestamp(t: int)
    ensures MinuteAngle(SplitTime(t)) == (t % 3600) as real / 10.0
  {
    var c := SplitTime(t);
    var r := t % 43200;
    assert t % 3600 == c.minute * 60 + c.second by {
      assert t == 3600 * (t / 3600) + t % 3600;
      assert t / 60 == 60 * (t / 3600) + (t % 3600) / 60;
    }
  }

  /** The hour hand turns half a degree per whole minute of the half day and
      ignores the seconds; in the first hour after twelve it reads a full turn
      more, since hour 12 is not reduced to 0. */
  lemma HourAngleOfTimestamp(t: int)
    ensures var r := t % 43200;
      HourAngle(SplitTime(t)) == (r / 60) as real / 2.0 + (if r < 3600 then 360.0 else 0.0)
  {
    var c := SplitTime(t);
    var r := t % 43200;
    assert r / 60 == (c.hour % 12) * 60 + c.minute;
  }
}
