/**
 * The countdown cell of a holiday row: "Passed" for a holiday whose instant
 * lies before now, otherwise whole days, hours modulo 24 and minutes modulo 60
 * until it. Instants are integers in milliseconds and `now` is a single
 * parameter read once.
 */
module Countdown {

  const MsPerMinute: int := 60000
  const MsPerHour: int := 3600000
  const MsPerDay: int := 86400000

  /** What the countdown cell shows. */
  datatype Countdown = Passed | Remaining(days: int, hours: int, minutes: int)

  /**
   * Division rounding toward zero, as the date library's difference in whole
   * units rounds (Dafny's own `/` rounds toward negative infinity for a
   * negative dividend).
   */
  function TruncDiv(a: int, b: int): (q: int)
    requires b > 0
    ensures a >= 0 ==> q == a / b
    ensures a <= 0 ==> q <= 0
  {
    if a >= 0 then a / b else -((-a) / b)
  }

  /**
   * TruncDiv rounds toward zero: for a non-negative dividend it is the
   * largest whole count of `b` not above it, for a negative one the smallest
   * whole count not below it.
   */
  lemma TruncDivRoundsTowardZero(a: int, b: int)
    requires b > 0
    ensures a >= 0 ==> 0 <= TruncDiv(a, b) && b * TruncDiv(a, b) <= a < b * TruncDiv(a, b) + b
    ensures a < 0 ==> TruncDiv(a, b) <= 0 && b * TruncDiv(a, b) - b < a <= b * TruncDiv(a, b)
  {
    if a >= 0 {
      var q, r := a / b, a % b;
      assert a == b * q + r && 0 <= r < b;
      assert q >= 0 by { NonNegQuotient(a, b); }
    } else {
      var q, r := (-a) / b, (-a) % b;
      assert -a == b * q + r && 0 <= r < b;
      assert q >= 0 by { NonNegQuotient(-a, b); }
      assert b * (-q) == -(b * q);
    }
  }

  lemma NonNegQuotient(a: int, b: int)
    requires a >= 0 && b > 0
    ensures a / b >= 0
  {
  }

  /** JavaScript's `%`: the remainder takes the sign of the dividend. */
  function JsRem(a: int, b: int): (r: int)
    requires b > 0
    ensures a >= 0 ==> 0 <= r < b
    ensures a < 0 ==> -b < r <= 0
    ensures a == b * TruncDiv(a, b) + r
  {
    a - b * TruncDiv(a, b)
  }

  /** The whole `unit`s from `now` until `t`: `moment(t).diff(now, unit)`. */
  function Diff(t: int, now: int, unit: int): (n: int)
    requires unit > 0
    ensures t >= now ==> n >= 0 && n == (t - now) / unit
    ensures t <= now ==> n <= 0
  {
    TruncDiv(t - now, unit)
  }

  /** The countdown shown for a holiday at instant `t` when the clock reads `now`. */
  function CountdownAt(t: int, now: int): (c: Countdown)
    ensures c.Passed? <==> t < now
  {
    if t < now then Passed
    else Remaining(Diff(t, now, MsPerDay), JsRem(Diff(t, now, MsPerHour), 24), JsRem(Diff(t, now, MsPerMinute), 60))
  }

  /** Each figure of a countdown lies within its unit's range. */
  lemma CountdownBounds(t: int, now: int)
    requires t >= now
    ensures CountdownAt(t, now).Remaining?
    ensures CountdownAt(t, now).days >= 0
    ensures 0 <= CountdownAt(t, now).hours < 24
    ensures 0 <= CountdownAt(t, now).minutes < 60
  {
  }

  /**
   * The three figures are taken from one duration: days and hours recompose
   * the whole hours until `t`, and days, hours and minutes recompose the
   * whole minutes until `t`.
   */
  lemma CountdownRecomposes(t: int, now: int)
    requires t >= now
    ensures CountdownAt(t, now).days * 24 + CountdownAt(t, now).hours == (t - now) / MsPerHour
    ensures CountdownAt(t, now).days * 1440 + CountdownAt(t, now).hours * 60 + CountdownAt(t, now).minutes
            == (t - now) / MsPerMinute
  {
    var d := t - now;
    var m, h := d / MsPerMinute, d / MsPerHour;
    MinutesToHours(d);
    HoursToDays(d);
    assert h == m / 60;
    assert d / MsPerDay == h / 24;
    assert h == 24 * (h / 24) + h % 24;
    assert m == 60 * h + m % 60;
  }

  /** Whole hours are whole minutes divided by 60. */
  lemma MinutesToHours(d: int)
    requires d >= 0
    ensures d / MsPerMinute / 60 == d / MsPerHour
  {
  }

  /** Whole days are whole hours divided by 24. */
  lemma HoursToDays(d: int)
    requires d >= 0
    ensures d / MsPerHour / 24 == d / MsPerDay
  {
  }

  /** A holiday at exactly `now` is not passed and shows no time remaining. */
  lemma CountdownAtNow(now: int)
    ensures CountdownAt(now, now) == Remaining(0, 0, 0)
  {
  }
}
