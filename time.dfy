/**
 * Time is a count of milliseconds on a single fixed clock. Days are aligned
 * to multiples of DAY, so "midnight" is a timestamp divisible by DAY and the
 * server-local timezone of the original is abstracted to that clock.
 */
module Time {

  /** Milliseconds in one day. */
  const DAY: int := 86_400_000

  /** Midnight at the start of the day that contains `t`. */
  function StartOfDay(t: int): (r: int)
    ensures r <= t < r + DAY
    ensures r % DAY == 0
  {
    t - t % DAY
  }

  /** 23:59:59.999 of the day that contains `t`: the last millisecond of that day. */
  function EndOfDay(t: int): (r: int)
    ensures t <= r < t + DAY
    ensures StartOfDay(r) == StartOfDay(t)
    ensures StartOfDay(r + 1) == StartOfDay(t) + DAY
  {
    var s := StartOfDay(t);
    MidnightIsUnique(s + DAY - 1, s);
    MidnightIsUnique(s + DAY, s + DAY);
    s + DAY - 1
  }

  /** A midnight `m` with `m <= t < m + DAY` is the start of the day of `t`. */
  lemma MidnightIsUnique(t: int, m: int)
    requires m % DAY == 0 && m <= t < m + DAY
    ensures StartOfDay(t) == m
  {
    var s := StartOfDay(t);
    assert (s - m) % DAY == 0;
    assert -DAY < s - m < DAY;
  }

  /** Shifting a time by whole days shifts its midnight by the same days. */
  lemma StartOfDayShift(t: int, days: int)
    ensures StartOfDay(t + days * DAY) == StartOfDay(t) + days * DAY
  {
    var m := StartOfDay(t) + days * DAY;
    assert m % DAY == 0;
    MidnightIsUnique(t + days * DAY, m);
  }
}
