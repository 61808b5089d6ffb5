/**
 * The part of java.time.LocalTime the replay windower uses: a time of day
 * at one-second precision, `plusMinutes`, `isBefore`, and `parse` of the
 * forms HH:mm and HH:mm:ss.
 */
module LocalTime {
  import opened Wrappers
  import opened Strings

  const SecondsPerDay: int := 86400
  const MinutesPerDay: int := 1440

  /** Seconds since midnight. */
  type Time = t: int | 0 <= t < 86400

  /**
   * Java's `a % MINUTES_PER_DAY`, which truncates toward zero (Dafny's `%`
   * is Euclidean): its result has the sign of `a`.
   */
  function JavaRemDay(a: int): (r: int)
    ensures -MinutesPerDay < r < MinutesPerDay
    ensures (a - r) % MinutesPerDay == 0
    ensures a >= 0 ==> r >= 0
    ensures a <= 0 ==> r <= 0
  {
    if a >= 0 then
      DivMod(a);
      a % MinutesPerDay
    else
      DivMod(-a);
      assert a - -((-a) % MinutesPerDay) == MinutesPerDay * -((-a) / MinutesPerDay);
      MultipleMod(-((-a) / MinutesPerDay));
      -((-a) % MinutesPerDay)
  }

  /** A non-negative number less its remainder is a multiple of the day. */
  lemma DivMod(a: int)
    requires a >= 0
    ensures a - a % MinutesPerDay == MinutesPerDay * (a / MinutesPerDay)
    ensures (a - a % MinutesPerDay) % MinutesPerDay == 0
  {
    MultipleMod(a / MinutesPerDay);
  }

  lemma MultipleMod(q: int)
    ensures (MinutesPerDay * q) % MinutesPerDay == 0
  {
  }

  lemma ModOfScaled(x: int, sec: int)
    requires 0 <= sec < 60
    ensures (60 * x + sec) % SecondsPerDay == 60 * (x % MinutesPerDay) + sec
  {
    var q := x / MinutesPerDay;
    assert x == MinutesPerDay * q + x % MinutesPerDay;
    assert 60 * x + sec == SecondsPerDay * q + (60 * (x % MinutesPerDay) + sec);
  }

  lemma ModShift(a: int, b: int, c: int)
    requires (a - b) % MinutesPerDay == 0
    ensures (a + c) % MinutesPerDay == (b + c) % MinutesPerDay
  {
    var k := (a - b) / MinutesPerDay;
    assert a - b == MinutesPerDay * k;
    assert a + c == (b + c) + MinutesPerDay * k;
  }

  /**
   * LocalTime.plusMinutes as java.time computes it: the minute of the day
   * moves modulo a day and the second of the minute is kept. Its meaning is
   * adding the minutes and wrapping around midnight.
   */
  function PlusMinutes(t: Time, minutes: int): (r: Time)
    ensures r == (t + 60 * minutes) % SecondsPerDay
  {
    if minutes == 0 then t
    else
      var mofd := t / 60;
      var newMofd := (JavaRemDay(minutes) + mofd + MinutesPerDay) % MinutesPerDay;
      PlusMinutesFields(t, minutes);
      if mofd == newMofd then t else newMofd * 60 + t % 60
  }

  /** The minute-of-day arithmetic of plusMinutes: the new minute of the day and the kept second. */
  lemma PlusMinutesFields(t: Time, minutes: int)
    ensures var mofd := t / 60;
      var newMofd := (JavaRemDay(minutes) + mofd + MinutesPerDay) % MinutesPerDay;
      && 0 <= newMofd < MinutesPerDay && 0 <= t % 60 < 60 && t == 60 * mofd + t % 60
      && (t + 60 * minutes) % SecondsPerDay == 60 * newMofd + t % 60
  {
    var mofd := t / 60;
    var r := JavaRemDay(minutes);
    ModShift(r + MinutesPerDay, minutes, mofd);
    ModOfScaled(mofd + minutes, t % 60);
    assert t + 60 * minutes == 60 * (mofd + minutes) + t % 60;
  }

  /** LocalTime.isBefore. */
  predicate IsBefore(a: Time, b: Time) {
    a < b
  }

  /** Without a wrap past midnight, adding minutes is plain addition. */
  lemma PlusMinutesNoWrap(t: Time, minutes: int)
    requires 0 <= t + 60 * minutes < SecondsPerDay
    ensures PlusMinutes(t, minutes) == t + 60 * minutes
  {
  }

  /**
   * When adding less than a day of minutes wraps past midnight, the limit
   * lies before `t`, so no time at or after `t` is before the limit.
   */
  lemma PlusMinutesWraps(t: Time, minutes: int, later: Time)
    requires 0 <= minutes < MinutesPerDay
    requires t + 60 * minutes >= SecondsPerDay
    requires t <= later
    ensures PlusMinutes(t, minutes) == t + 60 * minutes - SecondsPerDay
    ensures !IsBefore(later, PlusMinutes(t, minutes))
  {
  }

  // ---------------------------------------------------------------------
  // LocalTime.parse and its inverse

  function TwoDigits(s: string, at: nat): (v: nat)
    requires at + 2 <= |s| && IsDigit(s[at]) && IsDigit(s[at + 1])
    ensures v < 100
  {
    10 * DigitValue(s[at]) + DigitValue(s[at + 1])
  }

  /**
   * LocalTime.parse for HH:mm and HH:mm:ss (hours below 24, minutes and
   * seconds below 60); None is the DateTimeParseException.
   */
  function ParseTime(s: string): (t: Option<Time>)
    ensures t.Some? ==> |s| == 5 || |s| == 8
  {
    if (|s| == 5 || |s| == 8)
       && IsDigit(s[0]) && IsDigit(s[1]) && s[2] == ':' && IsDigit(s[3]) && IsDigit(s[4])
       && (|s| == 8 ==> s[5] == ':' && IsDigit(s[6]) && IsDigit(s[7]))
    then
      var h, m := TwoDigits(s, 0), TwoDigits(s, 3);
      var sec := if |s| == 8 then TwoDigits(s, 6) else 0;
      if h < 24 && m < 60 && sec < 60 then Some(h * 3600 + m * 60 + sec) else None
    else None
  }

  function Pad2(n: nat): (s: string)
    requires n < 100
    ensures |s| == 2 && IsDigit(s[0]) && IsDigit(s[1]) && TwoDigits(s, 0) == n
  {
    [DigitChar(n / 10), DigitChar(n % 10)]
  }

  /** A time rendered as HH:mm:ss. */
  function TimeToString(t: Time): string
  {
    Pad2(t / 3600) + ":" + Pad2(t % 3600 / 60) + ":" + Pad2(t % 60)
  }

  /** Parsing a rendered time gives it back. */
  lemma ParseTimeToString(t: Time)
    ensures ParseTime(TimeToString(t)) == Some(t)
  {
    var h, m, sec := t / 3600, t % 3600 / 60, t % 60;
    TimeFields(t);
    var s := TimeToString(t);
    var ph, pm, ps := Pad2(h), Pad2(m), Pad2(sec);
    assert s == ph + ":" + pm + ":" + ps;
    assert s[0] == ph[0] && s[1] == ph[1] && s[2] == ':';
    assert s[3] == pm[0] && s[4] == pm[1] && s[5] == ':';
    assert s[6] == ps[0] && s[7] == ps[1];
    assert TwoDigits(s, 0) == TwoDigits(ph, 0);
    assert TwoDigits(s, 3) == TwoDigits(pm, 0);
    assert TwoDigits(s, 6) == TwoDigits(ps, 0);
  }

  /** The hour, minute and second fields of a time recompose it. */
  lemma TimeFields(t: Time)
    ensures t / 3600 < 24 && t % 3600 / 60 < 60 && t % 60 < 60
    ensures t / 3600 * 3600 + t % 3600 / 60 * 60 + t % 60 == t
  {
    var q, r := t / 3600, t % 3600;
    var a, b := r / 60, r % 60;
    assert t == 3600 * q + r;
    assert r == 60 * a + b;
    assert t == 60 * (60 * q + a) + b;
    assert t % 60 == b;
  }
}
