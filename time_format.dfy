/**
 * App.js `format`: seconds to the clock label shown beside the seek bar.
 * The label is read off a UTC `Date` built from `seconds * 1000`, so the
 * model follows the Date semantics: `TimeClip` turns an infinite value or
 * one beyond 8.64e15 ms into an invalid date, truncates toward zero to
 * whole milliseconds, and `getUTCHours`/`getUTCMinutes`/`getUTCSeconds`
 * take floor quotients modulo 24, 60 and 60.
 */
module TimeFormat {
  import opened Wrappers
  import opened Decimal
  import opened JsNumber

  /** The largest magnitude of a valid time value, in milliseconds. */
  const MaxTimeMs: real := 8640000000000000.0
  const SecondsPerDay: nat := 86400

  datatype DateValue = InvalidDate | TimeValue(ms: int)

  /** `new Date(ms)`: `TimeClip` of a number. */
  function MakeDate(ms: Num): (d: DateValue)
    ensures d.TimeValue? <==> ms.Finite? && -MaxTimeMs <= ms.r <= MaxTimeMs
    ensures d.TimeValue? ==> d.ms == Trunc(ms.r)
  {
    if ms.Finite? && -MaxTimeMs <= ms.r <= MaxTimeMs then TimeValue(Trunc(ms.r)) else InvalidDate
  }

  /** `seconds * 1000`. */
  function ToMillis(seconds: Num): (ms: Num)
    ensures seconds.Finite? ==> ms == Finite(seconds.r * 1000.0)
    ensures !seconds.Finite? ==> ms == seconds
  {
    if seconds.Finite? then Finite(seconds.r * 1000.0) else seconds
  }

  /** `getUTCHours()`: whole hours of the time value, modulo 24. */
  function UtcHours(t: int): (h: nat)
    ensures h < 24 && (t / 3600000 - h) % 24 == 0
  {
    (t / 3600000) % 24
  }

  /** `getUTCMinutes()`: whole minutes of the time value, modulo 60. */
  function UtcMinutes(t: int): (m: nat)
    ensures m < 60 && (t / 60000 - m) % 60 == 0
  {
    (t / 60000) % 60
  }

  /** `getUTCSeconds()`: whole seconds of the time value, modulo 60. */
  function UtcSeconds(t: int): (s: nat)
    ensures s < 60 && (t / 1000 - s) % 60 == 0
  {
    (t / 1000) % 60
  }

  /**
   * The label assembled from the three UTC fields: minutes and seconds
   * padded to two digits, hours unpadded and present only when nonzero.
   */
  function Label(hh: nat, mm: nat, ss: nat): (s: string)
    requires mm < 60 && ss < 60
    ensures hh == 0 <==> |s| == 5
    ensures |s| >= 5 && IsDigit(s[0]) && s[|s| - 3] == ':'
    ensures hh != 0 ==> |s| == |NatStr(hh)| + 6 && s[0] != '0' && s[|s| - 6] == ':'
  {
    if hh != 0 then NatStr(hh) + ":" + Pad2(mm) + ":" + Pad2(ss)
    else Pad2(mm) + ":" + Pad2(ss)
  }

  /**
   * App.js `format`. NaN gives "00:00"; an invalid date has NaN fields,
   * which print as "NaN" and make the hour test falsy, giving "NaN:NaN".
   */
  function Format(seconds: Num): (s: string)
    ensures |s| >= 5 && s[0] != '-'
  {
    if seconds.NaN? then "00:00"
    else match MakeDate(ToMillis(seconds))
      case InvalidDate => "NaN:NaN"
      case TimeValue(t) => Label(UtcHours(t), UtcMinutes(t), UtcSeconds(t))
  }

  /**
   * Independent reference: the second of the UTC day that a finite,
   * in-range input denotes, or None where `Format` has no clock reading.
   */
  function SecondOfDay(seconds: Num): (d: Option<nat>)
    ensures d.Some? ==> d.value < SecondsPerDay
    ensures d.Some? <==> seconds.Finite? && -MaxTimeMs <= seconds.r * 1000.0 <= MaxTimeMs
  {
    if seconds.Finite? && -MaxTimeMs <= seconds.r * 1000.0 <= MaxTimeMs
    then Some((Trunc(seconds.r * 1000.0) / 1000) % SecondsPerDay)
    else None
  }

  /** Reads a clock label back into (hours, minutes, seconds). */
  function ParseClock(s: string): Option<(nat, nat, nat)>
  {
    if |s| == 5 then
      if AllDigits(s[..2]) && s[2] == ':' && AllDigits(s[3..])
      then Some((0, ValueOf(s[..2]), ValueOf(s[3..])))
      else None
    else if |s| >= 7 && s[0] != '0' && s[|s| - 6] == ':' && s[|s| - 3] == ':'
         && AllDigits(s[..|s| - 6]) && AllDigits(s[|s| - 5..|s| - 3]) && AllDigits(s[|s| - 2..])
    then Some((ValueOf(s[..|s| - 6]), ValueOf(s[|s| - 5..|s| - 3]), ValueOf(s[|s| - 2..])))
    else None
  }

  /** A label reads back as the fields it was built from. */
  lemma LabelRoundTrip(hh: nat, mm: nat, ss: nat)
    requires mm < 60 && ss < 60
    ensures ParseClock(Label(hh, mm, ss)) == Some((hh, mm, ss))
  {
    var s := Label(hh, mm, ss);
    var m, c := Pad2(mm), Pad2(ss);
    if hh == 0 {
      assert s == m + ":" + c;
      assert s[..2] == m && s[3..] == c;
    } else {
      var h := NatStr(hh);
      ValueOfNatStr(hh);
      assert s == h + ":" + m + ":" + c;
      assert s[..|s| - 6] == h;
      assert s[|s| - 5..|s| - 3] == m;
      assert s[|s| - 2..] == c;
    }
  }

  /** Hours of the millisecond count are hours of the whole-second count. */
  lemma MillisToHours(t: int)
    ensures t / 3600000 == (t / 1000) / 3600
  {
    var sec := t / 1000;
    assert t == 3600000 * (sec / 3600) + (1000 * (sec % 3600) + t % 1000);
  }

  /** Minutes of the millisecond count are minutes of the whole-second count. */
  lemma MillisToMinutes(t: int)
    ensures t / 60000 == (t / 1000) / 60
  {
    var sec := t / 1000;
    assert t == 60000 * (sec / 60) + (1000 * (sec % 60) + t % 1000);
  }

  /** The hour of the day, from whole seconds. */
  lemma HourOfDay(sec: int)
    ensures (sec / 3600) % 24 == (sec % 86400) / 3600
  {
    var q, d := sec / 86400, sec % 86400;
    assert sec == 3600 * (24 * q + d / 3600) + d % 3600;
    assert sec / 3600 == 24 * q + d / 3600;
  }

  /** Minutes counted from an hour boundary. */
  lemma MinuteWithinHour(d: int)
    ensures (d / 60) % 60 == (d % 3600) / 60
  {
    var h, r := d / 3600, d % 3600;
    assert d == 60 * (60 * h + r / 60) + r % 60;
    assert d / 60 == 60 * h + r / 60;
  }

  /** Whole hours do not change the minute of the hour. */
  lemma MinuteSkipsHours(k: int, m: int)
    ensures (60 * k + m) % 60 == m % 60
  {
    var r := m % 60;
    assert 60 * k + m == 60 * (k + m / 60) + r;
  }

  /** The minute of the hour, from whole seconds. */
  lemma MinuteOfHour(sec: int)
    ensures (sec / 60) % 60 == ((sec % 86400) % 3600) / 60
  {
    var q, d := sec / 86400, sec % 86400;
    assert sec == 60 * (1440 * q + d / 60) + d % 60;
    assert sec / 60 == 60 * (24 * q) + d / 60;
    MinuteSkipsHours(24 * q, d / 60);
    MinuteWithinHour(d);
  }

  /** The second of the minute, from whole seconds. */
  lemma SecondOfMinute(sec: int)
    ensures sec % 60 == (sec % 86400) % 60
  {
    var q, d := sec / 86400, sec % 86400;
    assert sec == 60 * (1440 * q) + d;
  }

  /** The UTC getters agree with splitting the second of the day. */
  lemma UtcFieldsOfDay(t: int)
    ensures var d := (t / 1000) % SecondsPerDay;
      UtcHours(t) == d / 3600 && UtcMinutes(t) == (d % 3600) / 60 && UtcSeconds(t) == d % 60
  {
    MillisToHours(t);
    MillisToMinutes(t);
    HourOfDay(t / 1000);
    MinuteOfHour(t / 1000);
    SecondOfMinute(t / 1000);
  }

  /** For a valid date, `Format` is the label of the second of the day. */
  lemma FormatOfDay(seconds: Num, d: nat)
    requires SecondOfDay(seconds) == Some(d)
    ensures Format(seconds) == Label(d / 3600, (d % 3600) / 60, d % 60)
  {
    var t := Trunc(seconds.r * 1000.0);
    assert MakeDate(ToMillis(seconds)) == TimeValue(t);
    assert d == (t / 1000) % SecondsPerDay;
    UtcFieldsOfDay(t);
    assert Format(seconds) == Label(UtcHours(t), UtcMinutes(t), UtcSeconds(t));
  }

  /** For a valid date, `Format` prints exactly the second of the day. */
  lemma FormatReadsBack(seconds: Num, d: nat)
    requires SecondOfDay(seconds) == Some(d)
    ensures ParseClock(Format(seconds)) == Some((d / 3600, (d % 3600) / 60, d % 60))
  {
    FormatOfDay(seconds, d);
    LabelRoundTrip(d / 3600, (d % 3600) / 60, d % 60);
  }

  /** Different fields give different labels. */
  lemma LabelInjective(h1: nat, m1: nat, s1: nat, h2: nat, m2: nat, s2: nat)
    requires m1 < 60 && s1 < 60 && m2 < 60 && s2 < 60
    requires Label(h1, m1, s1) == Label(h2, m2, s2)
    ensures h1 == h2 && m1 == m2 && s1 == s2
  {
    LabelRoundTrip(h1, m1, s1);
    LabelRoundTrip(h2, m2, s2);
  }

  /** A second of the day is determined by its hours, minutes and seconds. */
  lemma DaySplitInjective(d1: nat, d2: nat)
    requires d1 / 3600 == d2 / 3600 && (d1 % 3600) / 60 == (d2 % 3600) / 60 && d1 % 60 == d2 % 60
    ensures d1 == d2
  {
    assert d1 == 3600 * (d1 / 3600) + 60 * ((d1 % 3600) / 60) + d1 % 60;
    assert d2 == 3600 * (d2 / 3600) + 60 * ((d2 % 3600) / 60) + d2 % 60;
  }

  /** Two valid inputs get the same label exactly when they fall on the same second of the day. */
  lemma FormatSameIff(x: Num, y: Num)
    requires SecondOfDay(x).Some? && SecondOfDay(y).Some?
    ensures Format(x) == Format(y) <==> SecondOfDay(x) == SecondOfDay(y)
  {
    var dx, dy := SecondOfDay(x).value, SecondOfDay(y).value;
    FormatOfDay(x, dx);
    FormatOfDay(y, dy);
    if Format(x) == Format(y) {
      LabelInjective(dx / 3600, (dx % 3600) / 60, dx % 60, dy / 3600, (dy % 3600) / 60, dy % 60);
      DaySplitInjective(dx, dy);
    }
  }

  /** A whole number of seconds is read modulo one day. */
  lemma WholeSecondOfDay(n: int)
    requires -8640000000000 <= n <= 8640000000000
    ensures SecondOfDay(Finite(n as real)) == Some(n % SecondsPerDay)
  {
    assert (n as real) * 1000.0 == (n * 1000) as real;
    assert Trunc((n as real) * 1000.0) == n * 1000;
    assert (n * 1000) / 1000 == n;
  }

  /** The label of a whole number of seconds: hours wrap every 24 h. */
  lemma FormatWholeSeconds(n: int)
    requires -8640000000000 <= n <= 8640000000000
    ensures var d := n % SecondsPerDay;
      Format(Finite(n as real)) == Label(d / 3600, (d % 3600) / 60, d % 60)
  {
    WholeSecondOfDay(n);
    FormatOfDay(Finite(n as real), n % SecondsPerDay);
  }

  /** One day later the label is the same. */
  lemma FormatWrapsDaily(n: int)
    requires -8640000000000 <= n && n + 86400 <= 8640000000000
    ensures Format(Finite((n + 86400) as real)) == Format(Finite(n as real))
  {
    FormatWholeSeconds(n);
    FormatWholeSeconds(n + 86400);
    assert (n + 86400) % 86400 == n % 86400;
    assert (n + 86400) % 3600 == n % 3600;
    assert (n + 86400) % 60 == n % 60;
  }

  /**
   * The daily wrap needs whole seconds: truncation toward zero puts
   * -0.0005 s on midnight but 86399.9995 s on the last second of the day.
   */
  lemma FractionalTimesDoNotWrapDaily()
    ensures Format(Finite(-0.0005)) != Format(Finite(-0.0005 + 86400.0))
  {
    assert Trunc(-0.0005 * 1000.0) == 0;
    assert SecondOfDay(Finite(-0.0005)) == Some(0);
    assert Trunc((-0.0005 + 86400.0) * 1000.0) == 86399999;
    assert SecondOfDay(Finite(-0.0005 + 86400.0)) == Some(86399);
    FormatSameIff(Finite(-0.0005), Finite(-0.0005 + 86400.0));
  }

  /** Inputs without a clock reading: NaN (and the placeholder) give "00:00", the rest "NaN:NaN". */
  lemma FormatWithoutDate(x: Num)
    requires SecondOfDay(x).None?
    ensures Format(x) == (if x.NaN? then "00:00" else "NaN:NaN")
  {
  }

  /** Midnight prints as "00:00". */
  lemma LabelMidnight()
    ensures Label(0, 0, 0) == "00:00"
  {
    assert Pad2(0) == "00";
  }

  /** "00:00" is printed for NaN and for midnight, and for nothing else. */
  lemma FormatZeroIff(x: Num)
    ensures Format(x) == "00:00" <==> x.NaN? || SecondOfDay(x) == Some(0)
  {
    LabelMidnight();
    if SecondOfDay(x).Some? {
      var d := SecondOfDay(x).value;
      FormatOfDay(x, d);
      if Format(x) == "00:00" {
        LabelInjective(d / 3600, (d % 3600) / 60, d % 60, 0, 0, 0);
        DaySplitInjective(d, 0);
      }
    }
  }

  /** 65 seconds: minutes and seconds padded, no hour field. */
  lemma FormatExampleMinutes()
    ensures Format(Finite(65.0)) == "01:05"
  {
    FormatWholeSeconds(65);
    assert 65 % SecondsPerDay == 65 && 65 / 3600 == 0 && (65 % 3600) / 60 == 1 && 65 % 60 == 5;
    assert Pad2(1) == "01" && Pad2(5) == "05";
    assert Label(0, 1, 5) == "01:05";
  }

  /** 3661 seconds: an unpadded hour field in front. */
  lemma FormatExampleHours()
    ensures Format(Finite(3661.0)) == "1:01:01"
  {
    FormatWholeSeconds(3661);
    assert 3661 % SecondsPerDay == 3661 && 3661 / 3600 == 1 && (3661 % 3600) / 60 == 1 && 3661 % 60 == 1;
    assert NatStr(1) == "1" && Pad2(1) == "01";
    assert Label(1, 1, 1) == "1:01:01";
  }

  /** One whole day, NaN, the placeholder and an infinite time. */
  lemma FormatExamplesDegenerate()
    ensures Format(Finite(86400.0)) == "00:00"
    ensures Format(ToNumber(Placeholder)) == "00:00"
    ensures Format(PosInf) == "NaN:NaN"
  {
    FormatWholeSeconds(86400);
    LabelMidnight();
  }
}
