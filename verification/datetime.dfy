/** Countdown formatting and the UTC date stamps used by the calendar export
    (src/utils/datetime.ts). The wall clock is a parameter; `toISOString` is
    rebuilt from UTC calendar components. */
module DateTime {
  import opened Optional
  import opened Decimal
  import Text

  // ---------------------------------------------------------------------
  // Countdown: getTimeUntil and formatDuration
  // ---------------------------------------------------------------------

  /** `getTimeUntil(target)` with `Date.now()` supplied as `now`; both are
      epoch milliseconds. */
  function TimeUntil(target: int, now: int): (d: int)
    ensures d <= 0 <==> now >= target
    ensures now + d == target
  {
    target - now
  }

  /** `formatDuration(ms)`: `HH:MM:SS`, the hours padded to at least two
      digits and the minutes and seconds to exactly two. */
  function FormatDuration(ms: int): string
  {
    if ms <= 0 then "00:00:00"
    else
      var seconds := (ms / 1000) % 60;
      var minutes := (ms / (1000 * 60)) % 60;
      var hours := ms / (1000 * 60 * 60);
      ZeroPad(hours, 2) + ":" + ZeroPad(minutes, 2) + ":" + ZeroPad(seconds, 2)
  }

  datatype Clock = Clock(hours: nat, minutes: nat, seconds: nat)

  /** Reads an `H…H:MM:SS` string back: three colon-separated fields of
      digits, the hours of any width and the minutes and seconds of exactly
      two digits. */
  function ReadClock(r: string): Option<Clock>
  {
    var f := Text.Split(r, ":");
    if |f| == 3 && AllDigits(f[0]) && AllDigits(f[1]) && AllDigits(f[2])
       && |f[1]| == 2 && |f[2]| == 2
    then Some(Clock(ParseDecimal(f[0]), ParseDecimal(f[1]), ParseDecimal(f[2])))
    else None
  }

  /** Whole seconds represented by a clock reading. */
  function TotalSeconds(c: Clock): nat
  {
    c.hours * 3600 + c.minutes * 60 + c.seconds
  }

  /** Splitting whole seconds into hours, minutes and seconds. */
  lemma SplitSeconds(ms: int)
    requires ms > 0
    ensures (ms / 3600000) * 3600 + ((ms / 60000) % 60) * 60 + (ms / 1000) % 60 == ms / 1000
    ensures ms / 3600000 >= 100 <==> ms >= 100 * 3600000
  {
    var q := ms / 1000;
    assert ms / 60000 == q / 60;
    assert ms / 3600000 == (q / 60) / 60;
  }

  /** A clock string built from padded fields reads back as those fields. */
  lemma ReadClockFields(hours: nat, minutes: nat, seconds: nat)
    requires minutes < 60 && seconds < 60
    ensures ReadClock(ZeroPad(hours, 2) + ":" + ZeroPad(minutes, 2) + ":" + ZeroPad(seconds, 2))
      == Some(Clock(hours, minutes, seconds))
    ensures |ZeroPad(hours, 2) + ":" + ZeroPad(minutes, 2) + ":" + ZeroPad(seconds, 2)|
      == |ZeroPad(hours, 2)| + 6
    ensures |ZeroPad(hours, 2)| >= 2
    ensures |ZeroPad(hours, 2)| >= 3 <==> hours >= 100
  {
    var h, m, s := ZeroPad(hours, 2), ZeroPad(minutes, 2), ZeroPad(seconds, 2);
    ZeroPadReadsBack(hours, 2);
    ZeroPadReadsBack(minutes, 2);
    ZeroPadReadsBack(seconds, 2);
    ZeroPadExact(minutes, 2);
    ZeroPadExact(seconds, 2);
    ReadClockOf(h, m, s);
    HourWidth(hours);
  }

  lemma HourWidth(hours: nat)
    ensures |ZeroPad(hours, 2)| >= 3 <==> hours >= 100
  {
    DecimalWidth(hours);
    if hours < 100 {
      ZeroPadExact(hours, 2);
    }
  }

  lemma ReadClockOf(h: string, m: string, s: string)
    requires AllDigits(h) && AllDigits(m) && AllDigits(s)
    requires |m| == 2 && |s| == 2
    ensures ReadClock(h + ":" + m + ":" + s)
      == Some(Clock(ParseDecimal(h), ParseDecimal(m), ParseDecimal(s)))
  {
    NoColon(h);
    NoColon(m);
    NoColon(s);
    Text.SplitFree(s, ":");
    Text.SplitAfterFree(m, ":", s);
    assert h + ":" + m + ":" + s == h + ":" + (m + ":" + s);
    Text.SplitAfterFree(h, ":", m + ":" + s);
  }

  /** A digit string holds none of the stamp pipeline's separators. */
  lemma NoColon(s: string)
    requires AllDigits(s)
    ensures ':' !in s && '.' !in s && '-' !in s
  {
    DigitsExclude(s, ':');
    DigitsExclude(s, '.');
    DigitsExclude(s, '-');
  }

  /** The formatted duration reads back as hours, minutes below 60 and seconds
      below 60 that add up to the whole seconds of `ms` (zero when `ms <= 0`):
      sub-second remainders are dropped and nothing else is lost. The hours
      field has at least two digits and grows to three or more from 100 hours
      on; a non-positive duration is exactly `00:00:00`. */
  lemma FormatDurationReadsBack(ms: int)
    ensures ms <= 0 ==> FormatDuration(ms) == "00:00:00"
    ensures ReadClock(FormatDuration(ms)).Some?
    ensures var c := ReadClock(FormatDuration(ms)).value;
      && c.minutes < 60 && c.seconds < 60
      && TotalSeconds(c) == (if ms <= 0 then 0 else ms / 1000)
    ensures |FormatDuration(ms)| - 6 >= 2
    ensures |FormatDuration(ms)| - 6 >= 3 <==> ms >= 100 * 3600000
  {
    if ms <= 0 {
      FormatDurationClamped(ms);
    } else {
      var h, m, sec := ms / 3600000, (ms / 60000) % 60, (ms / 1000) % 60;
      assert FormatDuration(ms) == ZeroPad(h, 2) + ":" + ZeroPad(m, 2) + ":" + ZeroPad(sec, 2);
      assert TotalSeconds(Clock(h, m, sec)) == ms / 1000 && (h >= 100 <==> ms >= 100 * 3600000) by {
        SplitSeconds(ms);
      }
      ReadClockFields(h, m, sec);
    }
  }

  lemma FormatDurationClamped(ms: int)
    requires ms <= 0
    ensures FormatDuration(ms) == "00:00:00"
    ensures ReadClock(FormatDuration(ms)) == Some(Clock(0, 0, 0))
    ensures |FormatDuration(ms)| == 8
  {
    ReadClockFields(0, 0, 0);
    assert ZeroPad(0, 2) == "00";
    assert "00:00:00" == ZeroPad(0, 2) + ":" + ZeroPad(0, 2) + ":" + ZeroPad(0, 2);
  }

  /** Once the target instant is reached the countdown shows `00:00:00`. */
  lemma CountdownElapsed(target: int, now: int)
    requires now >= target
    ensures FormatDuration(TimeUntil(target, now)) == "00:00:00"
  {
  }

  /** One hour, one minute and one second; one hundred hours. */
  lemma FormatDurationExample()
    ensures FormatDuration(3661000) == "01:01:01"
    ensures FormatDuration(360000000) == "100:00:00"
  {
    var one, zero, hundred := ZeroPad(1, 2), ZeroPad(0, 2), ZeroPad(100, 2);
    assert one == "01" && zero == "00" && hundred == "100" by { SmallPads(); }
    assert FormatDuration(3661000) == one + ":" + one + ":" + one by {
      assert 3661000 / 3600000 == 1 && (3661000 / 60000) % 60 == 1 && (3661000 / 1000) % 60 == 1;
    }
    assert FormatDuration(360000000) == hundred + ":" + zero + ":" + zero by {
      assert 360000000 / 3600000 == 100 && (360000000 / 60000) % 60 == 0 && (360000000 / 1000) % 60 == 0;
    }
    ClockLiterals(one, zero, hundred);
  }

  lemma SmallPads()
    ensures ZeroPad(1, 2) == "01" && ZeroPad(0, 2) == "00" && ZeroPad(100, 2) == "100"
  {
    assert ToDecimal(1) == "1";
    assert ToDecimal(0) == "0";
    assert ToDecimal(10) == "10";
    assert ToDecimal(100) == "100";
  }

  lemma ClockLiterals(one: string, zero: string, hundred: string)
    requires one == "01" && zero == "00" && hundred == "100"
    ensures one + ":" + one + ":" + one == "01:01:01"
    ensures hundred + ":" + zero + ":" + zero == "100:00:00"
  {
  }

  // ---------------------------------------------------------------------
  // UTC instants and the compact stamp of RFC 5545
  // ---------------------------------------------------------------------

  /** A `Date` broken into its UTC calendar components. */
  datatype UtcTime = UtcTime(year: nat, month: nat, day: nat,
                             hour: nat, minute: nat, second: nat, millis: nat)

  predicate IsLeapYear(y: nat) {
    y % 4 == 0 && (y % 100 != 0 || y % 400 == 0)
  }

  function DaysInMonth(y: nat, m: nat): nat
    requires 1 <= m <= 12
  {
    if m == 2 then (if IsLeapYear(y) then 29 else 28)
    else if m == 4 || m == 6 || m == 9 || m == 11 then 30
    else 31
  }

  /** A real Gregorian instant whose year `toISOString` writes with four
      digits. */
  predicate ValidTime(t: UtcTime) {
    && t.year <= 9999
    && 1 <= t.month <= 12
    && 1 <= t.day <= DaysInMonth(t.year, t.month)
    && t.hour < 24 && t.minute < 60 && t.second < 60 && t.millis < 1000
  }

  /** `YYYY-MM-DD`. */
  function IsoDate(t: UtcTime): string
  {
    ZeroPad(t.year, 4) + "-" + ZeroPad(t.month, 2) + "-" + ZeroPad(t.day, 2)
  }

  /** `HH:mm:ss`. */
  function IsoClock(t: UtcTime): string
  {
    ZeroPad(t.hour, 2) + ":" + ZeroPad(t.minute, 2) + ":" + ZeroPad(t.second, 2)
  }

  /** `Date.prototype.toISOString`: `YYYY-MM-DDTHH:mm:ss.sssZ`. */
  function IsoString(t: UtcTime): string
  {
    IsoDate(t) + ("T" + (IsoClock(t) + ("." + (ZeroPad(t.millis, 3) + "Z"))))
  }

  /** `s.replace(/[-:]/g, '')`. */
  function StripDashColon(s: string): string
  {
    if |s| == 0 then ""
    else (if s[0] == '-' || s[0] == ':' then "" else [s[0]]) + StripDashColon(s[1..])
  }

  /** The shared `formatICSDate` / `formatGoogleDate` helper:
      `toISOString().replace(/[-:]/g, '').split('.')[0] + 'Z'`. */
  function IcsStamp(t: UtcTime): string
  {
    Text.Split(StripDashColon(IsoString(t)), ".")[0] + "Z"
  }

  /** `YYYYMMDD`. */
  function CompactDate(t: UtcTime): string
  {
    ZeroPad(t.year, 4) + ZeroPad(t.month, 2) + ZeroPad(t.day, 2)
  }

  /** `HHMMSS`. */
  function CompactClock(t: UtcTime): string
  {
    ZeroPad(t.hour, 2) + ZeroPad(t.minute, 2) + ZeroPad(t.second, 2)
  }

  /** The UTC DATE-TIME form of section 3.3.5 of RFC 5545 (form #2, "date with
      UTC time"): `YYYYMMDDTHHMMSSZ`. */
  function CompactStamp(t: UtcTime): string
  {
    CompactDate(t) + "T" + CompactClock(t) + "Z"
  }

  predicate DigitsIn(s: string, lo: int, hi: int)
    requires 0 <= lo <= hi <= |s|
  {
    forall i :: lo <= i < hi ==> IsDigit(s[i])
  }

  /** Sixteen characters: eight date digits, `T`, six time digits, `Z`. */
  predicate IsUtcDateTimeForm(s: string) {
    |s| == 16 && DigitsIn(s, 0, 8) && s[8] == 'T' && DigitsIn(s, 9, 15) && s[15] == 'Z'
  }

  /** A stamp in the compact form holds only digits, `T` and `Z`. */
  lemma FormExcludes(s: string, c: char)
    requires IsUtcDateTimeForm(s) && !IsDigit(c) && c != 'T' && c != 'Z'
    ensures c !in s
  {
    assert forall i :: 0 <= i < |s| ==> s[i] != c;
  }

  /** The value of the digits `s[lo..hi]`. */
  function FieldValue(s: string, lo: int, hi: int): nat
    requires 0 <= lo <= hi <= |s| && DigitsIn(s, lo, hi)
  {
    assert AllDigits(s[lo..hi]) by {
      forall i | 0 <= i < hi - lo ensures IsDigit(s[lo..hi][i]) {
        assert s[lo..hi][i] == s[lo + i];
      }
    }
    ParseDecimal(s[lo..hi])
  }

  /** Reads a compact stamp back into components (milliseconds are zero);
      `None` for a string of another shape or an impossible date. */
  function ParseStamp(s: string): Option<UtcTime>
  {
    if !IsUtcDateTimeForm(s) then None
    else
      var t := UtcTime(FieldValue(s, 0, 4), FieldValue(s, 4, 6), FieldValue(s, 6, 8),
                       FieldValue(s, 9, 11), FieldValue(s, 11, 13), FieldValue(s, 13, 15), 0);
      if ValidTime(t) then Some(t) else None
  }

  lemma {:induction false} StripConcat(a: string, b: string)
    ensures StripDashColon(a + b) == StripDashColon(a) + StripDashColon(b)
    decreases |a|
  {
    if |a| == 0 {
      assert a + b == b;
    } else {
      assert (a + b)[0] == a[0];
      assert (a + b)[1..] == a[1..] + b;
      StripConcat(a[1..], b);
    }
  }

  lemma {:induction false} StripDigits(s: string)
    requires AllDigits(s)
    ensures StripDashColon(s) == s
    decreases |s|
  {
    if |s| > 0 {
      StripDigits(s[1..]);
      assert [s[0]] + s[1..] == s;
    }
  }

  /** A field of `width` digits: reads back, survives the stripping, has no
      dot. */
  lemma FieldFacts(n: nat, width: nat)
    requires width >= 1 && n < Pow10(width)
    ensures AllDigits(ZeroPad(n, width)) && |ZeroPad(n, width)| == width
    ensures ParseDecimal(ZeroPad(n, width)) == n
    ensures StripDashColon(ZeroPad(n, width)) == ZeroPad(n, width)
    ensures '.' !in ZeroPad(n, width)
  {
    ZeroPadReadsBack(n, width);
    ZeroPadExact(n, width);
    StripDigits(ZeroPad(n, width));
    NoColon(ZeroPad(n, width));
  }

  /** Stripping `a + [c] + b` for a separator character `c`. */
  lemma StripAround(a: string, c: char, b: string)
    requires AllDigits(a)
    ensures StripDashColon(a + [c] + b)
      == a + (if c == '-' || c == ':' then "" else [c]) + StripDashColon(b)
  {
    StripConcat(a + [c], b);
    StripConcat(a, [c]);
    StripDigits(a);
  }

  /** Stripping `a c b c d` for a dash or colon `c` leaves the digits. */
  lemma StripTriple(a: string, c: char, b: string, d: string)
    requires AllDigits(a) && AllDigits(b) && AllDigits(d)
    requires c == '-' || c == ':'
    ensures StripDashColon(a + [c] + b + [c] + d) == a + b + d
    ensures AllDigits(a + b + d)
  {
    DigitsConcat(a, b, d);
    var rest := b + [c] + d;
    assert a + [c] + b + [c] + d == a + [c] + rest;
    assert StripDashColon(a + [c] + rest) == a + StripDashColon(rest) by {
      StripAround(a, c, rest);
    }
    assert StripDashColon(rest) == b + d by {
      StripAround(b, c, d);
      StripDigits(d);
    }
    assert a + (b + d) == a + b + d;
  }

  lemma StripIsoDate(t: UtcTime)
    requires ValidTime(t)
    ensures StripDashColon(IsoDate(t)) == CompactDate(t)
    ensures |CompactDate(t)| == 8 && AllDigits(CompactDate(t))
  {
    assert t.month < 100 && t.day < 100;
    YearField(t.year);
    Field2(t.month);
    Field2(t.day);
    StripTriple(ZeroPad(t.year, 4), '-', ZeroPad(t.month, 2), ZeroPad(t.day, 2));
    assert IsoDate(t) == ZeroPad(t.year, 4) + ['-'] + ZeroPad(t.month, 2) + ['-'] + ZeroPad(t.day, 2);
  }

  lemma Field2(n: nat)
    requires n < 100
    ensures AllDigits(ZeroPad(n, 2)) && |ZeroPad(n, 2)| == 2
    ensures ParseDecimal(ZeroPad(n, 2)) == n
  {
    assert Pow10(2) == 100;
    FieldFacts(n, 2);
  }

  lemma StripIsoClock(t: UtcTime)
    requires ValidTime(t)
    ensures StripDashColon(IsoClock(t)) == CompactClock(t)
    ensures |CompactClock(t)| == 6 && AllDigits(CompactClock(t))
  {
    Field2(t.hour);
    Field2(t.minute);
    Field2(t.second);
    StripTriple(ZeroPad(t.hour, 2), ':', ZeroPad(t.minute, 2), ZeroPad(t.second, 2));
    assert IsoClock(t) == ZeroPad(t.hour, 2) + [':'] + ZeroPad(t.minute, 2) + [':'] + ZeroPad(t.second, 2);
  }

  lemma YearField(y: nat)
    requires y <= 9999
    ensures AllDigits(ZeroPad(y, 4)) && |ZeroPad(y, 4)| == 4
    ensures ParseDecimal(ZeroPad(y, 4)) == y
  {
    assert Pow10(4) == 10000;
    FieldFacts(y, 4);
  }

  lemma DigitsConcat(a: string, b: string, c: string)
    requires AllDigits(a) && AllDigits(b) && AllDigits(c)
    ensures AllDigits(a + b + c)
  {
  }

  lemma StripCons(c: char, b: string)
    requires c != '-' && c != ':'
    ensures StripDashColon([c] + b) == [c] + StripDashColon(b)
  {
    assert ([c] + b)[1..] == b;
  }

  /** Stripping the dashes and colons of the whole ISO form. */
  lemma StripIsoParts(date: string, clock: string, ms: string, cd: string, cc: string)
    requires StripDashColon(date) == cd && StripDashColon(clock) == cc
    requires AllDigits(ms)
    ensures StripDashColon(date + ("T" + (clock + ("." + (ms + "Z")))))
      == cd + ("T" + (cc + ("." + (ms + "Z"))))
  {
    var w := ms + "Z";
    var z := ['.'] + w;
    var y := clock + z;
    var x := ['T'] + y;
    assert StripDashColon(w) == w by {
      StripConcat(ms, "Z");
      StripDigits(ms);
      StripCons('Z', "");
    }
    assert StripDashColon(z) == z by {
      StripCons('.', w);
    }
    assert StripDashColon(y) == cc + z by {
      StripConcat(clock, z);
    }
    assert StripDashColon(x) == ['T'] + (cc + z) by {
      StripCons('T', y);
    }
    assert StripDashColon(date + x) == cd + (['T'] + (cc + z)) by {
      StripConcat(date, x);
    }
  }

  /** Cutting the stripped ISO form at its dot. */
  lemma CutAtDot(date: string, clock: string, ms: string, cd: string, cc: string)
    requires StripDashColon(date) == cd && StripDashColon(clock) == cc
    requires AllDigits(cd) && AllDigits(cc) && AllDigits(ms)
    ensures Text.Split(StripDashColon(date + ("T" + (clock + ("." + (ms + "Z"))))), ".")[0] + "Z"
      == cd + "T" + cc + "Z"
  {
    StripIsoParts(date, clock, ms, cd, cc);
    var head := cd + "T" + cc;
    NoColon(cd);
    NoColon(cc);
    assert '.' !in head;
    assert cd + ("T" + (cc + ("." + (ms + "Z")))) == head + "." + (ms + "Z");
    Text.SplitAfterFree(head, ".", ms + "Z");
  }

  /** The compact form of eight date digits and six time digits. */
  lemma CompactForm(cd: string, cc: string)
    requires AllDigits(cd) && |cd| == 8 && AllDigits(cc) && |cc| == 6
    ensures IsUtcDateTimeForm(cd + "T" + cc + "Z")
  {
    var c := cd + "T" + cc + "Z";
    assert DigitsIn(c, 0, 8) by {
      forall i | 0 <= i < 8 ensures IsDigit(c[i]) {
        assert c[i] == cd[i];
      }
    }
    assert DigitsIn(c, 9, 15) by {
      forall i | 9 <= i < 15 ensures IsDigit(c[i]) {
        assert c[i] == cc[i - 9];
      }
    }
  }

  /** Removing dashes and colons from `toISOString`, cutting at the first dot
      and appending `Z` yields exactly the compact stamp: the fractional
      seconds are dropped and nothing else changes. */
  lemma IcsStampIsCompact(t: UtcTime)
    requires ValidTime(t)
    ensures IcsStamp(t) == CompactStamp(t)
    ensures IsUtcDateTimeForm(IcsStamp(t))
  {
    StripIsoDate(t);
    StripIsoClock(t);
    assert Pow10(3) == 1000;
    FieldFacts(t.millis, 3);
    CutAtDot(IsoDate(t), IsoClock(t), ZeroPad(t.millis, 3), CompactDate(t), CompactClock(t));
    CompactForm(CompactDate(t), CompactClock(t));
  }

  /** The fields of a compact stamp sit at fixed positions. */
  lemma CompactFields(y: string, mo: string, d: string, h: string, mi: string, s: string)
    requires |y| == 4 && |mo| == 2 && |d| == 2 && |h| == 2 && |mi| == 2 && |s| == 2
    ensures var c := (y + mo + d) + "T" + (h + mi + s) + "Z";
      && c[0..4] == y && c[4..6] == mo && c[6..8] == d
      && c[9..11] == h && c[11..13] == mi && c[13..15] == s
  {
    var cd, cc := y + mo + d, h + mi + s;
    var c := cd + "T" + cc + "Z";
    assert c[..8] == cd && c[9..15] == cc;
    assert cd[0..4] == y && cd[4..6] == mo && cd[6..8] == d;
    assert cc[0..2] == h && cc[2..4] == mi && cc[4..6] == s;
  }

  /** Reading the stamp back recovers every component except the dropped
      milliseconds. */
  lemma StampRoundTrip(t: UtcTime)
    requires ValidTime(t)
    ensures ParseStamp(IcsStamp(t)) == Some(t.(millis := 0))
  {
    IcsStampIsCompact(t);
    YearField(t.year);
    Field2(t.month);
    Field2(t.day);
    Field2(t.hour);
    Field2(t.minute);
    Field2(t.second);
    CompactFields(ZeroPad(t.year, 4), ZeroPad(t.month, 2), ZeroPad(t.day, 2),
                  ZeroPad(t.hour, 2), ZeroPad(t.minute, 2), ZeroPad(t.second, 2));
  }

  // ---------------------------------------------------------------------
  // Epoch milliseconds (`Date.prototype.getTime`)
  // ---------------------------------------------------------------------

  /** Days from 1970-01-01 to the given proleptic Gregorian date (the
      era-based days-from-civil algorithm; `/` and `%` floor here). */
  function DaysFromCivil(y: int, m: int, d: int): int
    requires 1 <= m <= 12
  {
    var y' := if m <= 2 then y - 1 else y;
    var era := y' / 400;
    var yoe := y' - era * 400;
    var mp := if m > 2 then m - 3 else m + 9;
    var doy := (153 * mp + 2) / 5 + d - 1;
    var doe := yoe * 365 + yoe / 4 - yoe / 100 + doy;
    era * 146097 + doe - 719468
  }

  /** `t.getTime()`. */
  function EpochMillis(t: UtcTime): int
    requires ValidTime(t)
  {
    DaysFromCivil(t.year, t.month, t.day) * 86400000
    + t.hour * 3600000 + t.minute * 60000 + t.second * 1000 + t.millis
  }

  /** Two instants of the same calendar day differ by their time-of-day
      difference. */
  lemma SameDayDifference(a: UtcTime, b: UtcTime)
    requires ValidTime(a) && ValidTime(b)
    requires a.year == b.year && a.month == b.month && a.day == b.day
    ensures EpochMillis(b) - EpochMillis(a)
      == (b.hour - a.hour) * 3600000 + (b.minute - a.minute) * 60000
       + (b.second - a.second) * 1000 + (b.millis - a.millis)
  {
  }

  /** The epoch is day zero. */
  lemma EpochIsZero()
    ensures EpochMillis(UtcTime(1970, 1, 1, 0, 0, 0, 0)) == 0
  {
    assert DaysFromCivil(1970, 1, 1) == 0 by {
      assert 1969 / 400 == 4 && (153 * 10 + 2) / 5 == 306;
      assert 369 / 4 == 92 && 369 / 100 == 3;
    }
  }

  /** The start of the first configured session, `2025-11-14T19:00:00Z`, is
      day 20406 after the epoch. */
  lemma FirstSessionInstant()
    ensures EpochMillis(UtcTime(2025, 11, 14, 19, 0, 0, 0)) == 1763146800000
  {
    assert DaysFromCivil(2025, 11, 14) == 20406 by {
      assert 2025 / 400 == 5 && (153 * 8 + 2) / 5 == 245;
      assert 25 / 4 == 6 && 25 / 100 == 0;
    }
  }
}
