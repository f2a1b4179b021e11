/** The time arguments of the chat-history query command: an absolute date
    ("YYYY-MM-DD") or date and time ("YYYY-MM-DD HH:MM") read as a wall-clock
    instant in UTC+8, or a relative span ("7d", "24h") counted back from
    `now`. Instants are integer Unix seconds. */
module QueryTime {
  import opened Wrappers
  import opened Text

  const SECONDS_PER_DAY: int := 86400
  /** UTC+8, the zone every absolute time argument is read in. */
  const UTC8_OFFSET: int := 8 * 3600

  // ---------------------------------------------------------------- calendar

  /** Gregorian leap years. */
  predicate IsLeap(y: int) {
    y % 4 == 0 && (y % 100 != 0 || y % 400 == 0)
  }

  function DaysInMonth(y: int, m: int): (n: int)
    requires 1 <= m <= 12
    ensures 28 <= n <= 31
    ensures m == 2 ==> (n == 29 <==> IsLeap(y))
  {
    if m == 2 then (if IsLeap(y) then 29 else 28)
    else if m == 4 || m == 6 || m == 9 || m == 11 then 30
    else 31
  }

  function DaysInYear(y: int): int {
    if IsLeap(y) then 366 else 365
  }

  /** Days of year `y` before the first of month `m`. */
  function DaysBeforeMonth(y: int, m: int): (n: int)
    requires 1 <= m <= 12
    ensures m == 1 ==> n == 0
  {
    var table := [0, 31, 59, 90, 120, 151, 181, 212, 243, 273, 304, 334];
    table[m - 1] + (if m > 2 && IsLeap(y) then 1 else 0)
  }

  /** Each month starts where the previous one ends. */
  lemma DaysBeforeNextMonth(y: int, m: int)
    requires 1 <= m < 12
    ensures DaysBeforeMonth(y, m + 1) == DaysBeforeMonth(y, m) + DaysInMonth(y, m)
  {
  }

  /** December ends where the year ends. */
  lemma DaysBeforeYearEnd(y: int)
    ensures DaysBeforeMonth(y, 12) + DaysInMonth(y, 12) == DaysInYear(y)
  {
  }

  /** The number of leap years among 1 .. y - 1. */
  function LeapsBefore(y: int): int {
    (y - 1) / 4 - (y - 1) / 100 + (y - 1) / 400
  }

  lemma LeapsBeforeStep(y: int)
    ensures LeapsBefore(y + 1) == LeapsBefore(y) + (if IsLeap(y) then 1 else 0)
  {
    assert y / 4 - (y - 1) / 4 == (if y % 4 == 0 then 1 else 0);
    assert y / 100 - (y - 1) / 100 == (if y % 100 == 0 then 1 else 0);
    assert y / 400 - (y - 1) / 400 == (if y % 400 == 0 then 1 else 0);
  }

  /** Days from 1970-01-01 to the given date of the proleptic Gregorian
      calendar. */
  function DaysFromEpoch(y: int, m: int, d: int): int
    requires 1 <= m <= 12
  {
    365 * (y - 1970) + (LeapsBefore(y) - LeapsBefore(1970)) + DaysBeforeMonth(y, m) + (d - 1)
  }

  /** What `datetime` accepts as a date. */
  predicate ValidDate(y: int, m: int, d: int) {
    1 <= y <= 9999 && 1 <= m <= 12 && 1 <= d <= DaysInMonth(y, m)
  }

  /** The calendar day after a valid date. */
  function NextDay(y: int, m: int, d: int): (int, int, int)
    requires ValidDate(y, m, d)
  {
    if d < DaysInMonth(y, m) then (y, m, d + 1)
    else if m < 12 then (y, m + 1, 1)
    else (y + 1, 1, 1)
  }

  /** Day numbering starts at the epoch and advances by exactly one from each
      valid date to the next, so it is the ordinary count of days. */
  lemma DaysFromEpochCounts(y: int, m: int, d: int)
    requires ValidDate(y, m, d)
    ensures DaysFromEpoch(1970, 1, 1) == 0
    ensures var (y2, m2, d2) := NextDay(y, m, d);
            1 <= m2 <= 12 && DaysFromEpoch(y2, m2, d2) == DaysFromEpoch(y, m, d) + 1
  {
    if d == DaysInMonth(y, m) {
      if m < 12 {
        DaysBeforeNextMonth(y, m);
      } else {
        LeapsBeforeStep(y);
        DaysBeforeYearEnd(y);
      }
    }
  }

  /** A wall-clock instant in UTC+8 as Unix seconds. */
  function LocalToEpoch(y: int, m: int, d: int, hh: int, mm: int): int
    requires 1 <= m <= 12
  {
    DaysFromEpoch(y, m, d) * SECONDS_PER_DAY + hh * 3600 + mm * 60 - UTC8_OFFSET
  }

  // ---------------------------------------------------------------- parsing

  /** The digits at `s[i..j]` as a number, when they are all digits. */
  function Field(s: string, i: nat, j: nat): Option<int>
    requires i <= j <= |s|
  {
    if IsDigits(s[i..j]) then Some(DigitsValue(s[i..j]) as int) else None
  }

  /** "YYYY-MM-DD", a valid date with exactly that many digits. */
  function ParseDate(s: string): (r: Option<(int, int, int)>)
    ensures r.Some? ==> ValidDate(r.value.0, r.value.1, r.value.2)
  {
    if |s| != 10 || s[4] != '-' || s[7] != '-' then None
    else
      match (Field(s, 0, 4), Field(s, 5, 7), Field(s, 8, 10))
      case (Some(y), Some(m), Some(d)) =>
        if ValidDate(y, m, d) then Some((y, m, d)) else None
      case _ => None
  }

  /** "HH:MM" on the 24-hour clock. */
  function ParseClock(s: string): (r: Option<(int, int)>)
    ensures r.Some? ==> 0 <= r.value.0 < 24 && 0 <= r.value.1 < 60
  {
    if |s| != 5 || s[2] != ':' then None
    else
      match (Field(s, 0, 2), Field(s, 3, 5))
      case (Some(h), Some(mi)) =>
        if h < 24 && mi < 60 then Some((h, mi)) else None
      case _ => None
  }

  /** An absolute time argument: a date (midnight) or a date and a time, in
      UTC+8. */
  function ParseAbsolute(s: string): (r: Option<int>)
    ensures r.Some? ==> |s| == 10 || (|s| == 16 && s[10] == ' ' && s[13] == ':')
  {
    if |s| == 10 then
      match ParseDate(s)
      case Some((y, m, d)) => Some(LocalToEpoch(y, m, d, 0, 0))
      case None => None
    else if |s| == 16 && s[10] == ' ' then
      match (ParseDate(s[..10]), ParseClock(s[11..]))
      case (Some((y, m, d)), Some((h, mi))) => Some(LocalToEpoch(y, m, d, h, mi))
      case _ => None
    else None
  }

  /** A relative time argument: a count of days or hours before `now`. The
      query plugin's own parser is not part of this model; this grammar
      (digits, then `d` or `h`) covers the forms the query tests use. */
  function ParseRelative(s: string, now: int): (r: Option<int>)
    ensures r.Some? ==> r.value <= now && (now - r.value) % 3600 == 0
    ensures r.Some? ==> |s| >= 2 && s[|s| - 1] in "dh"
  {
    if |s| >= 2 && (s[|s| - 1] == 'd' || s[|s| - 1] == 'h') && IsDigits(s[..|s| - 1]) then
      var n := DigitsValue(s[..|s| - 1]);
      Some(now - n * (if s[|s| - 1] == 'd' then SECONDS_PER_DAY else 3600))
    else None
  }

  /** `parse_time`: `None` for the empty string and anything that is neither
      form. */
  function ParseTime(s: string, now: int): (r: Option<int>)
    ensures s == "" ==> r == None
    ensures ParseAbsolute(s).Some? ==> r == ParseAbsolute(s)
    ensures s != "" && ParseAbsolute(s).None? ==> r == ParseRelative(s, now)
    ensures r.None? <==> s == "" || (ParseAbsolute(s).None? && ParseRelative(s, now).None?)
  {
    if s == "" then None
    else if ParseAbsolute(s).Some? then ParseAbsolute(s)
    else ParseRelative(s, now)
  }

  /** Whether a time argument names an absolute instant. */
  predicate IsAbsolute(s: string) {
    ParseAbsolute(s).Some?
  }

  // ---------------------------------------------------------------- rendering

  /** `n` zero-padded to `width` digits (n < 10^width). */
  function Padded(n: nat, width: nat): (s: string)
    ensures |s| == width
    decreases width
  {
    if width == 0 then "" else Padded(n / 10, width - 1) + [DigitChar(n % 10)]
  }

  function Pow10(k: nat): nat {
    if k == 0 then 1 else 10 * Pow10(k - 1)
  }

  /** Padding is all digits and reads back as the number. */
  lemma {:induction false} PaddedRoundTrip(n: nat, width: nat)
    requires n < Pow10(width)
    ensures forall i :: 0 <= i < width ==> IsDigit(Padded(n, width)[i])
    ensures DigitsValue(Padded(n, width)) == n
    decreases width
  {
    if width > 0 {
      var s := Padded(n, width);
      PaddedRoundTrip(n / 10, width - 1);
      assert s[..width - 1] == Padded(n / 10, width - 1);
    }
  }

  /** The date as the argument is written: "YYYY-MM-DD". */
  function FormatDate(y: int, m: int, d: int): (s: string)
    requires ValidDate(y, m, d)
    ensures |s| == 10
  {
    Padded(y, 4) + "-" + Padded(m, 2) + "-" + Padded(d, 2)
  }

  function FormatClock(hh: int, mm: int): (s: string)
    requires 0 <= hh < 24 && 0 <= mm < 60
    ensures |s| == 5
  {
    Padded(hh, 2) + ":" + Padded(mm, 2)
  }

  lemma FieldOfPadded(s: string, i: nat, n: nat, width: nat)
    requires 0 < width && n < Pow10(width) && i + width <= |s| && s[i..i + width] == Padded(n, width)
    ensures Field(s, i, i + width) == Some(n)
  {
    PaddedRoundTrip(n, width);
  }

  lemma ParseFormattedDate(y: int, m: int, d: int)
    requires ValidDate(y, m, d)
    ensures ParseDate(FormatDate(y, m, d)) == Some((y, m, d))
  {
    var s := FormatDate(y, m, d);
    assert Pow10(2) == 100 && Pow10(4) == 10000;
    assert s[0..4] == Padded(y, 4) && s[5..7] == Padded(m, 2) && s[8..10] == Padded(d, 2);
    FieldOfPadded(s, 0, y, 4);
    FieldOfPadded(s, 5, m, 2);
    FieldOfPadded(s, 8, d, 2);
  }

  lemma ParseFormattedClock(hh: int, mm: int)
    requires 0 <= hh < 24 && 0 <= mm < 60
    ensures ParseClock(FormatClock(hh, mm)) == Some((hh, mm))
  {
    var s := FormatClock(hh, mm);
    assert Pow10(2) == 100;
    FieldOfPadded(s, 0, hh, 2);
    FieldOfPadded(s, 3, mm, 2);
  }

  /** A written date reads back as midnight of that day in UTC+8. */
  lemma ParseTimeOfDate(y: int, m: int, d: int, now: int)
    requires ValidDate(y, m, d)
    ensures ParseTime(FormatDate(y, m, d), now) == Some(LocalToEpoch(y, m, d, 0, 0))
  {
    ParseFormattedDate(y, m, d);
  }

  /** A written date and time reads back as that minute in UTC+8. */
  lemma ParseTimeOfDateTime(y: int, m: int, d: int, hh: int, mm: int, now: int)
    requires ValidDate(y, m, d) && 0 <= hh < 24 && 0 <= mm < 60
    ensures ParseTime(FormatDate(y, m, d) + " " + FormatClock(hh, mm), now) ==
            Some(LocalToEpoch(y, m, d, hh, mm))
  {
    var s := FormatDate(y, m, d) + " " + FormatClock(hh, mm);
    assert s[..10] == FormatDate(y, m, d) && s[11..] == FormatClock(hh, mm);
    ParseFormattedDate(y, m, d);
    ParseFormattedClock(hh, mm);
  }

  /** Neither the empty string nor a word is a time. */
  lemma ParseTimeRejects(now: int)
    ensures ParseTime("", now) == None
    ensures ParseTime("invalid", now) == None
  {
    var s := "invalid";
    assert !IsDigit(s[..6][0]);
  }

  lemma FormatNewYear2025()
    ensures FormatDate(2025, 1, 1) == "2025-01-01"
  {
    assert Padded(2, 1) == "2";
    assert Padded(20, 2) == "20";
    assert Padded(202, 3) == "202";
    assert Padded(2025, 4) == "2025";
    assert Padded(0, 1) == "0";
    assert Padded(1, 2) == "01";
  }

  lemma FormatHalfPastTwelve()
    ensures FormatClock(12, 30) == "12:30"
    ensures FormatDate(2025, 1, 1) + " " + FormatClock(12, 30) == "2025-01-01 12:30"
  {
    assert Padded(1, 1) == "1";
    assert Padded(12, 2) == "12";
    assert Padded(3, 1) == "3";
    assert Padded(30, 2) == "30";
    FormatNewYear2025();
  }

  lemma EpochOfNewYear2025()
    ensures LocalToEpoch(2025, 1, 1, 0, 0) == 1735660800
    ensures LocalToEpoch(2025, 1, 1, 12, 30) == 1735705800
  {
    assert LeapsBefore(2025) == 491 && LeapsBefore(1970) == 477;
    assert DaysBeforeMonth(2025, 1) == 0;
    assert DaysFromEpoch(2025, 1, 1) == 20089;
  }

  /** "2025-01-01" is 1735660800 in UTC+8. */
  lemma ParseDateExample(now: int)
    ensures ParseTime("2025-01-01", now) == Some(1735660800)
  {
    FormatNewYear2025();
    ParseTimeOfDate(2025, 1, 1, now);
    EpochOfNewYear2025();
  }

  /** "2025-01-01 12:30" is 1735705800 in UTC+8. */
  lemma ParseDateTimeExample(now: int)
    ensures ParseTime("2025-01-01 12:30", now) == Some(1735705800)
  {
    FormatHalfPastTwelve();
    ParseTimeOfDateTime(2025, 1, 1, 12, 30, now);
    EpochOfNewYear2025();
  }

  /** "7d" and "24h" count back from `now`. */
  lemma ParseRelativeExamples(now: int)
    ensures ParseTime("7d", now) == Some(now - 7 * SECONDS_PER_DAY)
    ensures ParseTime("24h", now) == Some(now - 24 * 3600)
  {
    assert "7d"[..1] == "7";
    assert "24h"[..2] == "24";
    assert DigitsValue("24") == 24 by {
      assert "24"[..1] == "2";
    }
  }
}
