/** The timestamp format the pipeline converts, `%Y-%m-%dT%H:%M:%SZ` read by
    `datetime.strptime` and taken as UTC (the `date-time` profile of section
    5.6 of RFC 3339 with the `Z` offset), and the proleptic Gregorian
    arithmetic that turns it into Unix seconds. */
module Calendar {
  import opened Wrappers

  datatype DateTime = DateTime(year: int, month: int, day: int, hour: int, minute: int, second: int)

  predicate IsLeap(y: int) {
    y % 4 == 0 && (y % 100 != 0 || y % 400 == 0)
  }

  function YearLength(y: int): int {
    if IsLeap(y) then 366 else 365
  }

  function DaysInMonth(y: int, m: int): (n: int)
    requires 1 <= m <= 12
    ensures 28 <= n <= 31
  {
    if m == 2 then (if IsLeap(y) then 29 else 28)
    else if m == 4 || m == 6 || m == 9 || m == 11 then 30
    else 31
  }

  /** Days in the months of year `y` before month `m`. */
  function DaysBeforeMonth(y: int, m: int): int
    requires 1 <= m <= 13
  {
    var common :=
      if m == 1 then 0 else if m == 2 then 31 else if m == 3 then 59 else if m == 4 then 90
      else if m == 5 then 120 else if m == 6 then 151 else if m == 7 then 181 else if m == 8 then 212
      else if m == 9 then 243 else if m == 10 then 273 else if m == 11 then 304 else if m == 12 then 334
      else 365;
    common + (if m > 2 && IsLeap(y) then 1 else 0)
  }

  /** The cumulative table agrees with the month lengths, and the months
      make up the year. */
  lemma DaysBeforeNextMonth(y: int, m: int)
    requires 1 <= m <= 12
    ensures DaysBeforeMonth(y, m + 1) == DaysBeforeMonth(y, m) + DaysInMonth(y, m)
    ensures DaysBeforeMonth(y, 13) == YearLength(y)
  {
  }

  /** Days from 1970-01-01 to the first day of year `y` (negative before 1970). */
  function DaysBeforeYear(y: int): int
    decreases if y >= 1970 then y - 1970 else 1970 - y
  {
    if y == 1970 then 0
    else if y > 1970 then DaysBeforeYear(y - 1) + YearLength(y - 1)
    else DaysBeforeYear(y + 1) - YearLength(y)
  }

  lemma DaysBeforeNextYear(y: int)
    ensures DaysBeforeYear(y + 1) == DaysBeforeYear(y) + YearLength(y)
  {
  }

  predicate ValidDateTime(dt: DateTime) {
    && 1 <= dt.year <= 9999
    && 1 <= dt.month <= 12
    && 1 <= dt.day <= DaysInMonth(dt.year, dt.month)
    && 0 <= dt.hour <= 23 && 0 <= dt.minute <= 59 && 0 <= dt.second <= 59
  }

  /** Days since 1970-01-01. */
  function DayNumber(dt: DateTime): int
    requires ValidDateTime(dt)
  {
    DaysBeforeYear(dt.year) + DaysBeforeMonth(dt.year, dt.month) + dt.day - 1
  }

  /** Seconds since 1970-01-01T00:00:00Z. */
  function Epoch(dt: DateTime): int
    requires ValidDateTime(dt)
  {
    DayNumber(dt) * 86400 + dt.hour * 3600 + dt.minute * 60 + dt.second
  }

  /** The instant one second later, carrying into minutes, hours, days,
      months and years. */
  function NextSecond(dt: DateTime): (n: DateTime)
    requires ValidDateTime(dt) && dt != DateTime(9999, 12, 31, 23, 59, 59)
    ensures ValidDateTime(n)
  {
    if dt.second < 59 then dt.(second := dt.second + 1)
    else if dt.minute < 59 then dt.(minute := dt.minute + 1, second := 0)
    else if dt.hour < 23 then dt.(hour := dt.hour + 1, minute := 0, second := 0)
    else if dt.day < DaysInMonth(dt.year, dt.month) then DateTime(dt.year, dt.month, dt.day + 1, 0, 0, 0)
    else if dt.month < 12 then DateTime(dt.year, dt.month + 1, 1, 0, 0, 0)
    else DateTime(dt.year + 1, 1, 1, 0, 0, 0)
  }

  /** Epoch seconds count seconds: consecutive instants are one apart,
      across every rollover, leap days included. */
  lemma EpochCountsSeconds(dt: DateTime)
    requires ValidDateTime(dt) && dt != DateTime(9999, 12, 31, 23, 59, 59)
    ensures Epoch(NextSecond(dt)) == Epoch(dt) + 1
  {
    if dt.second == 59 && dt.minute == 59 && dt.hour == 23 {
      if dt.day == DaysInMonth(dt.year, dt.month) {
        DaysBeforeNextMonth(dt.year, dt.month);
        if dt.month == 12 {
          DaysBeforeNextYear(dt.year);
        }
      }
    }
  }

  /** The Unix epoch is instant zero. */
  lemma EpochOrigin()
    ensures ValidDateTime(DateTime(1970, 1, 1, 0, 0, 0)) && Epoch(DateTime(1970, 1, 1, 0, 0, 0)) == 0
  {
    var dt := DateTime(1970, 1, 1, 0, 0, 0);
    assert DaysInMonth(1970, 1) == 31;
    assert ValidDateTime(dt);
    assert DaysBeforeYear(1970) == 0 && DaysBeforeMonth(1970, 1) == 0;
  }

  // ---------------------------------------------------------------------
  // The text form
  // ---------------------------------------------------------------------

  predicate IsDigit(c: char) {
    '0' <= c <= '9'
  }

  predicate AllDigits(t: string) {
    forall k :: 0 <= k < |t| ==> IsDigit(t[k])
  }

  /** The decimal value of a string of digits. */
  function DigitsValue(t: string): (v: nat)
    requires AllDigits(t)
  {
    if t == [] then 0
    else DigitsValue(t[..|t| - 1]) * 10 + (t[|t| - 1] as int - '0' as int)
  }

  function Pow10(w: nat): (p: nat)
    ensures p >= 1
  {
    if w == 0 then 1 else 10 * Pow10(w - 1)
  }

  /** `n` in exactly `w` digits, zero-padded. */
  function Pad(n: nat, w: nat): (t: string)
    ensures |t| == w && AllDigits(t)
  {
    if w == 0 then [] else Pad(n / 10, w - 1) + [('0' as int + n % 10) as char]
  }

  /** Reading back a zero-padded number that fits its width gives it back. */
  lemma {:induction false} PadValue(n: nat, w: nat)
    requires n < Pow10(w)
    ensures DigitsValue(Pad(n, w)) == n
  {
    if w > 0 {
      var t := Pad(n, w);
      assert t[..|t| - 1] == Pad(n / 10, w - 1);
      PadValue(n / 10, w - 1);
    }
  }

  /** The positions `strptime` reads as digits: `YYYY-MM-DDTHH:MM:SSZ`. */
  predicate Shaped(s: string) {
    && |s| == 20
    && AllDigits(s[0..4]) && s[4] == '-' && AllDigits(s[5..7]) && s[7] == '-' && AllDigits(s[8..10])
    && (s[10] == 'T' || s[10] == 't')
    && AllDigits(s[11..13]) && s[13] == ':' && AllDigits(s[14..16]) && s[16] == ':' && AllDigits(s[17..19])
    && (s[19] == 'Z' || s[19] == 'z')
  }

  /** `datetime.strptime(s, "%Y-%m-%dT%H:%M:%SZ")` in its fixed-width form
      (the format's letters match either case): the fields, or None when
      the text has another shape or names no real instant. */
  function ParseIso(s: string): (r: Option<DateTime>)
    ensures r.Some? ==> ValidDateTime(r.value) && Shaped(s)
  {
    if !Shaped(s) then None
    else
      var dt := DateTime(DigitsValue(s[0..4]), DigitsValue(s[5..7]), DigitsValue(s[8..10]),
                         DigitsValue(s[11..13]), DigitsValue(s[14..16]), DigitsValue(s[17..19]));
      if ValidDateTime(dt) then Some(dt) else None
  }

  /** The canonical text of an instant. */
  function FormatIso(dt: DateTime): (s: string)
    requires ValidDateTime(dt)
    ensures |s| == 20
  {
    Pad(dt.year, 4) + "-" + Pad(dt.month, 2) + "-" + Pad(dt.day, 2) + "T"
      + Pad(dt.hour, 2) + ":" + Pad(dt.minute, 2) + ":" + Pad(dt.second, 2) + "Z"
  }

  /** Formatting an instant and reading it back gives the instant. */
  lemma ParseFormat(dt: DateTime)
    requires ValidDateTime(dt)
    ensures ParseIso(FormatIso(dt)) == Some(dt)
  {
    var s := FormatIso(dt);
    assert s[0..4] == Pad(dt.year, 4);
    assert s[5..7] == Pad(dt.month, 2);
    assert s[8..10] == Pad(dt.day, 2);
    assert s[11..13] == Pad(dt.hour, 2);
    assert s[14..16] == Pad(dt.minute, 2);
    assert s[17..19] == Pad(dt.second, 2);
    PadValue(dt.year, 4);
    PadValue(dt.month, 2);
    PadValue(dt.day, 2);
    PadValue(dt.hour, 2);
    PadValue(dt.minute, 2);
    PadValue(dt.second, 2);
  }

  /** `convert_iso_to_epoch`: the Unix seconds of a UTC timestamp in the
      format, or None. */
  function ConvertIsoToEpoch(s: string): (r: Option<int>)
    ensures r.Some? <==> ParseIso(s).Some?
    ensures r.Some? ==> r.value == Epoch(ParseIso(s).value)
  {
    match ParseIso(s)
    case None => None
    case Some(dt) => Some(Epoch(dt))
  }

  /** The canonical text of an instant converts to its epoch seconds. */
  lemma ConvertFormatted(dt: DateTime)
    requires ValidDateTime(dt)
    ensures ConvertIsoToEpoch(FormatIso(dt)) == Some(Epoch(dt))
  {
    ParseFormat(dt);
  }
}
