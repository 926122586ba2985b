/**
 * The IMF-fixdate form of section 7.1.1.1 of RFC 7231, which .NET writes for
 * `DateTime.ToString("r")` and reads back with `DateTime.ParseExact(s, "r", null)`:
 *
 *   Sun, 06 Nov 1994 08:49:37 GMT
 *
 * A `DateTime` here is a whole-second instant between 0001-01-01 and 9999-12-31,
 * the range of .NET's `DateTime`.
 */
module HttpDate {
  import opened Wrappers
  import opened Text

  datatype Timestamp = Timestamp(year: int, month: int, day: int, hour: int, minute: int, second: int)

  predicate IsLeapYear(y: int) {
    y % 4 == 0 && (y % 100 != 0 || y % 400 == 0)
  }

  function DaysInMonth(y: int, m: int): int
    requires 1 <= m <= 12
  {
    if m == 2 then (if IsLeapYear(y) then 29 else 28)
    else if m == 4 || m == 6 || m == 9 || m == 11 then 30
    else 31
  }

  predicate ValidTimestamp(t: Timestamp) {
    && 1 <= t.year <= 9999
    && 1 <= t.month <= 12
    && 1 <= t.day <= DaysInMonth(t.year, t.month)
    && 0 <= t.hour < 24
    && 0 <= t.minute < 60
    && 0 <= t.second < 60
  }

  /** A calendar instant with whole-second precision. */
  type DateTime = t: Timestamp | ValidTimestamp(t) witness Timestamp(1, 1, 1, 0, 0, 0)

  /** Days from 0001-01-01 to the first day of month `m` of year `y`. */
  function DaysBefore(y: int, m: int): int
    requires 1 <= y && 1 <= m <= 12
  {
    var py := y - 1;
    365 * py + py / 4 - py / 100 + py / 400 + DaysBeforeMonth(y, m)
  }

  function DaysBeforeMonth(y: int, m: int): int
    requires 1 <= m <= 12
    decreases m
  {
    if m == 1 then 0 else DaysBeforeMonth(y, m - 1) + DaysInMonth(y, m - 1)
  }

  /** 0 = Sunday .. 6 = Saturday; 0001-01-01 was a Monday in the proleptic Gregorian calendar. */
  function DayOfWeek(d: DateTime): (w: int)
    ensures 0 <= w < 7
  {
    (DaysBefore(d.year, d.month) + d.day - 1 + 1) % 7
  }

  function DayName(w: int): (r: string)
    requires 0 <= w < 7
    ensures |r| == 3
  {
    if w == 0 then "Sun" else if w == 1 then "Mon" else if w == 2 then "Tue"
    else if w == 3 then "Wed" else if w == 4 then "Thu" else if w == 5 then "Fri" else "Sat"
  }

  function MonthName(m: int): (r: string)
    requires 1 <= m <= 12
    ensures |r| == 3
  {
    if m == 1 then "Jan" else if m == 2 then "Feb" else if m == 3 then "Mar"
    else if m == 4 then "Apr" else if m == 5 then "May" else if m == 6 then "Jun"
    else if m == 7 then "Jul" else if m == 8 then "Aug" else if m == 9 then "Sep"
    else if m == 10 then "Oct" else if m == 11 then "Nov" else "Dec"
  }

  /** The month a three-letter English abbreviation names. */
  function MonthOf(s: string): (r: Option<int>)
    ensures r.Some? ==> 1 <= r.value <= 12 && MonthName(r.value) == s
  {
    if s == "Jan" then Some(1) else if s == "Feb" then Some(2) else if s == "Mar" then Some(3)
    else if s == "Apr" then Some(4) else if s == "May" then Some(5) else if s == "Jun" then Some(6)
    else if s == "Jul" then Some(7) else if s == "Aug" then Some(8) else if s == "Sep" then Some(9)
    else if s == "Oct" then Some(10) else if s == "Nov" then Some(11) else if s == "Dec" then Some(12)
    else None
  }

  lemma MonthOfMonthName(m: int)
    requires 1 <= m <= 12
    ensures MonthOf(MonthName(m)) == Some(m)
  {
  }

  /** Two-digit zero-padded decimal (`dd`, `HH`, `mm`, `ss`). */
  function Pad2(n: int): (r: string)
    requires 0 <= n < 100
    ensures |r| == 2 && IsDigit(r[0]) && IsDigit(r[1])
  {
    [DigitChar(n / 10), DigitChar(n % 10)]
  }

  /** Four-digit zero-padded decimal (`yyyy`). */
  function Pad4(n: int): (r: string)
    requires 0 <= n < 10000
    ensures |r| == 4
  {
    Pad2(n / 100) + Pad2(n % 100)
  }

  function DigitAt(s: string, i: int): int
    requires 0 <= i < |s|
  {
    s[i] as int - '0' as int
  }

  /** The value of the two-digit field `s[i..i+2]`, when both are digits. */
  function Field2(s: string, i: int): (r: Option<int>)
    requires 0 <= i && i + 2 <= |s|
    ensures r.Some? ==> 0 <= r.value < 100
  {
    if IsDigit(s[i]) && IsDigit(s[i + 1]) then Some(DigitAt(s, i) * 10 + DigitAt(s, i + 1)) else None
  }

  /** The value of the four-digit field `s[i..i+4]`, when all four are digits. */
  function Field4(s: string, i: int): (r: Option<int>)
    requires 0 <= i && i + 4 <= |s|
    ensures r.Some? ==> 0 <= r.value < 10000
  {
    match (Field2(s, i), Field2(s, i + 2))
    case (Some(hi), Some(lo)) => Some(hi * 100 + lo)
    case _ => None
  }

  /** `d.ToString("r")`: always 29 characters. */
  function Format(d: DateTime): (r: string)
    ensures |r| == 29
  {
    DayName(DayOfWeek(d)) + ", " + Pad2(d.day) + " " + MonthName(d.month) + " " + Pad4(d.year)
      + " " + Pad2(d.hour) + ":" + Pad2(d.minute) + ":" + Pad2(d.second) + " GMT"
  }

  /**
   * `DateTime.ParseExact(s, "r", null)` on the canonical form `Format` writes: the fixed
   * layout above, with a valid date and time and the day name of that date.
   */
  function Parse(s: string): (r: Option<DateTime>)
    ensures r.Some? ==> Format(r.value) == s
  {
    if |s| != 29 then None
    else if s[3..5] != ", " || s[7] != ' ' || s[11] != ' ' || s[16] != ' '
      || s[19] != ':' || s[22] != ':' || s[25..] != " GMT" then None
    else
      var day := Field2(s, 5);
      var month := MonthOf(s[8..11]);
      var year := Field4(s, 12);
      var hour := Field2(s, 17);
      var minute := Field2(s, 20);
      var second := Field2(s, 23);
      if day.None? || month.None? || year.None? || hour.None? || minute.None? || second.None? then None
      else
        var t := Timestamp(year.value, month.value, day.value, hour.value, minute.value, second.value);
        if !ValidTimestamp(t) then None
        else if s[..3] != DayName(DayOfWeek(t)) then None
        else
          FormatFields(s);
          Some(t)
  }

  /** A 29-character string with the right separators is the format of the fields it holds. */
  lemma FormatFields(s: string)
    requires |s| == 29
    requires s[3..5] == ", " && s[7] == ' ' && s[11] == ' ' && s[16] == ' '
    requires s[19] == ':' && s[22] == ':' && s[25..] == " GMT"
    requires Field2(s, 5).Some? && Field4(s, 12).Some?
    requires Field2(s, 17).Some? && Field2(s, 20).Some? && Field2(s, 23).Some?
    requires MonthOf(s[8..11]).Some?
    requires ValidTimestamp(Timestamp(Field4(s, 12).value, MonthOf(s[8..11]).value,
      Field2(s, 5).value, Field2(s, 17).value, Field2(s, 20).value,
      Field2(s, 23).value))
    ensures var t: DateTime := Timestamp(Field4(s, 12).value, MonthOf(s[8..11]).value,
      Field2(s, 5).value, Field2(s, 17).value, Field2(s, 20).value,
      Field2(s, 23).value);
      s[..3] == DayName(DayOfWeek(t)) ==> Format(t) == s
  {
    var t: DateTime := Timestamp(Field4(s, 12).value, MonthOf(s[8..11]).value,
      Field2(s, 5).value, Field2(s, 17).value, Field2(s, 20).value,
      Field2(s, 23).value);
    if s[..3] == DayName(DayOfWeek(t)) {
      Pad2OfField(s, 5);
      Pad2OfField(s, 17);
      Pad2OfField(s, 20);
      Pad2OfField(s, 23);
      Pad4OfField(s, 12);
      var f := Format(t);
      assert f[..3] == s[..3];
      assert f[5..7] == s[5..7];
      assert f[8..11] == s[8..11];
      assert f[12..16] == s[12..16];
      assert f[17..19] == s[17..19];
      assert f[20..22] == s[20..22];
      assert f[23..25] == s[23..25];
      assert forall i :: 0 <= i < 29 ==> f[i] == s[i];
    }
  }

  lemma Pad2OfField(s: string, i: int)
    requires 0 <= i && i + 2 <= |s| && Field2(s, i).Some?
    ensures Pad2(Field2(s, i).value) == s[i..i + 2]
  {
  }

  lemma Pad4OfField(s: string, i: int)
    requires 0 <= i && i + 4 <= |s| && Field4(s, i).Some?
    ensures Pad4(Field4(s, i).value) == s[i..i + 4]
  {
    Pad2OfField(s, i);
    Pad2OfField(s, i + 2);
    var hi, lo := Field2(s, i).value, Field2(s, i + 2).value;
    assert (hi * 100 + lo) / 100 == hi && (hi * 100 + lo) % 100 == lo;
  }

  lemma FieldOfPad2(s: string, i: int, n: int)
    requires 0 <= n < 100 && 0 <= i && i + 2 <= |s| && s[i..i + 2] == Pad2(n)
    ensures Field2(s, i) == Some(n)
  {
    assert s[i] == Pad2(n)[0] && s[i + 1] == Pad2(n)[1];
  }

  lemma FieldOfPad4(s: string, i: int, n: int)
    requires 0 <= n < 10000 && 0 <= i && i + 4 <= |s| && s[i..i + 4] == Pad4(n)
    ensures Field4(s, i) == Some(n)
  {
    assert s[i..i + 4][..2] == s[i..i + 2] && s[i..i + 4][2..] == s[i + 2..i + 4];
    FieldOfPad2(s, i, n / 100);
    FieldOfPad2(s, i + 2, n % 100);
  }

  /** The `Sunset` header value reads back as the same instant. */
  lemma {:induction false} ParseFormat(d: DateTime)
    ensures Parse(Format(d)) == Some(d)
  {
    var s := Format(d);
    assert s[..3] == DayName(DayOfWeek(d));
    assert s[3..5] == ", ";
    assert s[5..7] == Pad2(d.day);
    assert s[8..11] == MonthName(d.month);
    assert s[12..16] == Pad4(d.year);
    assert s[17..19] == Pad2(d.hour);
    assert s[20..22] == Pad2(d.minute);
    assert s[23..25] == Pad2(d.second);
    assert s[25..] == " GMT";
    FieldOfPad2(s, 5, d.day);
    FieldOfPad4(s, 12, d.year);
    FieldOfPad2(s, 17, d.hour);
    FieldOfPad2(s, 20, d.minute);
    FieldOfPad2(s, 23, d.second);
    MonthOfMonthName(d.month);
  }

  /** Distinct instants give distinct header values. */
  lemma FormatInjective(a: DateTime, b: DateTime)
    requires Format(a) == Format(b)
    ensures a == b
  {
    ParseFormat(a);
    ParseFormat(b);
  }

  /** The instant of the sunset-header test, 2025-06-07 08:09:10, fell on a Saturday. */
  lemma SunsetTestInstant()
    ensures DayOfWeek(Timestamp(2025, 6, 7, 8, 9, 10)) == 6
    ensures Format(Timestamp(2025, 6, 7, 8, 9, 10)) == "Sat, 07 Jun 2025 08:09:10 GMT"
  {
  }

  /** The example date of section 7.1.1.1 of RFC 7231. */
  lemma RfcExampleInstant()
    ensures DayOfWeek(Timestamp(1994, 11, 6, 8, 49, 37)) == 0
    ensures Format(Timestamp(1994, 11, 6, 8, 49, 37)) == "Sun, 06 Nov 1994 08:49:37 GMT"
  {
    assert DaysBeforeMonth(1994, 11) == 304;
    assert DaysBefore(1994, 11) == 728232;
  }
}
