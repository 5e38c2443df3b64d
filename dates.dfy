/**
 * The date fallback of `execute`: a value that `datetime.strptime` accepts
 * with the format '%Y-%m-%d %H:%M:%S' is re-printed with '%Y-%m-%d';
 * any other value is passed on unchanged, and nothing is raised.
 */
module Dates {
  import opened Wrappers

  datatype DateTime = DateTime(year: int, month: int, day: int, hour: int, minute: int, second: int)

  predicate IsLeapYear(y: int)
  {
    y % 4 == 0 && (y % 100 != 0 || y % 400 == 0)
  }

  /** Days in a month of the proleptic Gregorian calendar that `datetime` uses. */
  function DaysInMonth(y: int, m: int): (n: int)
    requires 1 <= m <= 12
    ensures 28 <= n <= 31
    ensures m == 2 ==> (n == 29 <==> IsLeapYear(y))
  {
    if m == 2 then (if IsLeapYear(y) then 29 else 28)
    else if m == 4 || m == 6 || m == 9 || m == 11 then 30
    else 31
  }

  /**
   * The field ranges `datetime` accepts: years 1 to 9999 (four digits),
   * real calendar days, and seconds below 60 (the parser reads 60 and 61,
   * but building the `datetime` then fails).
   */
  predicate ValidDateTime(t: DateTime)
  {
    && 1 <= t.year <= 9999
    && 1 <= t.month <= 12
    && 1 <= t.day <= DaysInMonth(t.year, t.month)
    && 0 <= t.hour <= 23
    && 0 <= t.minute <= 59
    && 0 <= t.second <= 59
  }

  predicate IsDigit(c: char)
  {
    '0' <= c <= '9'
  }

  function DigitChar(d: int): (c: char)
    requires 0 <= d <= 9
    ensures IsDigit(c)
  {
    ('0' as int + d) as char
  }

  function DigitValue(c: char): (d: int)
    requires IsDigit(c)
    ensures 0 <= d <= 9
    ensures DigitChar(d) == c
  {
    c as int - '0' as int
  }

  /** `10` to the power `n`. */
  function Pow10(n: nat): (p: int)
    ensures p >= 1
  {
    if n == 0 then 1 else 10 * Pow10(n - 1)
  }

  /** The number written by the digits `s[i..i + n]`: below `10^n`, so an `n`-digit field. */
  function Number(s: string, i: int, n: nat): (v: int)
    requires 0 <= i && i + n <= |s|
    requires forall j :: i <= j < i + n ==> IsDigit(s[j])
    ensures 0 <= v < Pow10(n)
    decreases n
  {
    if n == 0 then 0 else 10 * Number(s, i, n - 1) + DigitValue(s[i + n - 1])
  }

  /** `v` zero-padded to two digits. */
  function Pad2(v: int): (r: string)
    requires 0 <= v < 100
    ensures |r| == 2 && IsDigit(r[0]) && IsDigit(r[1])
  {
    [DigitChar(v / 10), DigitChar(v % 10)]
  }

  /** `v` zero-padded to four digits. */
  function Pad4(v: int): (r: string)
    requires 0 <= v < 10000
    ensures |r| == 4 && forall i :: 0 <= i < 4 ==> IsDigit(r[i])
  {
    Pad2(v / 100) + Pad2(v % 100)
  }

  /** `t.strftime('%Y-%m-%d')`: ten characters, digits with a dash at positions 4 and 7. */
  function FormatDate(t: DateTime): (r: string)
    requires ValidDateTime(t)
    ensures |r| == 10 && r[4] == '-' && r[7] == '-'
    ensures forall i :: 0 <= i < 10 && i != 4 && i != 7 ==> IsDigit(r[i])
  {
    Pad4(t.year) + "-" + Pad2(t.month) + "-" + Pad2(t.day)
  }

  /** `t.strftime('%Y-%m-%d %H:%M:%S')`: the date, a space and the time of day. */
  function FormatDateTime(t: DateTime): (r: string)
    requires ValidDateTime(t)
    ensures |r| == 19 && r[..10] == FormatDate(t)
  {
    FormatDate(t) + " " + Pad2(t.hour) + ":" + Pad2(t.minute) + ":" + Pad2(t.second)
  }

  /** Digits and separators where the zero-padded format puts them. */
  predicate Shaped(s: string)
  {
    && |s| == 19
    && (forall j :: 0 <= j < 19 && j !in {4, 7, 10, 13, 16} ==> IsDigit(s[j]))
    && s[4] == '-' && s[7] == '-' && s[10] == ' ' && s[13] == ':' && s[16] == ':'
  }

  /** `datetime.strptime(s, '%Y-%m-%d %H:%M:%S')`, for zero-padded fields. */
  function ParseDateTime(s: string): (r: Option<DateTime>)
    ensures r.Some? ==> ValidDateTime(r.value)
  {
    if !Shaped(s) then None
    else
      var t := DateTime(Number(s, 0, 4), Number(s, 5, 2), Number(s, 8, 2),
                        Number(s, 11, 2), Number(s, 14, 2), Number(s, 17, 2));
      if ValidDateTime(t) then Some(t) else None
  }

  /**
   * The value sent to the API for `since` and `until`: the date part of a
   * parsable date and time, otherwise the value itself; either way the
   * value or its first ten characters.
   */
  function NormalizeDate(s: string): (r: string)
    ensures r == s || (|s| == 19 && r == s[..10])
  {
    match ParseDateTime(s)
    case Some(t) => FormatParse(s); FormatDate(t)
    case None => s
  }

  lemma {:induction false} PadNumber2(s: string, i: int, v: int)
    requires 0 <= v < 100 && 0 <= i && i + 2 <= |s| && s[i..i + 2] == Pad2(v)
    ensures IsDigit(s[i]) && IsDigit(s[i + 1]) && Number(s, i, 2) == v
  {
    assert s[i] == Pad2(v)[0] && s[i + 1] == Pad2(v)[1];
    assert Number(s, i, 1) == v / 10;
  }

  lemma {:induction false} PadNumber4(s: string, i: int, v: int)
    requires 0 <= v < 10000 && 0 <= i && i + 4 <= |s| && s[i..i + 4] == Pad4(v)
    ensures (forall j :: i <= j < i + 4 ==> IsDigit(s[j])) && Number(s, i, 4) == v
  {
    forall j | i <= j < i + 4 ensures IsDigit(s[j]) {
      assert s[j] == s[i..i + 4][j - i] == Pad4(v)[j - i];
    }
    assert s[i..i + 2] == s[i..i + 4][..2] == Pad4(v)[..2] == Pad2(v / 100);
    assert s[i + 2..i + 4] == s[i..i + 4][2..] == Pad4(v)[2..] == Pad2(v % 100);
    PadNumber2(s, i, v / 100);
    PadNumber2(s, i + 2, v % 100);
    NumberSplit(s, i);
  }

  lemma NumberSplit(s: string, i: int)
    requires 0 <= i && i + 4 <= |s| && forall j :: i <= j < i + 4 ==> IsDigit(s[j])
    ensures Number(s, i, 4) == 100 * Number(s, i, 2) + Number(s, i + 2, 2)
  {
    assert Number(s, i + 2, 1) == DigitValue(s[i + 2]);
  }

  /** Parsing a formatted date and time gives it back. */
  lemma ParseFormat(t: DateTime)
    requires ValidDateTime(t)
    ensures ParseDateTime(FormatDateTime(t)) == Some(t)
  {
    var s := FormatDateTime(t);
    assert s[0..4] == Pad4(t.year);
    assert s[5..7] == Pad2(t.month);
    assert s[8..10] == Pad2(t.day);
    assert s[11..13] == Pad2(t.hour);
    assert s[14..16] == Pad2(t.minute);
    assert s[17..19] == Pad2(t.second);
    assert Shaped(s);
    PadNumber4(s, 0, t.year);
    PadNumber2(s, 5, t.month);
    PadNumber2(s, 8, t.day);
    PadNumber2(s, 11, t.hour);
    PadNumber2(s, 14, t.minute);
    PadNumber2(s, 17, t.second);
  }

  lemma {:induction false} NumberPad2(s: string, i: int)
    requires 0 <= i && i + 2 <= |s| && IsDigit(s[i]) && IsDigit(s[i + 1])
    ensures Number(s, i, 2) < 100 && Pad2(Number(s, i, 2)) == s[i..i + 2]
  {
    assert Number(s, i, 1) == DigitValue(s[i]);
    var v := Number(s, i, 2);
    assert v / 10 == DigitValue(s[i]) && v % 10 == DigitValue(s[i + 1]);
  }

  lemma {:induction false} NumberPad4(s: string, i: int)
    requires 0 <= i && i + 4 <= |s| && forall j :: i <= j < i + 4 ==> IsDigit(s[j])
    ensures Number(s, i, 4) < 10000 && Pad4(Number(s, i, 4)) == s[i..i + 4]
  {
    NumberSplit(s, i);
    NumberPad2(s, i);
    NumberPad2(s, i + 2);
    var v := Number(s, i, 4);
    assert v / 100 == Number(s, i, 2) && v % 100 == Number(s, i + 2, 2);
    assert s[i..i + 4] == s[i..i + 2] + s[i + 2..i + 4];
  }

  /** What parses is exactly the formatted text of its value. */
  lemma FormatParse(s: string)
    requires ParseDateTime(s).Some?
    ensures FormatDateTime(ParseDateTime(s).value) == s
  {
    var t := ParseDateTime(s).value;
    NumberPad4(s, 0);
    NumberPad2(s, 5);
    NumberPad2(s, 8);
    NumberPad2(s, 11);
    NumberPad2(s, 14);
    NumberPad2(s, 17);
    var f := FormatDateTime(t);
    forall j | 0 <= j < 19 ensures f[j] == s[j] {
      if j < 4 { assert f[..4] == s[..4]; }
      else if 5 <= j < 7 { assert f[5..7] == s[5..7]; }
      else if 8 <= j < 10 { assert f[8..10] == s[8..10]; }
      else if 11 <= j < 13 { assert f[11..13] == s[11..13]; }
      else if 14 <= j < 16 { assert f[14..16] == s[14..16]; }
      else if 17 <= j { assert f[17..19] == s[17..19]; }
    }
  }

  /**
   * The fallback, stated against the format: a formatted date and time
   * is cut to its date, and every other value is returned as it is.
   */
  lemma NormalizeDateCases(s: string)
    ensures (exists t :: ValidDateTime(t) && FormatDateTime(t) == s) ==> NormalizeDate(s) == s[..10]
    ensures (forall t :: ValidDateTime(t) ==> FormatDateTime(t) != s) ==> NormalizeDate(s) == s
  {
    if exists t :: ValidDateTime(t) && FormatDateTime(t) == s {
      var t :| ValidDateTime(t) && FormatDateTime(t) == s;
      ParseFormat(t);
    } else if ParseDateTime(s).Some? {
      FormatParse(s);
    }
  }

  /** The value sent for a formatted date and time is its date. */
  lemma NormalizeFormatted(t: DateTime)
    requires ValidDateTime(t)
    ensures NormalizeDate(FormatDateTime(t)) == FormatDate(t)
  {
    ParseFormat(t);
  }

  /** Normalising a normalised value changes nothing. */
  lemma NormalizeIdempotent(s: string)
    ensures NormalizeDate(NormalizeDate(s)) == NormalizeDate(s)
  {
    match ParseDateTime(s)
    case Some(t) =>
      assert !Shaped(FormatDate(t));
    case None =>
  }

  /** A date and time is cut to its date. */
  lemma NormalizeDateTimeExample()
    ensures NormalizeDate("2020-01-02 03:04:05") == "2020-01-02"
  {
    var t := DateTime(2020, 1, 2, 3, 4, 5);
    assert FormatDateTime(t) == "2020-01-02 03:04:05";
    NormalizeFormatted(t);
  }

  /** A date alone passes through unchanged. */
  lemma NormalizeDateOnlyExample()
    ensures NormalizeDate("2021-05-01") == "2021-05-01"
  {
  }

  /** A day the calendar does not have passes through unchanged. */
  lemma NormalizeInvalidDayExample()
    ensures NormalizeDate("2021-02-29 00:00:00") == "2021-02-29 00:00:00"
  {
    var s := "2021-02-29 00:00:00";
    assert Shaped(s);
    assert Number(s, 0, 2) == 20;
    assert Number(s, 0, 4) == 2021 by { NumberSplit(s, 0); }
    assert Number(s, 5, 2) == 2 && Number(s, 8, 2) == 29;
    assert DaysInMonth(2021, 2) == 28 by { assert !IsLeapYear(2021); }
  }

  /** A leap second passes through unchanged. */
  lemma NormalizeLeapSecondExample()
    ensures NormalizeDate("2020-12-31 23:59:60") == "2020-12-31 23:59:60"
  {
    var s := "2020-12-31 23:59:60";
    assert Shaped(s);
    assert Number(s, 17, 2) == 60;
  }
}
