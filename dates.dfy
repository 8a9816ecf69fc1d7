/**
 * DATETIME values and their date text. The services read it with
 * `strptime(s, '%Y-%m-%d')`: a four-digit year, then a month and a day of
 * one or two digits (CPython's patterns for `%m` and `%d`, the day also
 * space-padded), naming a real calendar day. They print it with
 * `strftime('%Y-%m-%d')`, always zero-padded to 'YYYY-MM-DD'.
 */
module Dates {
  import opened Common
  import opened Text

  /** A DATETIME: a calendar day and the second within that day. */
  datatype DateTime = DateTime(year: nat, month: nat, day: nat, second: nat)

  /** `a < b` on DATETIME values: year, then month, then day, then time. */
  predicate Earlier(a: DateTime, b: DateTime) {
    || a.year < b.year
    || (a.year == b.year && a.month < b.month)
    || (a.year == b.year && a.month == b.month && a.day < b.day)
    || (a.year == b.year && a.month == b.month && a.day == b.day && a.second < b.second)
  }

  lemma EarlierIsStrictTotal(a: DateTime, b: DateTime, c: DateTime)
    ensures !Earlier(a, a)
    ensures Earlier(a, b) && Earlier(b, c) ==> Earlier(a, c)
    ensures a == b || Earlier(a, b) || Earlier(b, a)
  {
  }

  predicate IsLeapYear(y: int) {
    y % 4 == 0 && (y % 100 != 0 || y % 400 == 0)
  }

  function DaysInMonth(y: int, m: int): nat
    requires 1 <= m <= 12
  {
    if m == 2 then (if IsLeapYear(y) then 29 else 28)
    else if m == 4 || m == 6 || m == 9 || m == 11 then 30
    else 31
  }

  /** The days `datetime.date` accepts: years 1 to 9999, real months and days. */
  predicate IsCalendarDate(y: int, m: int, d: int) {
    1 <= y <= 9999 && 1 <= m <= 12 && 1 <= d <= DaysInMonth(y, m)
  }

  /** Midnight of the given day, as `strptime(...).date()` stores it in a DATETIME column. */
  function Midnight(t: DateTime): DateTime {
    DateTime(t.year, t.month, t.day, 0)
  }

  /** What one of `strptime`'s field patterns read: the field's number and how many characters it took. */
  datatype Read = Read(value: nat, length: nat)

  predicate IsNonZeroDigit(c: char) {
    '1' <= c <= '9'
  }

  /**
   * The `%m` pattern of `strptime`, `1[0-2]|0[1-9]|[1-9]`, at the start of
   * `s`: the first alternative that matches wins.
   */
  function MonthField(s: string): (r: Option<Read>)
    ensures r.Some? ==> 1 <= r.value.length <= 2 && r.value.length <= |s| && 1 <= r.value.value <= 12
  {
    if |s| >= 2 && s[0] == '1' && '0' <= s[1] <= '2' then Some(Read(10 + DigitValue(s[1]), 2))
    else if |s| >= 2 && s[0] == '0' && IsNonZeroDigit(s[1]) then Some(Read(DigitValue(s[1]), 2))
    else if |s| >= 1 && IsNonZeroDigit(s[0]) then Some(Read(DigitValue(s[0]), 1))
    else None
  }

  /**
   * The `%d` pattern, `3[0-1]|[1-2]\d|0[1-9]|[1-9]| [1-9]`, at the start of
   * `s`: the first alternative that matches wins (a space may stand for the
   * leading zero).
   */
  function DayField(s: string): (r: Option<Read>)
    ensures r.Some? ==> 1 <= r.value.length <= 2 && r.value.length <= |s| && 1 <= r.value.value <= 31
  {
    if |s| >= 2 && s[0] == '3' && '0' <= s[1] <= '1' then Some(Read(30 + DigitValue(s[1]), 2))
    else if |s| >= 2 && '1' <= s[0] <= '2' && IsDigit(s[1]) then Some(Read(10 * DigitValue(s[0]) + DigitValue(s[1]), 2))
    else if |s| >= 2 && s[0] == '0' && IsNonZeroDigit(s[1]) then Some(Read(DigitValue(s[1]), 2))
    else if |s| >= 1 && IsNonZeroDigit(s[0]) then Some(Read(DigitValue(s[0]), 1))
    else if |s| >= 2 && s[0] == ' ' && IsNonZeroDigit(s[1]) then Some(Read(DigitValue(s[1]), 2))
    else None
  }

  /**
   * `datetime.strptime(s, '%Y-%m-%d').date()`: four digits, '-', a month
   * field, '-', a day field and nothing after it, naming a real day
   * ("2024-1-5" and "2024-01- 5" are read as 2024-01-05). `None` is the
   * `ValueError` (no match, unconverted data left, or no such day).
   */
  function ParseYmd(s: string): (r: Option<DateTime>)
    ensures r.Some? ==> 8 <= |s| <= 10 && r.value.second == 0
    ensures r.Some? ==> IsCalendarDate(r.value.year, r.value.month, r.value.day)
  {
    if |s| < 5 || !AllDigits(s[..4]) || s[4] != '-' then None
    else
      var year := Value(s[..4]);
      match MonthField(s[5..])
      case None => None
      case Some(m) =>
        var rest := s[5 + m.length..];
        if rest == [] || rest[0] != '-' then None
        else
          match DayField(rest[1..])
          case None => None
          case Some(d) =>
            if d.length == |rest| - 1 && IsCalendarDate(year, m.value, d.value)
            then Some(DateTime(year, m.value, d.value, 0))
            else None
  }

  /** `t.strftime('%Y-%m-%d')`. */
  function FormatYmd(t: DateTime): (s: string)
    ensures |s| == 10 && s[4] == '-' && s[7] == '-' && AllDigits(s[..4]) && AllDigits(s[5..7]) && AllDigits(s[8..])
  {
    Pad(t.year, 4) + "-" + Pad(t.month, 2) + "-" + Pad(t.day, 2)
  }

  /** Two digits `%02d`-style: the tens digit, then the units digit. */
  lemma PadTwo(n: nat)
    requires n < 100
    ensures Pad(n, 2) == [DigitChar(n / 10), DigitChar(n % 10)]
  {
    var q := n / 10;
    assert q < 10;
    assert Pad(n, 2) == Pad(q, 1) + [DigitChar(n % 10)];
    assert q / 10 == 0 && q % 10 == q;
    assert Pad(q, 1) == Pad(q / 10, 0) + [DigitChar(q % 10)];
  }

  /** A printed month is read back whole by the `%m` pattern. */
  lemma MonthFieldOfPad(m: nat, rest: string)
    requires 1 <= m <= 12
    ensures MonthField(Pad(m, 2) + rest) == Some(Read(m, 2))
  {
    PadTwo(m);
    var s := Pad(m, 2) + rest;
    assert s[0] == DigitChar(m / 10) && s[1] == DigitChar(m % 10);
  }

  /** A printed day is read back whole by the `%d` pattern. */
  lemma DayFieldOfPad(d: nat)
    requires 1 <= d <= 31
    ensures DayField(Pad(d, 2)) == Some(Read(d, 2))
  {
    PadTwo(d);
  }

  /** Printing a stored day and parsing it again gives that day back, at midnight. */
  lemma ParseFormat(t: DateTime)
    requires IsCalendarDate(t.year, t.month, t.day)
    ensures ParseYmd(FormatYmd(t)) == Some(Midnight(t))
  {
    var s := FormatYmd(t);
    assert s[..4] == Pad(t.year, 4);
    assert s[5..] == Pad(t.month, 2) + "-" + Pad(t.day, 2);
    assert s[8..] == Pad(t.day, 2);
    assert Pow10(4) == 10000;
    ValuePad(t.year, 4);
    MonthFieldOfPad(t.month, "-" + Pad(t.day, 2));
    DayFieldOfPad(t.day);
  }

  /** Two digits read as a number. */
  lemma ValueTwo(s: string)
    requires |s| == 2 && AllDigits(s)
    ensures Value(s) == 10 * DigitValue(s[0]) + DigitValue(s[1])
  {
    var first := s[..1];
    assert first[..0] == [] && first[0] == s[0];
    assert Value(first) == DigitValue(s[0]);
  }

  /**
   * A text `strptime` accepts is exactly what `strftime` prints of its day
   * when, and only when, both fields have two digits and the day has no
   * leading space.
   */
  lemma FormatParse(s: string)
    requires ParseYmd(s).Some?
    ensures FormatYmd(ParseYmd(s).value) == s <==> |s| == 10 && s[8] != ' '
  {
    var t := ParseYmd(s).value;
    if |s| == 10 && s[8] != ' ' {
      var m, d := MonthField(s[5..]).value, DayField(s[5 + MonthField(s[5..]).value.length + 1..]).value;
      assert m.length == 2 && d.length == 2;
      assert s[5..][..2] == s[5..7];
      assert AllDigits(s[5..7]) && AllDigits(s[8..]);
      ValueTwo(s[5..7]);
      ValueTwo(s[8..]);
      assert Value(s[5..7]) == t.month && Value(s[8..]) == t.day;
      PadValue(s[..4]);
      PadValue(s[5..7]);
      PadValue(s[8..]);
      assert s == s[..4] + "-" + s[5..7] + "-" + s[8..];
    }
  }

  lemma YearText()
    ensures AllDigits("2024") && Value("2024") == 2024
    ensures Pad(2024, 4) == "2024"
  {
    assert "2024"[..3] == "202" && "202"[..2] == "20" && "20"[..1] == "2" && "2"[..0] == [];
    assert Pad(2, 1) == "2" && Pad(20, 2) == "20" && Pad(202, 3) == "202";
  }

  /** Single-digit fields are accepted. */
  lemma SingleDigitFieldsAccepted()
    ensures ParseYmd("2024-1-5") == Some(DateTime(2024, 1, 5, 0))
  {
    YearText();
    var s := "2024-1-5";
    assert s[..4] == "2024";
    assert s[5..] == "1-5" && "1-5"[1..] == "-5" && "-5"[1..] == "5";
  }

  /** A space may stand for the leading zero of the day. */
  lemma SpacePaddedDayAccepted()
    ensures ParseYmd("2024-01- 5") == Some(DateTime(2024, 1, 5, 0))
  {
    YearText();
    var s := "2024-01- 5";
    assert s[..4] == "2024";
    assert s[5..] == "01- 5" && "01- 5"[2..] == "- 5" && "- 5"[1..] == " 5";
  }

  /** That day prints back zero-padded, so such a text is not what `strftime` prints. */
  lemma ShortFieldsPrintPadded()
    ensures FormatYmd(DateTime(2024, 1, 5, 0)) == "2024-01-05"
  {
    YearText();
    PadTwo(1);
    PadTwo(5);
  }

  /** A month past December is the `ValueError`. */
  lemma MonthThirteenRefused()
    ensures ParseYmd("2024-13-01") == None
  {
    assert "2024-13-01"[5..] == "13-01";
  }

  /** A day the month does not have is the `ValueError`. */
  lemma FebruaryThirtiethRefused()
    ensures ParseYmd("2024-02-30") == None
  {
    YearText();
    assert "2024-02-30"[..4] == "2024";
    assert "2024-02-30"[5..] == "02-30" && "02-30"[2..] == "-30" && "-30"[1..] == "30";
  }

  /** Characters after the day are unconverted data: the `ValueError`. */
  lemma TrailingDataRefused()
    ensures ParseYmd("2024-1-5x") == None
  {
    assert "2024-1-5x"[5..] == "1-5x" && "1-5x"[1..] == "-5x" && "-5x"[1..] == "5x";
  }
}
