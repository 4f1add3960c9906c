/** Calendar dates as the tracker stores, parses, prints and compares them.

    A transaction's date lives in a DATE column, which SQLite keeps as the
    text `YYYY-MM-DD`; every comparison and ORDER BY on it is a comparison of
    that text. The model keeps a date as a (year, month, day) triple and
    proves that, for the dates the program can store, the triple order is
    the text order. */
module Dates {
  import opened Common
  import opened Text

  datatype Date = Date(year: int, month: int, day: int)

  /** The `YYYY-MM` period a date falls in. */
  datatype YearMonth = YearMonth(year: int, month: int)

  predicate IsLeapYear(year: int) {
    year % 4 == 0 && (year % 100 != 0 || year % 400 == 0)
  }

  function DaysInMonth(year: int, month: int): (n: int)
    requires 1 <= month <= 12
    ensures 28 <= n <= 31
  {
    if month == 2 then (if IsLeapYear(year) then 29 else 28)
    else if month == 4 || month == 6 || month == 9 || month == 11 then 30
    else 31
  }

  /** A date Python's `datetime.date` accepts: years 1 to 9999, real calendar days. */
  predicate ValidDate(d: Date) {
    && 1 <= d.year <= 9999
    && 1 <= d.month <= 12
    && 1 <= d.day <= DaysInMonth(d.year, d.month)
  }

  /** Chronological order on dates. */
  predicate DateLe(a: Date, b: Date) {
    || a.year < b.year
    || (a.year == b.year && (a.month < b.month || (a.month == b.month && a.day <= b.day)))
  }

  function MonthOf(d: Date): YearMonth {
    YearMonth(d.year, d.month)
  }

  /** Strict chronological order on periods; `YYYY-MM` strings sort the same way. */
  predicate MonthBefore(a: YearMonth, b: YearMonth) {
    a.year < b.year || (a.year == b.year && a.month < b.month)
  }

  /** `Y-M-D` with a four-digit year and two-digit month and day. */
  function IsoText(year: nat, month: nat, day: nat): (s: string)
    requires year < 10000 && month < 100 && day < 100
    ensures |s| == 10
  {
    Pad(year, 4) + "-" + Pad(month, 2) + "-" + Pad(day, 2)
  }

  /** The stored and printed form of a date (`str(date)`, `date.isoformat()`). */
  function FormatDate(d: Date): (s: string)
    requires ValidDate(d)
    ensures |s| == 10
  {
    IsoText(d.year, d.month, d.day)
  }

  /** Two padded fields followed by a dash: the fields decide unless equal. */
  lemma PadFieldOrder(x: nat, y: nat, width: nat, s: string, t: string)
    requires x < Pow10(width) && y < Pow10(width)
    ensures StringLe(Pad(x, width) + "-" + s, Pad(y, width) + "-" + t) <==> x < y || (x == y && StringLe(s, t))
  {
    var p, q := Pad(x, width), Pad(y, width);
    assert p + "-" + s == p + ("-" + s);
    assert q + "-" + t == q + ("-" + t);
    StringLeConcat(p, "-" + s, q, "-" + t);
    StringLeConcat("-", s, "-", t);
    PadOrder(x, y, width);
    PadValue(x, width);
    PadValue(y, width);
  }

  /** Comparing two ISO texts is comparing the dates they spell. */
  lemma IsoTextOrder(a: Date, b: Date)
    requires 0 <= a.year < 10000 && 0 <= a.month < 100 && 0 <= a.day < 100
    requires 0 <= b.year < 10000 && 0 <= b.month < 100 && 0 <= b.day < 100
    ensures StringLe(IsoText(a.year, a.month, a.day), IsoText(b.year, b.month, b.day)) <==> DateLe(a, b)
  {
    var ta, tb := Pad(a.month, 2) + "-" + Pad(a.day, 2), Pad(b.month, 2) + "-" + Pad(b.day, 2);
    assert IsoText(a.year, a.month, a.day) == Pad(a.year, 4) + "-" + ta;
    assert IsoText(b.year, b.month, b.day) == Pad(b.year, 4) + "-" + tb;
    PadFieldOrder(a.year, b.year, 4, ta, tb);
    PadFieldOrder(a.month, b.month, 2, Pad(a.day, 2), Pad(b.day, 2));
    PadOrder(a.day, b.day, 2);
  }

  /** The day field of `%d`: one digit, two digits, or a space and one digit. */
  function DayField(t: string): Option<int> {
    if |t| == 1 && IsDigit(t[0]) then Some(DigitsValue(t))
    else if |t| == 2 && AllDigits(t) then Some(DigitsValue(t))
    else if |t| == 2 && t[0] == ' ' && IsDigit(t[1]) then Some(DigitsValue(t[1..]))
    else None
  }

  /** `datetime.strptime(text, "%Y-%m-%d").date()`: exactly four year digits,
      a month of one or two digits, a day as `DayField` reads it, nothing
      after, and a real calendar date; `None` where Python raises ValueError. */
  function ParseDate(text: string): (r: Option<Date>)
    ensures r.Some? ==> ValidDate(r.value)
    ensures r.Some? ==> 8 <= |text| <= 10 && text[4] == '-'
    ensures r.Some? ==> AllDigits(text[..4]) && r.value.year == DigitsValue(text[..4])
  {
    if |text| < 8 || !AllDigits(text[..4]) || text[4] != '-' then None
    else
      var rest := text[5..];
      var width := if rest[1] == '-' then 1 else if rest[2] == '-' then 2 else 0;
      if width == 0 || !AllDigits(rest[..width]) then None
      else
        match DayField(rest[width + 1..])
        case None => None
        case Some(day) =>
          var d := Date(DigitsValue(text[..4]), DigitsValue(rest[..width]), day);
          if ValidDate(d) then Some(d) else None
  }

  /** `text` is four year digits, a dash, `width` month digits, a dash and a
      day field, and these fields hold the year, month and day of `d`. */
  predicate SpellsDate(text: string, width: nat, d: Date) {
    && 7 + width <= |text|
    && AllDigits(text[..4]) && text[4] == '-'
    && AllDigits(text[5..5 + width]) && text[5 + width] == '-'
    && d.year == DigitsValue(text[..4])
    && d.month == DigitsValue(text[5..5 + width])
    && DayField(text[6 + width..]) == Some(d.day)
  }

  /** The texts the parser accepts are exactly the `YYYY-M-D` spellings, with
      a one- or two-digit month, of real calendar dates, and each gives the
      date its fields spell. */
  lemma ParseDateAccepts(text: string, d: Date)
    ensures ParseDate(text) == Some(d) <==> ValidDate(d) && (SpellsDate(text, 1, d) || SpellsDate(text, 2, d))
  {
    if ParseDate(text) == Some(d) {
      var rest := text[5..];
      var width := if rest[1] == '-' then 1 else 2;
      assert rest[..width] == text[5..5 + width];
      assert rest[width + 1..] == text[6 + width..];
      assert SpellsDate(text, width, d);
    }
    if ValidDate(d) && (SpellsDate(text, 1, d) || SpellsDate(text, 2, d)) {
      var width := if SpellsDate(text, 1, d) then 1 else 2;
      var rest := text[5..];
      assert 8 <= |text|;
      if width == 2 {
        assert IsDigit(text[5..7][1]);
        assert rest[1] != '-';
      }
      assert rest[..width] == text[5..5 + width];
      assert rest[width + 1..] == text[6 + width..];
    }
  }

  /** The short forms `%m` and `%d` allow give the same date as the full
      form, and a day field that is not a number is refused. */
  lemma ParseDateShortForms()
    ensures ParseDate("2024-1-5") == Some(Date(2024, 1, 5))
    ensures ParseDate("2024-01- 5") == Some(Date(2024, 1, 5))
    ensures ParseDate("2024-01-1a") == None
  {
    assert DigitsValue("2024") == 2024 by {
      assert DigitsValue("2") == 2 by { assert "2"[..0] == ""; }
      assert DigitsValue("20") == 20 by { assert "20"[..1] == "2"; }
      assert DigitsValue("202") == 202 by { assert "202"[..2] == "20"; }
      assert "2024"[..3] == "202";
    }
    assert ParseDate("2024-1-5") == Some(Date(2024, 1, 5)) by {
      var short := "2024-1-5";
      assert short[..4] == "2024" && short[5..6] == "1" && short[7..] == "5";
      ParseDateAccepts(short, Date(2024, 1, 5));
    }
    assert ParseDate("2024-01- 5") == Some(Date(2024, 1, 5)) by {
      var spaced := "2024-01- 5";
      assert spaced[..4] == "2024" && spaced[5..7] == "01" && spaced[8..] == " 5";
      assert "01"[..1] == "0";
      ParseDateAccepts(spaced, Date(2024, 1, 5));
    }
    assert ParseDate("2024-01-1a") == None by {
      var bad := "2024-01-1a";
      assert bad[5..][2] == '-' && bad[5..][3..] == "1a" && !IsDigit("1a"[1]);
    }
  }

  /** Every stored date reads back as itself (the `strptime(str(date))` step). */
  lemma ParseFormatRoundTrip(d: Date)
    requires ValidDate(d)
    ensures ParseDate(FormatDate(d)) == Some(d)
  {
    var s := FormatDate(d);
    var y, m, dd := Pad(d.year, 4), Pad(d.month, 2), Pad(d.day, 2);
    assert s == y + "-" + m + "-" + dd;
    assert s[..4] == y && s[5..7] == m && s[8..] == dd;
    PadValue(d.year, 4);
    PadValue(d.month, 2);
    PadValue(d.day, 2);
    assert SpellsDate(s, 2, d);
    ParseDateAccepts(s, d);
  }

  /** A text that parses and has the full ten characters is the canonical one. */
  lemma FormatParseRoundTrip(text: string, d: Date)
    requires ParseDate(text) == Some(d)
    requires |text| == 10 && AllDigits(text[..4]) && AllDigits(text[5..7]) && AllDigits(text[8..])
    ensures FormatDate(d) == text
  {
    var rest := text[5..];
    assert rest[2] == '-';
    assert rest[..2] == text[5..7];
    assert rest[3..] == text[8..];
    PadValue(d.year, 4);
    PadValue(d.month, 2);
    PadValue(d.day, 2);
    DigitsDetermineText(text[..4], Pad(d.year, 4));
    DigitsDetermineText(text[5..7], Pad(d.month, 2));
    DigitsDetermineText(text[8..], Pad(d.day, 2));
    assert text == text[..4] + "-" + text[5..7] + "-" + text[8..];
  }

  /** Two digit strings of one length with one value are one string. */
  lemma {:induction false} DigitsDetermineText(a: string, b: string)
    requires AllDigits(a) && AllDigits(b) && |a| == |b|
    requires DigitsValue(a) == DigitsValue(b)
    ensures a == b
    decreases |a|
  {
    if |a| > 0 {
      var n := |a| - 1;
      assert a[..n] + [a[n]] == a && b[..n] + [b[n]] == b;
      DigitsDetermineText(a[..n], b[..n]);
    }
  }

  /** The month filter's literal bound `Y-MM-01 <= date <= Y-MM-31`, on triples. */
  function InMonthBound(d: Date, ym: YearMonth): (r: bool)
    ensures ValidDate(d) ==> (r <==> MonthOf(d) == ym)
  {
    DateLe(Date(ym.year, ym.month, 1), d) && DateLe(d, Date(ym.year, ym.month, 31))
  }

  /** For a four-digit year and a month of at most two digits, the bound on
      triples is the text comparison SQLite performs against the stored date. */
  lemma MonthBoundAsText(d: Date, ym: YearMonth)
    requires ValidDate(d)
    requires 1000 <= ym.year <= 9999 && 0 <= ym.month <= 99
    ensures InMonthBound(d, ym) <==>
              && StringLe(IsoText(ym.year, ym.month, 1), FormatDate(d))
              && StringLe(FormatDate(d), IsoText(ym.year, ym.month, 31))
  {
    IsoTextOrder(Date(ym.year, ym.month, 1), d);
    IsoTextOrder(d, Date(ym.year, ym.month, 31));
  }
}
