/** The calendar-date part of `datetime.fromisoformat`: the ISO 8601
    extended calendar-date form `YYYY-MM-DD` (ISO 8601:2004, section
    4.1.2.2), read into a valid `Calendar.Date` or rejected with `None` (the
    `ValueError` it raises). `FormatIsoDate` writes the same form and is
    the parser's inverse. */
module IsoDate {
  import opened Wrappers
  import opened Calendar

  predicate IsDigit(c: char)
  {
    '0' <= c <= '9'
  }

  predicate AllDigits(s: string)
  {
    forall i | 0 <= i < |s| :: IsDigit(s[i])
  }

  function DigitValue(c: char): (n: nat)
    requires IsDigit(c)
    ensures n < 10
  {
    c as int - '0' as int
  }

  function DigitChar(n: nat): (c: char)
    requires n < 10
    ensures IsDigit(c) && DigitValue(c) == n
  {
    ('0' as int + n) as char
  }

  function Pow10(n: nat): (p: nat)
    ensures p >= 1
  {
    if n == 0 then 1 else 10 * Pow10(n - 1)
  }

  /** The number a string of decimal digits spells, most significant first. */
  function DecimalValue(s: string): (n: nat)
    requires AllDigits(s)
    ensures n < Pow10(|s|)
  {
    if s == [] then 0 else 10 * DecimalValue(s[..|s| - 1]) + DigitValue(s[|s| - 1])
  }

  /** `n` written with exactly `width` digits, zero-padded on the left. */
  function Decimal(n: nat, width: nat): (s: string)
    ensures |s| == width && AllDigits(s)
  {
    if width == 0 then [] else Decimal(n / 10, width - 1) + [DigitChar(n % 10)]
  }

  lemma {:induction false} DecimalValueOfDecimal(n: nat, width: nat)
    requires n < Pow10(width)
    ensures DecimalValue(Decimal(n, width)) == n
  {
    if width > 0 {
      var s := Decimal(n, width);
      var init, last := Decimal(n / 10, width - 1), DigitChar(n % 10);
      assert s == init + [last];
      assert s[..|s| - 1] == init && s[|s| - 1] == last;
      assert n / 10 < Pow10(width - 1);
      DecimalValueOfDecimal(n / 10, width - 1);
      assert DecimalValue(s) == 10 * (n / 10) + n % 10;
    }
  }

  lemma {:induction false} DecimalOfDecimalValue(s: string)
    requires AllDigits(s)
    ensures Decimal(DecimalValue(s), |s|) == s
  {
    if s != [] {
      var init, last := s[..|s| - 1], s[|s| - 1];
      DecimalOfDecimalValue(init);
      var n := DecimalValue(s);
      assert n / 10 == DecimalValue(init) && n % 10 == DigitValue(last);
      assert DigitChar(DigitValue(last)) == last;
      assert s == init + [last];
    }
  }

  /** Reads `YYYY-MM-DD`; every other string, and every string naming a day
      that does not exist (month 13, February 30th, year 0), is rejected. */
  function ParseIsoDate(s: string): (r: Option<Date>)
    ensures r.Some? ==> IsValid(r.value)
  {
    if |s| == 10 && s[4] == '-' && s[7] == '-'
       && AllDigits(s[..4]) && AllDigits(s[5..7]) && AllDigits(s[8..])
    then
      var d := Date(DecimalValue(s[..4]), DecimalValue(s[5..7]), DecimalValue(s[8..]));
      if IsValid(d) then Some(d) else None
    else None
  }

  function FormatIsoDate(d: Date): (s: string)
    requires IsValid(d)
  {
    Decimal(d.year, 4) + "-" + Decimal(d.month, 2) + "-" + Decimal(d.day, 2)
  }

  /** Every valid date is read back from its own `YYYY-MM-DD` text. */
  lemma ParseFormatRoundTrip(d: Date)
    requires IsValid(d)
    ensures ParseIsoDate(FormatIsoDate(d)) == Some(d)
  {
    var s := FormatIsoDate(d);
    assert s[..4] == Decimal(d.year, 4);
    assert s[5..7] == Decimal(d.month, 2);
    assert s[8..] == Decimal(d.day, 2);
    assert Pow10(2) == 100 && Pow10(4) == 10000;
    DecimalValueOfDecimal(d.year, 4);
    DecimalValueOfDecimal(d.month, 2);
    DecimalValueOfDecimal(d.day, 2);
  }

  /** A ten-character string with dashes at positions 4 and 7 is its three
      digit fields joined by dashes. */
  lemma IsoTextSplits(s: string)
    requires |s| == 10 && s[4] == '-' && s[7] == '-'
    ensures s == s[..4] + "-" + s[5..7] + "-" + s[8..]
  {
    assert s == s[..4] + [s[4]] + s[5..7] + [s[7]] + s[8..];
  }

  /** A string that parses is exactly the text of the date it denotes, so
      no two strings parse to the same date. */
  lemma FormatParseRoundTrip(s: string)
    requires ParseIsoDate(s).Some?
    ensures FormatIsoDate(ParseIsoDate(s).value) == s
  {
    var y, m, dd := s[..4], s[5..7], s[8..];
    var d := ParseIsoDate(s).value;
    assert d.year == DecimalValue(y) && d.month == DecimalValue(m) && d.day == DecimalValue(dd);
    DecimalOfDecimalValue(y);
    DecimalOfDecimalValue(m);
    DecimalOfDecimalValue(dd);
    IsoTextSplits(s);
  }
}
