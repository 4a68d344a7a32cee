/** Calendar dates as the pages store them: the `YYYY-MM-DD` string both the
    maturity-date picker of the asset page and the birth-date picker of the
    settings page build from a picked date's year, 0-based month and day. */
module Dates {
  import opened Text
  import opened Optional

  /** What the pages read from a picked `Date`: `getFullYear()`,
      `getMonth()` (0-based) and `getDate()`. */
  datatype DateParts = DateParts(year: int, month0: nat, day: nat)

  /** The ranges JavaScript's `Date` getters guarantee. */
  predicate ValidParts(d: DateParts) {
    d.month0 <= 11 && 1 <= d.day <= 31
  }

  /** `String(n).padStart(2, "0")`. */
  function Pad2(n: nat): (r: string)
    ensures AllDigits(r) && DecimalValue(r) == n
    ensures n < 100 ==> |r| == 2
    ensures n >= 10 ==> r == NatToDecimal(n)
  {
    var s := NatToDecimal(n);
    DecimalRoundTrip(n);
    if |s| >= 2 then s
    else
      DecimalLeadingZero(s);
      ['0'] + s
  }

  /** `${year}-${pad2(month0 + 1)}-${pad2(day)}`. */
  function FormatDate(d: DateParts): (r: string)
    ensures ValidParts(d) ==>
      |r| == |IntToString(d.year)| + 6 && r[|r| - 3] == '-' && r[|r| - 6] == '-'
  {
    IntToString(d.year) + ['-'] + Pad2(d.month0 + 1) + ['-'] + Pad2(d.day)
  }

  /** Reads a signed decimal year: optional `-` then at least one digit. */
  function ParseYear(s: string): (r: Option<int>)
    ensures r.Some? ==> s != [] && (r.value < 0 ==> s[0] == '-')
  {
    if |s| >= 2 && s[0] == '-' && AllDigits(s[1..]) then
      var magnitude: int := DecimalValue(s[1..]);
      Some(-magnitude)
    else if |s| >= 1 && AllDigits(s) then
      Some(DecimalValue(s))
    else None
  }

  /** Reads back a string of the shape `FormatDate` produces. */
  function ParseDate(s: string): (r: Option<DateParts>)
    ensures r.Some? ==> |s| >= 7 && s[|s| - 3] == '-' && s[|s| - 6] == '-'
  {
    if |s| < 7 || s[|s| - 3] != '-' || s[|s| - 6] != '-' then None
    else
      var y, mm, dd := s[..|s| - 6], s[|s| - 5..|s| - 3], s[|s| - 2..];
      if !AllDigits(mm) || !AllDigits(dd) || DecimalValue(mm) == 0 then None
      else match ParseYear(y)
        case None => None
        case Some(year) => Some(DateParts(year, DecimalValue(mm) - 1, DecimalValue(dd)))
  }

  /** The year as `String(year)` writes it reads back to the same year. */
  lemma ParseYearRoundTrip(year: int)
    ensures ParseYear(IntToString(year)) == Some(year)
  {
  }

  /** Where the three fields sit in the stored string. */
  lemma FormatDateFields(d: DateParts)
    requires ValidParts(d)
    ensures var s := FormatDate(d);
      && |s| >= 7 && s[|s| - 3] == '-' && s[|s| - 6] == '-'
      && s[..|s| - 6] == IntToString(d.year)
      && s[|s| - 5..|s| - 3] == Pad2(d.month0 + 1)
      && s[|s| - 2..] == Pad2(d.day)
  {
    var y, m, dd := IntToString(d.year), Pad2(d.month0 + 1), Pad2(d.day);
    var s := FormatDate(d);
    assert s == y + ['-'] + m + ['-'] + dd;
    assert s[..|s| - 6] == y;
    assert s[|s| - 5..|s| - 3] == m;
  }

  /** The stored date string determines the picked date: reading it back
      gives the year, month and day it was built from. */
  lemma FormatParseRoundTrip(d: DateParts)
    requires ValidParts(d)
    ensures ParseDate(FormatDate(d)) == Some(d)
  {
    FormatDateFields(d);
    ParseYearRoundTrip(d.year);
  }

  /** Consequently two different valid dates never produce the same string. */
  lemma FormatDateInjective(a: DateParts, b: DateParts)
    requires ValidParts(a) && ValidParts(b) && FormatDate(a) == FormatDate(b)
    ensures a == b
  {
    FormatParseRoundTrip(a);
    FormatParseRoundTrip(b);
  }
}
