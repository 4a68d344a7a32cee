/** The amount field of the asset page: `formatNumber`, which renders a
    non-negative amount with a comma between every group of three digits, and
    the field's change handler, which reads whatever the user typed back into
    an amount by keeping its digits only. */
module AmountFormat {
  import opened Text
  import opened Optional

  /** The shape `formatNumber` produces: digits, with a comma at exactly the
      positions that are a multiple of four characters from the end, and a
      length that is not itself such a multiple (so the first group is never
      empty). Equivalently: a first group of one to three digits followed by
      groups of a comma and exactly three digits. */
  predicate Grouped(s: string) {
    && |s| % 4 != 0
    && forall i :: 0 <= i < |s| ==>
         if (|s| - i) % 4 == 0 then s[i] == ',' else IsDigit(s[i])
  }

  /** Inserts the separators into a digit string, working from the right:
      the last three digits form a group and the rest is grouped the same
      way. */
  function Group(d: string): (r: string)
    requires AllDigits(d)
    ensures d != [] ==> Grouped(r)
    ensures KeepDigits(r) == d
    decreases |d|
  {
    if |d| <= 3 then d
    else
      var p, t := d[..|d| - 3], d[|d| - 3..];
      var g := Group(p);
      GroupedExtend(g, t);
      KeepDigitsSeparated(g, t);
      assert d == p + t;
      g + [','] + t
  }

  /** Appending a separator and three digits to a grouped string keeps it
      grouped. */
  lemma GroupedExtend(g: string, t: string)
    requires Grouped(g) && |t| == 3 && AllDigits(t)
    ensures Grouped(g + [','] + t)
  {
    var r := g + [','] + t;
    forall i | 0 <= i < |r|
      ensures if (|r| - i) % 4 == 0 then r[i] == ',' else IsDigit(r[i])
    {
      if i < |g| {
        assert (|r| - i) % 4 == (|g| - i) % 4;
        assert r[i] == g[i];
      } else if i > |g| {
        assert r[i] == t[i - |g| - 1];
      }
    }
  }

  /** The separator is not a digit, so the digits of `g + "," + t` are those
      of `g` followed by those of `t`. */
  lemma KeepDigitsSeparated(g: string, t: string)
    ensures KeepDigits(g + [','] + t) == KeepDigits(g) + KeepDigits(t)
  {
    KeepDigitsAppend(g + [','], t);
    KeepDigitsSnoc(g, ',');
  }

  // ---------------------------------------------------------------------
  // The regular expression, as written

  /** Whether `/\B(?=(\d{3})+(?!\d))/g` matches at position `i` of a string of
      digits: `\B` holds strictly between two digits, and the look-ahead
      needs a positive multiple of three digits up to the end. */
  predicate SeparatorAt(d: string, i: nat) {
    0 < i < |d| && (|d| - i) % 3 == 0
  }

  /** `d.replace(/\B(?=(\d{3})+(?!\d))/g, ",")` on a digit string, scanning
      positions from `i` left to right as the regular-expression engine
      does. */
  function RegexReplaceFrom(d: string, i: nat): string
    requires i <= |d|
    decreases |d| - i
  {
    if i == |d| then []
    else (if SeparatorAt(d, i) then [','] else []) + [d[i]] + RegexReplaceFrom(d, i + 1)
  }

  /** Past the last separator the scan copies the remaining digits. */
  lemma {:induction false} RegexReplaceTail(d: string, i: nat)
    requires i <= |d| <= i + 3
    requires i == 0 || |d| < i + 3
    ensures RegexReplaceFrom(d, i) == d[i..]
    decreases |d| - i
  {
    if i < |d| {
      RegexReplaceTail(d, i + 1);
      assert d[i..] == [d[i]] + d[i + 1..];
    }
  }

  /** Scanning `p + t`, with `t` three characters long, is scanning `p`
      and then emitting a separator and `t`. */
  lemma {:induction false} RegexReplaceSplit(d: string, i: nat)
    requires |d| > 3 && i <= |d| - 3
    ensures RegexReplaceFrom(d, i)
         == RegexReplaceFrom(d[..|d| - 3], i) + [','] + d[|d| - 3..]
    decreases |d| - i
  {
    var p := d[..|d| - 3];
    if i == |p| {
      RegexReplaceTail(d, i + 1);
      assert d[i..] == [d[i]] + d[i + 1..];
    } else {
      assert SeparatorAt(d, i) == SeparatorAt(p, i);
      RegexReplaceSplit(d, i + 1);
    }
  }

  /** `Group` is what the regular-expression replacement computes. */
  lemma {:induction false} GroupIsRegexReplace(d: string)
    requires AllDigits(d)
    ensures Group(d) == RegexReplaceFrom(d, 0)
    decreases |d|
  {
    if |d| <= 3 {
      RegexReplaceTail(d, 0);
    } else {
      RegexReplaceSplit(d, 0);
      GroupIsRegexReplace(d[..|d| - 3]);
    }
  }

  // ---------------------------------------------------------------------
  // formatNumber and the amount field

  /** `formatNumber(num)`: `num.toString()` with thousands separators. */
  function FormatNumber(n: nat): (r: string)
    ensures Grouped(r)
    ensures KeepDigits(r) == NatToDecimal(n)
  {
    Group(NatToDecimal(n))
  }

  /** `formatNumber` agrees with the regular expression it is written with. */
  lemma FormatNumberIsRegexReplace(n: nat)
    ensures FormatNumber(n) == RegexReplaceFrom(NatToDecimal(n), 0)
  {
    GroupIsRegexReplace(NatToDecimal(n));
  }

  /** What a grouped string looks like group by group: it neither starts nor
      ends with a comma, the first group has one to three digits, and every
      comma is followed by exactly three digits and then a comma or the end. */
  lemma GroupedShape(s: string)
    requires Grouped(s)
    ensures s != [] && s[0] != ',' && s[|s| - 1] != ','
    ensures 1 <= |s| % 4 <= 3
    ensures forall i :: 0 <= i < |s| % 4 ==> IsDigit(s[i])
    ensures |s| > 3 ==> s[|s| % 4] == ','
    ensures forall i :: 0 <= i < |s| && s[i] == ',' ==>
              && i + 3 < |s| && IsDigit(s[i + 1]) && IsDigit(s[i + 2]) && IsDigit(s[i + 3])
              && (i + 4 == |s| || s[i + 4] == ',')
  {
    assert (|s| - (|s| - 1)) % 4 != 0;
    forall i | 0 <= i < |s| && s[i] == ','
      ensures i + 3 < |s| && IsDigit(s[i + 1]) && IsDigit(s[i + 2]) && IsDigit(s[i + 3])
      ensures i + 4 == |s| || s[i + 4] == ','
    {
      assert (|s| - i) % 4 == 0;
      assert (|s| - (i + 1)) % 4 == 3 && (|s| - (i + 2)) % 4 == 2 && (|s| - (i + 3)) % 4 == 1;
    }
  }

  /** The change handler of the amount input: every character other than
      `0`-`9` is dropped, and an empty remainder means 0. */
  function ParseAmount(s: string): (n: nat)
    ensures (forall i :: 0 <= i < |s| ==> !IsDigit(s[i])) ==> n == 0
    ensures AllDigits(s) ==> n == DecimalValue(s)
  {
    var digits := KeepDigits(s);
    if digits == [] then 0 else DecimalValue(digits)
  }

  /** Typing or deleting a non-digit anywhere (a comma, a space, a letter)
      does not change the amount read. */
  lemma ParseAmountIgnoresNonDigit(a: string, c: char, b: string)
    requires !IsDigit(c)
    ensures ParseAmount(a + [c] + b) == ParseAmount(a + b)
  {
    KeepDigitsAppend(a + [c], b);
    KeepDigitsSnoc(a, c);
    KeepDigitsAppend(a, b);
    assert KeepDigits(a + [c]) == KeepDigits(a);
    assert KeepDigits(a + [c] + b) == KeepDigits(a + b);
  }

  /** Leading zeros typed into the field do not change the amount. */
  lemma ParseAmountLeadingZero(s: string)
    ensures ParseAmount(['0'] + s) == ParseAmount(s)
  {
    KeepDigitsAppend(['0'], s);
    DecimalLeadingZero(KeepDigits(s));
  }

  /** Reading back what `formatNumber` shows gives the amount that was
      formatted. */
  lemma FormatParseRoundTrip(n: nat)
    ensures ParseAmount(FormatNumber(n)) == n
  {
    DecimalRoundTrip(n);
  }

  /** The value shown in the amount input: the formatted amount, or the empty
      string (showing the placeholder) when the amount is 0 or missing.
      Reading it back through the change handler yields the stored amount,
      with a missing amount read as 0. */
  function DisplayAmount(amount: Option<nat>): (r: string)
    ensures r == [] <==> amount == None || amount == Some(0)
    ensures r != [] ==> Grouped(r) && KeepDigits(r) == NatToDecimal(amount.value)
    ensures ParseAmount(r) == amount.GetOr(0)
  {
    if amount.Some? && amount.value != 0 then
      FormatParseRoundTrip(amount.value);
      FormatNumber(amount.value)
    else []
  }

  /** Showing the amount read from any input and reading it again changes
      nothing: the field settles after one keystroke. */
  lemma DisplayParseStable(s: string)
    ensures ParseAmount(DisplayAmount(Some(ParseAmount(s)))) == ParseAmount(s)
  {
  }

  /** The change handler as a left-to-right scan of the typed text, the way
      the digits are accumulated one at a time. */
  method ParseAmountScan(s: string) returns (n: nat)
    ensures n == ParseAmount(s)
  {
    n := 0;
    ghost var digits: string := [];
    var i := 0;
    while i < |s|
      invariant 0 <= i <= |s|
      invariant digits == KeepDigits(s[..i])
      invariant n == DecimalValue(digits)
    {
      KeepDigitsPrefixStep(s, i);
      if IsDigit(s[i]) {
        DecimalValueSnoc(digits, s[i]);
        n := 10 * n + DigitValue(s[i]);
        digits := digits + [s[i]];
      }
      i := i + 1;
    }
    assert s[..i] == s;
  }

  /** The digits of one more character of the input. */
  lemma KeepDigitsPrefixStep(s: string, i: nat)
    requires i < |s|
    ensures KeepDigits(s[..i + 1]) == KeepDigits(s[..i]) + (if IsDigit(s[i]) then [s[i]] else [])
  {
    assert s[..i + 1] == s[..i] + [s[i]];
    KeepDigitsSnoc(s[..i], s[i]);
  }
}
