/** The two numeric rules of `lib/currency-utils.ts`: the percentage change
    between two values and the character-stripping step that prepares a
    currency string for parsing. Values are exact reals. */
module CurrencyUtils {
  import opened Seqs

  function RealAbs(x: real): (r: real)
    ensures r >= 0.0 && (r == x || r == -x)
  {
    if x < 0.0 then -x else x
  }

  /** `calculatePercentChange(oldValue, newValue)`: from a zero base the change
      is 0 when the new value is zero too and 100 otherwise, whatever its sign;
      from a non-zero base it is the difference relative to the base's
      magnitude, so its sign is the sign of the difference. */
  function CalculatePercentChange(oldValue: real, newValue: real): (r: real)
    ensures oldValue != 0.0 ==> (r > 0.0 <==> newValue > oldValue)
    ensures oldValue != 0.0 ==> (r < 0.0 <==> newValue < oldValue)
    ensures oldValue == 0.0 ==> (r == 0.0 <==> newValue == 0.0)
  {
    if oldValue == 0.0 then (if newValue == 0.0 then 0.0 else 100.0)
    else (newValue - oldValue) / RealAbs(oldValue) * 100.0
  }

  /** The value reached by moving `pct` percent of the base's magnitude from it. */
  function ApplyPercentChange(oldValue: real, pct: real): real
  {
    oldValue + pct / 100.0 * RealAbs(oldValue)
  }

  /** From a non-zero base, applying the computed change recovers the new value. */
  lemma PercentChangeRoundTrip(oldValue: real, newValue: real)
    requires oldValue != 0.0
    ensures ApplyPercentChange(oldValue, CalculatePercentChange(oldValue, newValue)) == newValue
  {
    var a := RealAbs(oldValue);
    var q := (newValue - oldValue) / a;
    assert q * a == newValue - oldValue;
    assert CalculatePercentChange(oldValue, newValue) / 100.0 == q;
  }

  /** The zero-base rule: 0 for no change, 100 for any non-zero new value. */
  lemma PercentChangeFromZero(newValue: real)
    ensures CalculatePercentChange(0.0, newValue) == if newValue == 0.0 then 0.0 else 100.0
    ensures newValue < 0.0 ==> CalculatePercentChange(0.0, newValue) == 100.0
  {
  }

  /** An unchanged value is a change of 0 percent. */
  lemma PercentChangeOfSame(x: real)
    ensures CalculatePercentChange(x, x) == 0.0
  {
  }

  /** The characters `0`-`9`, `.` and `-`: the complement of the class the
      regular expression `[^0-9.-]+` removes. */
  predicate IsNumericChar(c: char)
  {
    '0' <= c <= '9' || c == '.' || c == '-'
  }

  /** The `replace(/[^0-9.-]+/g, '')` step of `parseCurrencyString`. */
  function StripNonNumeric(s: string): string
  {
    Filter(s, IsNumericChar)
  }

  /** Stripping keeps exactly the numeric characters, in their original order. */
  lemma StripKeepsExactlyNumeric(s: string, c: char)
    ensures IsSubseq(StripNonNumeric(s), s)
    ensures c in StripNonNumeric(s) <==> c in s && IsNumericChar(c)
  {
    FilterIsSubseq(s, IsNumericChar);
    FilterMembership(s, IsNumericChar, c);
  }

  /** A string of numeric characters only is left as it is. */
  lemma StripNumericUnchanged(s: string)
    requires forall i :: 0 <= i < |s| ==> IsNumericChar(s[i])
    ensures StripNonNumeric(s) == s
  {
    FilterKeepsAll(s, IsNumericChar);
  }

  /** Stripping twice is stripping once. */
  lemma StripIdempotent(s: string)
    ensures StripNonNumeric(StripNonNumeric(s)) == StripNonNumeric(s)
  {
    StripNumericUnchanged(StripNonNumeric(s));
  }

  /** A dollar sign and a thousands separator are dropped and the digits
      around them kept: `"$1,234.56"` becomes `"1234.56"`. */
  lemma StripExample(whole: string, rest: string)
    requires forall i :: 0 <= i < |whole| ==> IsNumericChar(whole[i])
    requires forall i :: 0 <= i < |rest| ==> IsNumericChar(rest[i])
    ensures StripNonNumeric("$" + whole + "," + rest) == whole + rest
  {
    FilterAppend("$" + whole + ",", rest, IsNumericChar);
    FilterAppend("$" + whole, ",", IsNumericChar);
    FilterAppend("$", whole, IsNumericChar);
    StripNumericUnchanged(whole);
    StripNumericUnchanged(rest);
  }
}
