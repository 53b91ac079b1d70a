/**
 * Decimal text of integers: the formatting done by Java's `Integer.toString`
 * (also `StringBuilder.append(int)`, `"" + n`) and Python's `"{0}".format(n)`,
 * and the parsing done by Python's `int(text)`.
 */
module Decimal {
  datatype Option<T> = None | Some(value: T)

  predicate IsDigit(c: char) {
    '0' <= c <= '9'
  }

  predicate AllDigits(s: string) {
    forall i :: 0 <= i < |s| ==> IsDigit(s[i])
  }

  function DigitChar(d: nat): (c: char)
    requires d < 10
    ensures IsDigit(c) && c as int - '0' as int == d
  {
    ['0', '1', '2', '3', '4', '5', '6', '7', '8', '9'][d]
  }

  /** Decimal digits of `n`, most significant first, without leading zeros. */
  function NatToString(n: nat): (s: string)
    ensures |s| >= 1 && AllDigits(s)
    ensures s[0] == '0' ==> n == 0
  {
    if n < 10 then [DigitChar(n)] else NatToString(n / 10) + [DigitChar(n % 10)]
  }

  /** `Integer.toString(i)`: an optional minus sign followed by the digits of |i|. */
  function IntToString(i: int): (s: string)
    ensures |s| >= 1
    ensures forall k :: 0 <= k < |s| ==> IsDigit(s[k]) || (k == 0 && s[k] == '-')
    ensures (s[0] == '-') <==> i < 0
  {
    if i < 0 then "-" + NatToString(-i) else NatToString(i)
  }

  /** Value of a run of decimal digits, read most significant first. */
  function DigitsValue(s: string): (n: nat)
    requires AllDigits(s)
    ensures |s| == 1 ==> n == s[0] as int - '0' as int
  {
    if |s| == 0 then 0
    else DigitsValue(s[..|s| - 1]) * 10 + (s[|s| - 1] as int - '0' as int)
  }

  /**
   * The ASCII characters `int(text)` treats as white space: space, tab, line feed,
   * vertical tab, form feed, carriage return and the four separators 0x1C to 0x1F.
   */
  predicate IsSpace(c: char) {
    c == ' ' || c == '\t' || c == '\n' || c == '\r' || c as int == 0x0B || c as int == 0x0C
    || (0x1C <= c as int <= 0x1F)
  }

  function StripLeft(s: string): (r: string)
    ensures |r| <= |s| && r == s[|s| - |r|..]
    ensures |r| > 0 ==> !IsSpace(r[0])
    ensures (|s| > 0 && !IsSpace(s[0])) ==> r == s
  {
    if |s| > 0 && IsSpace(s[0]) then StripLeft(s[1..]) else s
  }

  function StripRight(s: string): (r: string)
    ensures |r| <= |s| && r == s[..|r|]
    ensures |r| > 0 ==> !IsSpace(r[|r| - 1])
    ensures (|s| > 0 && !IsSpace(s[|s| - 1])) ==> r == s
  {
    if |s| > 0 && IsSpace(s[|s| - 1]) then StripRight(s[..|s| - 1]) else s
  }

  /** Digits and `_` separators only. */
  predicate DigitsOrSeparators(s: string) {
    forall i :: 0 <= i < |s| ==> IsDigit(s[i]) || s[i] == '_'
  }

  /**
   * The digit part Python's `int` accepts in base 10: digits, with single `_`
   * separators allowed between two digits.
   */
  predicate Numeral(s: string) {
    |s| >= 1 && IsDigit(s[0]) && IsDigit(s[|s| - 1]) && DigitsOrSeparators(s)
    && forall i :: 0 <= i < |s| - 1 ==> !DoubleSeparatorAt(s, i)
  }

  predicate DoubleSeparatorAt(s: string, i: int)
    requires 0 <= i < |s| - 1
  {
    s[i] == '_' && s[i + 1] == '_'
  }

  /** An optional sign followed by a numeral: the text `int` reads once stripped. */
  predicate IntLiteral(t: string) {
    Numeral(t) || (|t| >= 2 && (t[0] == '-' || t[0] == '+') && Numeral(t[1..]))
  }

  /** The digits of `s` with the `_` separators taken out. */
  function WithoutSeparators(s: string): (d: string)
    ensures |d| <= |s|
    ensures DigitsOrSeparators(s) ==> AllDigits(d)
    ensures AllDigits(s) ==> d == s
    ensures |s| >= 1 && IsDigit(s[0]) ==> |d| >= 1 && d[0] == s[0]
  {
    if |s| == 0 then []
    else (if s[0] == '_' then [] else [s[0]]) + WithoutSeparators(s[1..])
  }

  /** Value of a numeral, its separators ignored. */
  function NumeralValue(s: string): (n: nat)
    requires Numeral(s)
  {
    DigitsValue(WithoutSeparators(s))
  }

  /**
   * Python's `int(text)` on ASCII text: surrounding white space is ignored, then an
   * optional sign and a numeral. `None` stands for the `ValueError` it raises.
   */
  function ParseInt(text: string): (r: Option<int>)
    ensures r.Some? <==> IntLiteral(StripRight(StripLeft(text)))
  {
    ParseStripped(StripRight(StripLeft(text)))
  }

  /** An optional sign and a numeral, the white space already gone. */
  function ParseStripped(t: string): (r: Option<int>)
    ensures r.Some? <==> IntLiteral(t)
    ensures r.Some? && r.value < 0 ==> t[0] == '-'
  {
    if |t| >= 2 && t[0] == '-' && Numeral(t[1..]) then Some(0 - NumeralValue(t[1..]))
    else if |t| >= 2 && t[0] == '+' && Numeral(t[1..]) then Some(NumeralValue(t[1..]) as int)
    else if Numeral(t) then Some(NumeralValue(t) as int)
    else None
  }

  /** Leaving out the separators of a numeral does not change what `int` reads. */
  lemma SeparatorsIgnored(s: string)
    requires Numeral(s)
    ensures Numeral(WithoutSeparators(s))
    ensures ParseInt(s) == ParseInt(WithoutSeparators(s)) == Some(NumeralValue(s))
  {
    var d := WithoutSeparators(s);
    NumeralOfDigits(d);
    ParseNumeral(s);
    ParseNumeral(d);
  }

  /** A numeral with nothing around it reads as its value. */
  lemma ParseNumeral(s: string)
    requires Numeral(s)
    ensures ParseInt(s) == Some(NumeralValue(s))
  {
    assert !IsSpace(s[0]) && !IsSpace(s[|s| - 1]);
    assert StripRight(StripLeft(s)) == s;
    assert s[0] != '-' && s[0] != '+';
  }

  /** A run of digits is a numeral and reads as its digits' value. */
  lemma NumeralOfDigits(d: string)
    requires |d| >= 1 && AllDigits(d)
    ensures Numeral(d) && NumeralValue(d) == DigitsValue(d)
  {
  }

  lemma {:induction false} DigitsOfNat(n: nat)
    ensures DigitsValue(NatToString(n)) == n
  {
    if n >= 10 {
      DigitsOfNat(n / 10);
      var s := NatToString(n);
      assert s[..|s| - 1] == NatToString(n / 10);
    }
  }

  /** Reading back what `Integer.toString` wrote gives the same integer. */
  lemma ParseIntToString(i: int)
    ensures ParseInt(IntToString(i)) == Some(i)
  {
    if i < 0 {
      ParseNegative(i);
    } else {
      ParseNatural(i);
    }
  }

  lemma ParseNegative(i: int)
    requires i < 0
    ensures ParseInt(IntToString(i)) == Some(i)
  {
    DigitsOfNat(-i);
    ParseSigned(IntToString(i), NatToString(-i), -i);
  }

  lemma ParseNatural(n: int)
    requires n >= 0
    ensures ParseInt(IntToString(n)) == Some(n)
  {
    var d := NatToString(n);
    DigitsOfNat(n);
    ParseDigits(d, n);
  }

  /** A minus sign and digits of value `n`, with nothing around them, read back as -n. */
  lemma ParseSigned(s: string, d: string, n: nat)
    requires s == "-" + d && |d| >= 1 && AllDigits(d) && DigitsValue(d) == n
    ensures ParseInt(s) == Some(-(n as int))
  {
    assert s[0] == '-' && s[1..] == d;
    StrippedSigned(s, d, n);
    NothingToStrip(s);
  }

  lemma StrippedSigned(s: string, d: string, n: nat)
    requires |s| >= 2 && s[0] == '-' && s[1..] == d
    requires AllDigits(d) && DigitsValue(d) == n
    ensures ParseStripped(s) == Some(-(n as int))
  {
    NumeralOfDigits(d);
    StrippedNegative(s);
  }

  /** A minus sign and a numeral read as the numeral's value negated. */
  lemma StrippedNegative(t: string)
    requires |t| >= 2 && t[0] == '-' && Numeral(t[1..])
    ensures ParseStripped(t) == Some(0 - NumeralValue(t[1..]))
  {
  }

  /** Digits of value `n`, with nothing around them, read back as n. */
  lemma ParseDigits(d: string, n: nat)
    requires |d| >= 1 && AllDigits(d) && DigitsValue(d) == n
    ensures ParseInt(d) == Some(n)
  {
    StrippedDigits(d, n);
    NothingToStrip(d);
  }

  lemma StrippedDigits(d: string, n: nat)
    requires |d| >= 1 && AllDigits(d) && DigitsValue(d) == n
    ensures ParseStripped(d) == Some(n)
  {
    NumeralOfDigits(d);
    assert d[0] != '-' && d[0] != '+';
  }

  /** A sign or digit at each end leaves `strip()` nothing to remove. */
  lemma NothingToStrip(s: string)
    requires |s| >= 1
    requires forall k :: 0 <= k < |s| ==> IsDigit(s[k]) || (k == 0 && s[k] == '-')
    ensures StripRight(StripLeft(s)) == s
  {
    assert !IsSpace(s[0]);
    assert !IsSpace(s[|s| - 1]);
  }

  /** Distinct integers have distinct decimal texts. */
  lemma IntToStringInjective(i: int, j: int)
    requires IntToString(i) == IntToString(j)
    ensures i == j
  {
    ParseIntToString(i);
    ParseIntToString(j);
  }
}
