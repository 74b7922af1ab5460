/**
 * `parseInt(text) || 0`, the rating conversion of the form, over decimal
 * numerals: leading whitespace, an optional sign and the longest run of
 * decimal digits; no digits means NaN, which `|| 0` turns into 0.
 */
module Numbers {
  import opened Wrappers
  import opened Strings

  predicate IsDigit(c: char) { '0' <= c <= '9' }

  predicate AllDigits(d: string) { forall i :: 0 <= i < |d| ==> IsDigit(d[i]) }

  function DigitValue(c: char): (v: nat)
    requires IsDigit(c)
    ensures v < 10
  {
    (c as int) - ('0' as int)
  }

  function DigitChar(v: nat): (c: char)
    requires v < 10
    ensures IsDigit(c) && DigitValue(c) == v
  {
    (('0' as int) + v) as char
  }

  /** The longest prefix made of decimal digits. */
  function DigitPrefix(s: string): (d: string)
    ensures |d| <= |s| && AllDigits(d)
  {
    if |s| > 0 && IsDigit(s[0]) then [s[0]] + DigitPrefix(s[1..]) else []
  }

  /** The digits taken are a prefix of `s`, and the longest one: what follows
      them, if anything, is not a digit. */
  lemma {:induction false} DigitPrefixMaximal(s: string)
    ensures DigitPrefix(s) == s[..|DigitPrefix(s)|]
    ensures |DigitPrefix(s)| == |s| || !IsDigit(s[|DigitPrefix(s)|])
  {
    if |s| > 0 && IsDigit(s[0]) {
      var d' := DigitPrefix(s[1..]);
      DigitPrefixMaximal(s[1..]);
      assert s[1..][..|d'|] == s[1..|d'| + 1];
    }
  }

  /** The value of a decimal numeral, most significant digit first. */
  function DecimalValue(d: string): nat
    requires AllDigits(d)
  {
    if d == [] then 0 else DecimalValue(d[..|d| - 1]) * 10 + DigitValue(d[|d| - 1])
  }

  /** The shortest decimal numeral of `n`. */
  function Decimal(n: nat): (d: string)
    ensures d != [] && AllDigits(d)
  {
    if n < 10 then [DigitChar(n)] else Decimal(n / 10) + [DigitChar(n % 10)]
  }

  /** `parseInt(s)` in radix 10; `None` stands for NaN. */
  function ParseInt(s: string): Option<int>
  {
    ParseSigned(TrimStart(s))
  }

  /** What `parseInt` does after dropping leading whitespace: an optional
      sign, then the longest run of digits. */
  function ParseSigned(t: string): Option<int>
  {
    var negative := |t| > 0 && t[0] == '-';
    var u := if |t| > 0 && (t[0] == '-' || t[0] == '+') then t[1..] else t;
    var d := DigitPrefix(u);
    if d == [] then None
    else
      var v: int := DecimalValue(d);
      Some(if negative then -v else v)
  }

  /** `parseInt(s) || 0`: NaN (and a zero of either sign) becomes 0. */
  function RatingOf(s: string): int
  {
    match ParseInt(s)
    case None => 0
    case Some(v) => v
  }

  lemma {:induction false} DecimalRoundTrip(n: nat)
    ensures DecimalValue(Decimal(n)) == n
  {
    if n >= 10 {
      var d := Decimal(n / 10);
      var e := d + [DigitChar(n % 10)];
      assert e[..|e| - 1] == d;
      DecimalRoundTrip(n / 10);
    }
  }

  lemma {:induction false} DigitPrefixOfNumeral(d: string, rest: string)
    requires AllDigits(d)
    requires rest == [] || !IsDigit(rest[0])
    ensures DigitPrefix(d + rest) == d
  {
    if d == [] {
      assert d + rest == rest;
    } else {
      assert (d + rest)[1..] == d[1..] + rest;
      DigitPrefixOfNumeral(d[1..], rest);
      assert [d[0]] + d[1..] == d;
    }
  }

  /** Text without any decimal digit rates 0 (`parseInt` gives NaN). */
  lemma {:induction false} NoDigitsRatesZero(s: string)
    requires forall i :: 0 <= i < |s| ==> !IsDigit(s[i])
    ensures ParseInt(s) == None && RatingOf(s) == 0
  {
    var t := TrimStart(s);
    TrimStartSuffix(s);
    assert forall i :: 0 <= i < |t| ==> t[i] == s[|s| - |t| + i];
    if |t| > 1 { assert t[1] == s[|s| - |t| + 1]; }
  }

  /** Without leading whitespace `parseInt` reads its input as it is. */
  lemma {:induction false} ParseUntrimmed(x: string)
    requires x != [] && !IsWhitespace(x[0])
    ensures ParseInt(x) == ParseSigned(x)
  {
  }

  /** `parseInt` ignores leading whitespace. */
  lemma {:induction false} ParseSkipsWhitespace(w: string, x: string)
    requires forall i :: 0 <= i < |w| ==> IsWhitespace(w[i])
    ensures ParseInt(w + x) == ParseInt(x)
  {
    TrimStartSkips(w, x);
  }

  /** A numeral followed by a non-digit reads as its value. */
  lemma {:induction false} NumeralValue(n: nat, rest: string)
    requires rest == [] || !IsDigit(rest[0])
    ensures DigitPrefix(Decimal(n) + rest) == Decimal(n)
    ensures DecimalValue(DigitPrefix(Decimal(n) + rest)) == n
  {
    DigitPrefixOfNumeral(Decimal(n), rest);
    DecimalRoundTrip(n);
  }

  lemma {:induction false} PlainNumeral(n: nat, rest: string)
    requires rest == [] || !IsDigit(rest[0])
    ensures ParseSigned(Decimal(n) + rest) == Some(n)
  {
    var u := Decimal(n) + rest;
    assert u[0] == Decimal(n)[0];
    NumeralValue(n, rest);
  }

  lemma {:induction false} MinusNumeral(n: nat, rest: string)
    requires rest == [] || !IsDigit(rest[0])
    ensures ParseSigned("-" + (Decimal(n) + rest)) == Some(-(n as int))
  {
    var t := "-" + (Decimal(n) + rest);
    assert t[0] == '-' && t[1..] == Decimal(n) + rest;
    NumeralValue(n, rest);
  }

  /** After an optional sign, a numeral followed by a non-digit parses as
      its value, negated after a minus. */
  lemma {:induction false} SignedNumeralParses(negative: bool, n: nat, rest: string)
    requires rest == [] || !IsDigit(rest[0])
    ensures ParseSigned((if negative then "-" else "") + (Decimal(n) + rest))
         == Some(if negative then -(n as int) else n)
  {
    if negative {
      MinusNumeral(n, rest);
    } else {
      assert "" + (Decimal(n) + rest) == Decimal(n) + rest;
      PlainNumeral(n, rest);
    }
  }

  /** A numeral after whitespace, optionally signed and followed by a
      non-digit, rates as its value (`"3"`, `" -2"`, `"4.5"` give 3, -2, 4). */
  lemma {:induction false} NumeralRates(w: string, negative: bool, n: nat, rest: string)
    requires forall i :: 0 <= i < |w| ==> IsWhitespace(w[i])
    requires rest == [] || !IsDigit(rest[0])
    ensures RatingOf(w + ((if negative then "-" else "") + (Decimal(n) + rest)))
         == if negative then -(n as int) else n
  {
    var x := (if negative then "-" else "") + (Decimal(n) + rest);
    SignedNumeralParses(negative, n, rest);
    ParseSkipsWhitespace(w, x);
    assert x[0] == (if negative then '-' else Decimal(n)[0]);
    ParseUntrimmed(x);
  }
}
