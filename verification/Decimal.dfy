/** Decimal text of 64-bit integers, as `strconv` prints and reads it. */
module Decimal {
  import Int64

  predicate IsDigit(c: char) {
    '0' <= c <= '9'
  }

  predicate AllDigits(s: string) {
    forall c :: c in s ==> IsDigit(c)
  }

  function DigitOf(d: nat): (c: char)
    requires d < 10
    ensures IsDigit(c) && c as int - '0' as int == d
  {
    '0' + d as char
  }

  function FormatNat(n: nat): (s: string)
    ensures s != [] && AllDigits(s)
  {
    if n < 10 then [DigitOf(n)] else FormatNat(n / 10) + [DigitOf(n % 10)]
  }

  /** `%d` and `FormatInt(v, 10)`. */
  function FormatInt(v: int): string {
    if v < 0 then "-" + FormatNat(-v) else FormatNat(v)
  }

  function DigitsValue(s: string): nat
    requires AllDigits(s)
  {
    if s == [] then 0
    else
      var last := s[|s| - 1];
      assert last in s && forall c :: c in s[..|s| - 1] ==> c in s;
      10 * DigitsValue(s[..|s| - 1]) + (last as int - '0' as int)
  }

  datatype Parsed = Parsed(value: int) | SyntaxError | RangeError(clamped: int)

  /** `ParseInt(s, 10, 64)`. */
  function ParseInt(s: string): Parsed {
    if s != [] && s[0] == '-' then ParseDigits(s[1..], -1)
    else if s != [] && s[0] == '+' then ParseDigits(s[1..], 1)
    else ParseDigits(s, 1)
  }

  function ParseDigits(s: string, sign: int): Parsed {
    if s == [] || !AllDigits(s) then SyntaxError
    else
      var v := sign * DigitsValue(s);
      if Int64.InRange(v) then Parsed(v) else RangeError(if sign < 0 then Int64.MIN else Int64.MAX)
  }

  /** The number that `Atoi` returns, which on an error is not the text's value. */
  function AtoiValue(p: Parsed): int {
    match p
    case Parsed(v) => v
    case SyntaxError => 0
    case RangeError(clamped) => clamped
  }

  lemma {:induction false} FormatNatValue(n: nat)
    ensures DigitsValue(FormatNat(n)) == n
  {
    if n < 10 {
      assert FormatNat(n)[..0] == [];
    } else {
      FormatNatValue(n / 10);
      assert FormatNat(n)[..|FormatNat(n)| - 1] == FormatNat(n / 10);
    }
  }

  /** Printing and reading back is the identity on all of `int64`. */
  lemma FormatThenParse(v: int)
    requires Int64.InRange(v)
    ensures ParseInt(FormatInt(v)) == Parsed(v)
  {
    FormatNatValue(if v < 0 then -v else v);
    var s := FormatNat(if v < 0 then -v else v);
    assert s[0] in s;
    if v < 0 {
      assert FormatInt(v)[1..] == s;
    }
  }

  /** An optional sign and at least one digit. */
  ghost predicate Numeral(s: string, sign: string, digits: string) {
    sign in {"", "+", "-"} && s == sign + digits && digits != [] && AllDigits(digits)
  }

  ghost function NumeralValue(sign: string, digits: string): int
    requires AllDigits(digits)
  {
    var v: int := DigitsValue(digits);
    if sign == "-" then -v else v
  }

  /**
   A numeral is read as its value as long as that fits, and is clamped to the nearest
   value that does otherwise; anything else is refused.
   */
  lemma ParseNumeral(s: string, sign: string, digits: string)
    requires Numeral(s, sign, digits)
    ensures var v := NumeralValue(sign, digits);
      ParseInt(s) == if v < Int64.MIN then RangeError(Int64.MIN) else if v > Int64.MAX then RangeError(Int64.MAX)
                     else Parsed(v)
  {
    assert digits[0] in digits;
    if sign == "" {
      assert s == digits;
    } else {
      assert s[1..] == digits;
    }
  }

  lemma ParseRefuses(s: string)
    ensures ParseInt(s) == SyntaxError <==> !exists sign, digits :: Numeral(s, sign, digits)
  {
    if sign, digits :| Numeral(s, sign, digits) {
      ParseNumeral(s, sign, digits);
    }
    if s != [] && (s[0] == '-' || s[0] == '+') {
      assert s == s[..1] + s[1..];
      if ParseInt(s) != SyntaxError {
        assert s[..1] == [s[0]];
        assert Numeral(s, s[..1], s[1..]);
      }
    } else if ParseInt(s) != SyntaxError {
      assert Numeral(s, "", s);
    }
  }

  /** Leading zeros do not change the value. */
  lemma {:induction false} LeadingZeros(zeros: string, digits: string)
    requires AllDigits(digits) && forall c :: c in zeros ==> c == '0'
    ensures AllDigits(zeros + digits) && DigitsValue(zeros + digits) == DigitsValue(digits)
  {
    var s := zeros + digits;
    if s != [] {
      var n := |s| - 1;
      assert s[n] in s;
      if digits == [] {
        assert s == zeros && s[..n] == zeros[..n] + [];
        assert forall c :: c in zeros[..n] ==> c in zeros;
        LeadingZeros(zeros[..n], []);
      } else {
        assert s[..n] == zeros + digits[..|digits| - 1];
        assert forall c :: c in digits[..|digits| - 1] ==> c in digits;
        LeadingZeros(zeros, digits[..|digits| - 1]);
      }
    }
  }

  /** What `Atoi` returns is the number in `int64` nearest to the numeral's value. */
  lemma AtoiNearest(s: string, sign: string, digits: string, other: int)
    requires Numeral(s, sign, digits) && Int64.InRange(other)
    ensures var v, read := NumeralValue(sign, digits), AtoiValue(ParseInt(s));
      && Int64.InRange(read)
      && (if read <= v then v - read else read - v) <= (if other <= v then v - other else other - v)
  {
    ParseNumeral(s, sign, digits);
  }

  /** Digits without a redundant leading zero. */
  predicate Canonical(s: string) {
    s != [] && AllDigits(s) && (s[0] != '0' || |s| == 1)
  }

  lemma {:induction false} FormatNatCanonical(n: nat)
    ensures Canonical(FormatNat(n))
    ensures FormatNat(n)[0] == '0' ==> n == 0
  {
    if n >= 10 {
      FormatNatCanonical(n / 10);
      assert FormatNat(n)[0] == FormatNat(n / 10)[0];
    }
  }

  lemma {:induction false} CanonicalFormat(s: string)
    requires Canonical(s)
    ensures FormatNat(DigitsValue(s)) == s
    ensures s[0] != '0' ==> DigitsValue(s) > 0
  {
    var n := |s| - 1;
    var last := s[n];
    assert last in s;
    assert s == s[..n] + [last];
    if n == 0 {
      assert DigitsValue(s[..0]) == 0;
    } else {
      assert Canonical(s[..n]) by {
        assert forall c :: c in s[..n] ==> c in s;
      }
      CanonicalFormat(s[..n]);
      var v, d := DigitsValue(s[..n]), last as int - '0' as int;
      assert DigitsValue(s) == 10 * v + d && DigitsValue(s) / 10 == v && DigitsValue(s) % 10 == d;
      assert DigitOf(d) == last;
    }
  }

  /** Reading digits and printing them again gives the same text exactly when it was canonical. */
  lemma ParseThenFormat(s: string)
    requires s != [] && AllDigits(s)
    ensures FormatNat(DigitsValue(s)) == s <==> Canonical(s)
  {
    FormatNatCanonical(DigitsValue(s));
    if Canonical(s) {
      CanonicalFormat(s);
    }
  }

  /** Decimal text holds neither of the separators that surround it elsewhere. */
  lemma NoSeparators(v: int)
    ensures ':' !in FormatInt(v) && '#' !in FormatInt(v)
  {
  }

  /** A text that ends in a separator-free part can be split at its last separator in one way only. */
  lemma LastSeparator(a: string, b: string, c: string, d: string, sep: char)
    requires sep !in b && sep !in d
    requires a + [sep] + b == c + [sep] + d
    ensures a == c && b == d
  {
    var s := a + [sep] + b;
    LastOccurrence(a, b, sep);
    LastOccurrence(c, d, sep);
    assert |a| == |c|;
    assert s[..|a|] == a && s[..|c|] == c;
    assert s[|a| + 1..] == b && s[|c| + 1..] == d;
  }

  lemma LastOccurrence(a: string, b: string, sep: char)
    requires sep !in b
    ensures (a + [sep] + b)[|a|] == sep
    ensures forall k :: |a| < k < |a + [sep] + b| ==> (a + [sep] + b)[k] != sep
  {
    var s := a + [sep] + b;
    assert forall k :: |a| < k < |s| ==> s[k] == b[k - |a| - 1];
  }
}
