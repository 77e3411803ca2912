/**
 * Reading a decimal numeral as an exact number: the part of Python's `float()`
 * that the salary parser relies on, without binary floating-point rounding.
 */
module Decimal {
  import opened Wrappers
  import opened Text

  predicate AllDigits(s: string) {
    forall i :: 0 <= i < |s| ==> IsDigit(s[i])
  }

  function DigitValue(c: char): nat
    requires IsDigit(c)
  {
    c as int - '0' as int
  }

  /** The value of a string of decimal digits, most significant first ("" reads as 0). */
  function Natural(s: string): nat
    requires AllDigits(s)
  {
    if s == [] then 0 else 10 * Natural(s[..|s| - 1]) + DigitValue(s[|s| - 1])
  }

  function Pow10(k: nat): (p: nat)
    ensures p >= 1
  {
    if k == 0 then 1 else 10 * Pow10(k - 1)
  }

  /** Position of the first `c` in `s`, or `|s|` when there is none. */
  function IndexOf(s: string, c: char): (i: nat)
    ensures i <= |s|
    ensures forall k :: 0 <= k < i ==> s[k] != c
    ensures i < |s| ==> s[i] == c
  {
    if s == [] then 0 else if s[0] == c then 0 else 1 + IndexOf(s[1..], c)
  }

  /**
   * `float(s)` on unsigned decimal numerals: `digits` or `digits.digits`, both parts
   * non-empty. Any other string is refused (`None`, Python's `ValueError`).
   */
  function ToFloat(s: string): (r: Option<real>)
    ensures r.Some? ==> r.value >= 0.0
  {
    var i := IndexOf(s, '.');
    var whole := s[..i];
    if whole == [] || !AllDigits(whole) then None
    else if i == |s| then Some(Natural(whole) as real)
    else
      var fraction := s[i + 1..];
      if fraction == [] || !AllDigits(fraction) then None
      else Some(Natural(whole) as real + Fraction(fraction))
  }

  /**
   * The value of the digits written after the decimal point, read from the point on:
   * each digit is worth a tenth of the one before it.
   */
  function Fraction(digits: string): (f: real)
    requires AllDigits(digits)
    ensures 0.0 <= f < 1.0
  {
    if digits == [] then 0.0 else (DigitValue(digits[0]) as real + Fraction(digits[1..])) / 10.0
  }

  /** Digits written after others shift them left: the value of a concatenation. */
  lemma {:induction false} NaturalConcat(a: string, b: string)
    requires AllDigits(a) && AllDigits(b)
    ensures AllDigits(a + b)
    ensures Natural(a + b) == Natural(a) * Pow10(|b|) + Natural(b)
  {
    if b == [] {
      assert a + b == a;
    } else {
      var b' := b[..|b| - 1];
      var d := DigitValue(b[|b| - 1]);
      assert (a + b)[..|a + b| - 1] == a + b';
      assert (a + b)[|a + b| - 1] == b[|b| - 1];
      NaturalConcat(a, b');
      var x, p, y := Natural(a), Pow10(|b'|), Natural(b');
      assert Natural(a + b) == 10 * (x * p + y) + d;
      assert Natural(b) == 10 * y + d;
      assert Pow10(|b|) == 10 * p;
      TimesTen(x, p);
    }
  }

  lemma TimesTen(x: int, p: int)
    ensures 10 * (x * p) == x * (10 * p)
  {
  }

  /** A digit string reads as zero exactly when every digit is `0`. */
  lemma {:induction false} NaturalZero(s: string)
    requires AllDigits(s)
    ensures Natural(s) == 0 <==> forall k :: 0 <= k < |s| ==> s[k] == '0'
  {
    if s != [] {
      var s' := s[..|s| - 1];
      NaturalZero(s');
      assert forall k :: 0 <= k < |s'| ==> s'[k] == s[k];
    }
  }

  /** A numeral that reads holds only digits and the point. */
  lemma ToFloatChars(s: string)
    requires ToFloat(s).Some?
    ensures forall k :: 0 <= k < |s| ==> IsDigit(s[k]) || s[k] == '.'
  {
    var i := IndexOf(s, '.');
    assert forall k :: 0 <= k < |s| ==> (k < i && s[k] == s[..i][k]) || k == i || (i < k && s[k] == s[i + 1..][k - i - 1]);
  }

  /** A fraction is zero exactly when every digit of it is `0`. */
  lemma {:induction false} FractionZero(digits: string)
    requires AllDigits(digits)
    ensures Fraction(digits) == 0.0 <==> forall k :: 0 <= k < |digits| ==> digits[k] == '0'
  {
    if digits != [] {
      var rest := digits[1..];
      FractionZero(rest);
      assert forall k :: 0 <= k < |rest| ==> rest[k] == digits[k + 1];
      assert (forall k :: 0 <= k < |digits| ==> digits[k] == '0')
         <==> digits[0] == '0' && forall k :: 0 <= k < |rest| ==> rest[k] == '0';
    }
  }

  /** `f` times `p`. */
  function Scale(f: real, p: nat): real {
    f * p as real
  }

  /** The fraction is the digits read as a whole number, scaled down by ten per digit. */
  lemma {:induction false} FractionScaled(digits: string)
    requires AllDigits(digits)
    ensures Scale(Fraction(digits), Pow10(|digits|)) == Natural(digits) as real
  {
    if digits != [] {
      var c, rest := digits[0], digits[1..];
      assert Natural(digits) == DigitValue(c) * Pow10(|rest|) + Natural(rest) by {
        assert digits == [c] + rest;
        NaturalConcat([c], rest);
        assert [c][..0] == [];
      }
      assert Pow10(|digits|) == 10 * Pow10(|rest|);
      FractionScaled(rest);
      ShiftDigit(Fraction(digits), Pow10(|digits|), Natural(digits),
                 DigitValue(c), Pow10(|rest|), Natural(rest), Fraction(rest));
    }
  }

  /**
   * Putting a digit `d` in front of a fraction `f` worth `n` over `p` gives a fraction
   * worth `d p + n` over `10 p`.
   */
  lemma ShiftDigit(g: real, q: nat, m: nat, d: nat, p: nat, n: nat, f: real)
    requires g == (d as real + f) / 10.0 && q == 10 * p && m == d * p + n
    requires Scale(f, p) == n as real
    ensures Scale(g, q) == m as real
  {
    assert (d * p) as real == d as real * p as real;
    assert q as real == 10.0 * p as real;
  }

  /** A successful reading is zero exactly when every digit of the numeral is `0`. */
  lemma ToFloatZero(s: string)
    requires ToFloat(s).Some?
    ensures ToFloat(s).value == 0.0 <==> forall k :: 0 <= k < |s| && IsDigit(s[k]) ==> s[k] == '0'
  {
    var i := IndexOf(s, '.');
    var whole := s[..i];
    NaturalZero(whole);
    if i < |s| {
      var fraction := s[i + 1..];
      FractionZero(fraction);
      assert forall k :: 0 <= k < |s| && IsDigit(s[k]) ==> (k < i && s[k] == whole[k]) || (i < k && s[k] == fraction[k - i - 1]);
    }
  }

  /** A numeral with a point: `whole.fraction` reads as the whole part plus the scaled fraction. */
  lemma ToFloatPoint(whole: string, fraction: string)
    requires whole != [] && AllDigits(whole)
    requires fraction != [] && AllDigits(fraction)
    ensures ToFloat(whole + "." + fraction)
         == Some(Natural(whole) as real + Fraction(fraction))
  {
    var s := whole + "." + fraction;
    assert IndexOf(s, '.') == |whole| && s[..|whole|] == whole && s[|whole| + 1..] == fraction by {
      assert s[|whole|] == '.';
      assert forall k :: 0 <= k < |whole| ==> s[k] == whole[k];
      assert s[..|whole|] == whole;
      assert s[|whole| + 1..] == fraction;
    }
    assert AllDigits(s[..IndexOf(s, '.')]) && AllDigits(s[IndexOf(s, '.') + 1..]);
  }

  /** A numeral without a point reads as its digits. */
  lemma ToFloatWhole(whole: string)
    requires whole != [] && AllDigits(whole)
    ensures ToFloat(whole) == Some(Natural(whole) as real)
  {
    assert IndexOf(whole, '.') == |whole| by {
      assert forall k :: 0 <= k < |whole| ==> whole[k] != '.';
    }
    assert whole[..|whole|] == whole;
  }
}
