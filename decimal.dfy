/**
 * Decimal digit strings as the component reads them: each slot holds one
 * digit, and a group of slots joined into a string is read by `parseInt`
 * as a base-10 number. Leading zeros are accepted, so "09" reads as 9.
 */
module Decimal {

  /** One decimal digit, the content of a filled slot. */
  type Digit = d: int | 0 <= d <= 9

  function Pow10(n: nat): (r: nat)
    ensures r >= 1
  {
    if n == 0 then 1 else 10 * Pow10(n - 1)
  }

  /** The number a string of digits denotes, most significant digit first. */
  function ParseDecimal(s: seq<Digit>): (r: nat)
    ensures r < Pow10(|s|)
  {
    if s == [] then 0 else 10 * ParseDecimal(s[..|s| - 1]) + s[|s| - 1]
  }

  /** The `w` lowest decimal digits of `n`, most significant first, padded with zeros. */
  function ToDigits(n: nat, w: nat): (r: seq<Digit>)
    ensures |r| == w
  {
    if w == 0 then [] else ToDigits(n / 10, w - 1) + [n % 10]
  }

  /** Writing a number that fits in `w` digits and reading it back gives the number. */
  lemma {:induction false} ParseToDigits(n: nat, w: nat)
    requires n < Pow10(w)
    ensures ParseDecimal(ToDigits(n, w)) == n
  {
    if w > 0 {
      var s := ToDigits(n, w);
      assert s[..w - 1] == ToDigits(n / 10, w - 1);
      ParseToDigits(n / 10, w - 1);
    }
  }

  /** Reading a digit string and writing it back at the same width gives the string. */
  lemma {:induction false} ToDigitsParse(s: seq<Digit>)
    ensures ToDigits(ParseDecimal(s), |s|) == s
  {
    if s != [] {
      var init := s[..|s| - 1];
      var n := ParseDecimal(s);
      assert n / 10 == ParseDecimal(init) && n % 10 == s[|s| - 1];
      ToDigitsParse(init);
      assert s == init + [s[|s| - 1]];
    }
  }

  /** A two-digit group read as a number. */
  lemma ParseTwo(a: Digit, b: Digit)
    ensures ParseDecimal([a, b]) == 10 * a + b
  {
  }

  /** A four-digit group read as a number. */
  lemma ParseFour(a: Digit, b: Digit, c: Digit, d: Digit)
    ensures ParseDecimal([a, b, c, d]) == 1000 * a + 100 * b + 10 * c + d
  {
    assert [a, b, c, d][..3] == [a, b, c];
    assert [a, b, c][..2] == [a, b];
    ParseTwo(a, b);
  }
}
