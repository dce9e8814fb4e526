/** Decimal rendering of numbers and Python 2's ordering of `str` values. */
module Strings {

  /** The ASCII character of a decimal digit. */
  function DigitChar(d: nat): (c: char)
    requires d < 10
    ensures '0' <= c <= '9'
    ensures c as int == '0' as int + d
  {
    (48 + d) as char
  }

  function Pow10(k: nat): (p: nat)
    ensures p >= 1
  {
    if k == 0 then 1 else 10 * Pow10(k - 1)
  }

  /** `n` written with exactly `width` decimal digits, padded with leading zeros
      (the `%04d` / `%02d` padding that `strftime` uses); higher digits are dropped. */
  function Digits(n: nat, width: nat): (s: string)
    ensures |s| == width
  {
    if width == 0 then [] else Digits(n / 10, width - 1) + [DigitChar(n % 10)]
  }

  /** `n` as Python's `'%s' % n` writes a non-negative integer. */
  function Decimal(n: nat): (s: string)
    ensures |s| >= 1
    ensures forall k :: 0 <= k < |s| ==> '0' <= s[k] <= '9'
  {
    if n < 10 then [DigitChar(n)] else Decimal(n / 10) + [DigitChar(n % 10)]
  }

  /** Python's `a <= b` on strings: lexicographic by code point, a proper prefix first. */
  predicate StrLe(a: string, b: string)
  {
    |a| == 0 || (|b| > 0 && (a[0] < b[0] || (a[0] == b[0] && StrLe(a[1..], b[1..]))))
  }

  /** Comparing two strings whose first blocks have the same length compares the first
      blocks, and on a tie the rest. */
  lemma {:induction false} StrLeConcat(x: string, y: string, x': string, y': string)
    requires |x| == |x'|
    ensures StrLe(x + y, x' + y') <==> (x != x' && StrLe(x, x')) || (x == x' && StrLe(y, y'))
  {
    if |x| == 0 {
      assert x + y == y && x' + y' == y';
    } else {
      assert (x + y)[0] == x[0] && (x' + y')[0] == x'[0];
      assert (x + y)[1..] == x[1..] + y && (x' + y')[1..] == x'[1..] + y';
      assert x == [x[0]] + x[1..] && x' == [x'[0]] + x'[1..];
      StrLeConcat(x[1..], y, x'[1..], y');
    }
  }

  /** Two zero-padded numbers of the same width are equal, and ordered as strings,
      exactly when the numbers are. */
  lemma {:induction false} DigitsOrder(a: nat, b: nat, width: nat)
    requires a < Pow10(width) && b < Pow10(width)
    ensures Digits(a, width) == Digits(b, width) <==> a == b
    ensures StrLe(Digits(a, width), Digits(b, width)) <==> a <= b
  {
    if width > 0 {
      var ha, hb := Digits(a / 10, width - 1), Digits(b / 10, width - 1);
      var la, lb := [DigitChar(a % 10)], [DigitChar(b % 10)];
      DigitsOrder(a / 10, b / 10, width - 1);
      StrLeConcat(ha, la, hb, lb);
      assert StrLe(la, lb) <==> a % 10 <= b % 10 by {
        assert la[1..] == [] && lb[1..] == [];
      }
      assert ha + la == hb + lb <==> ha == hb && la == lb by {
        if ha + la == hb + lb {
          assert ha == (ha + la)[..width - 1] && hb == (hb + lb)[..width - 1];
          assert la[0] == (ha + la)[width - 1] && lb[0] == (hb + lb)[width - 1];
        }
      }
    }
  }
}
