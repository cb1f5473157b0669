/** Fixed-width decimal fields: their text order is their number order, and they parse back. */
module Decimal {
  import opened Prelude
  import opened TextOrder

  function Pow10(w: nat): (p: nat)
    ensures p >= 1
  {
    if w == 0 then 1 else 10 * Pow10(w - 1)
  }

  function DigitChar(d: nat): char
    requires d < 10
  {
    '0' + d as char
  }

  /** The last `w` digits of `n`, padded with zeros. */
  function Digits(n: nat, w: nat): (s: string)
    ensures |s| == w
    ensures IsDigits(s)
  {
    if w == 0 then [] else Digits(n / 10, w - 1) + [DigitChar(n % 10)]
  }

  function Value(s: string): nat
    requires IsDigits(s)
  {
    if s == [] then 0 else 10 * Value(s[..|s| - 1]) + (s[|s| - 1] as int - '0' as int)
  }

  lemma {:induction false} DigitsValue(n: nat, w: nat)
    requires n < Pow10(w)
    ensures Value(Digits(n, w)) == n
  {
    if w > 0 {
      DigitsValue(n / 10, w - 1);
      assert Digits(n, w)[..w - 1] == Digits(n / 10, w - 1);
    }
  }

  lemma {:induction false} ValueFits(s: string)
    requires IsDigits(s)
    ensures Value(s) < Pow10(|s|)
  {
    if s != [] { ValueFits(s[..|s| - 1]); }
  }

  lemma {:induction false} DigitsOrder(n: nat, m: nat, w: nat)
    requires n < Pow10(w) && m < Pow10(w)
    ensures LexLess(Digits(n, w), Digits(m, w)) <==> n < m
    ensures Digits(n, w) == Digits(m, w) <==> n == m
  {
    if w > 0 {
      DigitsOrder(n / 10, m / 10, w - 1);
      var x, y := [DigitChar(n % 10)], [DigitChar(m % 10)];
      LexFields(Digits(n / 10, w - 1), Digits(m / 10, w - 1), x, y);
      assert LexLess(x, y) <==> n % 10 < m % 10 by { assert x[1..] == [] && y[1..] == []; }
      DigitsValue(n, w);
      DigitsValue(m, w);
    }
  }

  /** A field and a separator: the field decides, a tie leaves it to the rest. */
  lemma {:induction false} FieldOrder(n: nat, m: nat, w: nat, sep: string, x: string, y: string)
    requires n < Pow10(w) && m < Pow10(w)
    ensures LexLess(Digits(n, w) + sep + x, Digits(m, w) + sep + y) <==> n < m || (n == m && LexLess(x, y))
  {
    DigitsOrder(n, m, w);
    LexFields(Digits(n, w), Digits(m, w), sep + x, sep + y);
    assert Digits(n, w) + sep + x == Digits(n, w) + (sep + x);
    assert Digits(m, w) + sep + y == Digits(m, w) + (sep + y);
    LexFields(sep, sep, x, y);
    LexTrichotomy(sep, sep);
  }
}
