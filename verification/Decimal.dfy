/** Decimal text of natural numbers: `'%d'`, `'%02d'` and friends, and reading it back. */
module Decimal {

  predicate IsDigit(c: char) { '0' <= c <= '9' }

  function DigitChar(d: nat): char
    requires d < 10
  {
    '0' + d as char
  }

  function DigitValue(c: char): nat
    requires IsDigit(c)
  {
    (c - '0') as nat
  }

  /** The digits and their values. */
  lemma Digits(d: nat)
    requires d < 10
    ensures DigitChar(d) == "0123456789"[d] && IsDigit("0123456789"[d]) && DigitValue("0123456789"[d]) == d
  {
  }

  /** `'%d' % n`. */
  function Str(n: nat): (s: string)
    ensures s != ""
  {
    if n < 10 then [DigitChar(n)] else Str(n / 10) + [DigitChar(n % 10)]
  }

  predicate AllDigits(s: string) { forall i :: 0 <= i < |s| ==> IsDigit(s[i]) }

  /** The value of a digit string. */
  function Value(s: string): nat
    requires AllDigits(s)
  {
    if s == "" then 0 else 10 * Value(s[..|s| - 1]) + DigitValue(s[|s| - 1])
  }

  lemma {:induction false} ValueOfStr(n: nat)
    ensures AllDigits(Str(n)) && Value(Str(n)) == n
  {
    if n >= 10 {
      ValueOfStr(n / 10);
      assert Str(n)[..|Str(n)| - 1] == Str(n / 10);
    } else {
      assert Str(n)[..0] == "";
    }
  }

  /** There are no leading zeros. */
  lemma {:induction false} StrStarts(n: nat)
    ensures Str(n)[0] == '0' <==> n == 0
    ensures n == 0 ==> Str(n) == "0"
  {
    if n >= 10 {
      StrStarts(n / 10);
    }
  }

  lemma StrInjective(a: nat, b: nat)
    ensures Str(a) == Str(b) ==> a == b
  {
    ValueOfStr(a);
    ValueOfStr(b);
  }

  function Pow10(w: nat): nat { if w == 0 then 1 else 10 * Pow10(w - 1) }

  /** `n` as exactly `w` digits, with leading zeros: `'%0wd' % n` for `n < 10^w`. */
  function Pad(n: nat, w: nat): (s: string)
    ensures |s| == w && AllDigits(s)
    decreases w, n
  {
    if w == 0 then "" else Pad(n / 10, w - 1) + [DigitChar(n % 10)]
  }

  lemma {:induction false} ValueOfPad(n: nat, w: nat)
    requires n < Pow10(w)
    ensures Value(Pad(n, w)) == n
    decreases w
  {
    if w > 0 {
      ValueOfPad(n / 10, w - 1);
      assert Pad(n, w)[..w - 1] == Pad(n / 10, w - 1);
    }
  }
}
