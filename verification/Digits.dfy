/** Decimal numbers as text: reading digits, and printing with zero padding. */
module Digits {

  predicate IsDigit(c: char) { '0' <= c <= '9' }

  predicate AllDigits(s: string) { forall c | c in s :: IsDigit(c) }

  function DigitChar(d: nat): (c: char)
    requires d < 10
    ensures IsDigit(c) && c as int - '0' as int == d
  {
    (d + '0' as int) as char
  }

  function ToInt(s: string): nat
    requires AllDigits(s)
  {
    if s == "" then 0
    else
      assert s[|s| - 1] in s;
      ToInt(s[..|s| - 1]) * 10 + (s[|s| - 1] as int - '0' as int)
  }

  /** Decimal digits of `n`, with leading zeros up to `width` characters. */
  function Pad(width: nat, n: nat): (s: string)
    ensures AllDigits(s) && 0 < |s| && width <= |s|
    decreases width, n
  {
    if width <= 1 && n < 10 then [DigitChar(n)]
    else Pad(if width == 0 then 0 else width - 1, n / 10) + [DigitChar(n % 10)]
  }

  /** Reading back a printed number. */
  lemma {:induction false} ReadPad(width: nat, n: nat)
    ensures ToInt(Pad(width, n)) == n
    decreases width, n
  {
    var s := Pad(width, n);
    if width <= 1 && n < 10 {
      assert s[..0] == "";
    } else {
      var w := if width == 0 then 0 else width - 1;
      ReadPad(w, n / 10);
      assert s[..|s| - 1] == Pad(w, n / 10);
    }
  }

  /** Printing a number that was read keeps its leading zeros. */
  lemma {:induction false} PadRead(s: string)
    requires AllDigits(s) && s != ""
    ensures Pad(|s|, ToInt(s)) == s
  {
    var t, c := s[..|s| - 1], s[|s| - 1];
    assert c in s && s == t + [c];
    if t == "" {
      assert ToInt(t) == 0;
    } else {
      PadRead(t);
    }
  }

  /** The last digit counts ones. */
  lemma LastDigitIsOnes(s: string, d: nat)
    requires AllDigits(s) && d < 10
    ensures AllDigits(s + [DigitChar(d)]) && ToInt(s + [DigitChar(d)]) == 10 * ToInt(s) + d
  {
    assert (s + [DigitChar(d)])[..|s|] == s;
  }

  lemma {:induction false} OneDigitPads(width: nat, n: nat)
    requires n < 10
    ensures |Pad(width, n)| == if width <= 1 then 1 else width
    decreases width
  {
    if width > 1 {
      OneDigitPads(width - 1, n / 10);
    }
  }

  /** A number wider than the width has no leading zero. */
  lemma {:induction false} NoExtraZeros(width: nat, n: nat)
    ensures |Pad(width, n)| > width && n > 0 ==> Pad(width, n)[0] != '0'
    decreases width, n
  {
    if !(width <= 1 && n < 10) {
      NoExtraZeros(if width == 0 then 0 else width - 1, n / 10);
      if n < 10 {
        OneDigitPads(width, n);
      }
    }
  }

  /** Different numbers print differently at one width. */
  lemma PadInjective(width: nat, a: nat, b: nat)
    ensures Pad(width, a) == Pad(width, b) ==> a == b
  {
    ReadPad(width, a);
    ReadPad(width, b);
  }
}
