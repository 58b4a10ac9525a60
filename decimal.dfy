/**
 * Decimal text of non-negative integers, as the pipeline writes and reads it:
 * `str(n)`, `s.zfill(w)`, the fixed-width numeric fields of `strftime`
 * (`%Y` four digits, `%m` two) and reading a run of digits back as a number
 * (the numeric fields of `strptime`).
 */
module Decimal {
  import opened Ordering

  predicate IsDigit(c: char) {
    '0' <= c <= '9'
  }

  predicate AllDigits(s: string) {
    forall i :: 0 <= i < |s| ==> IsDigit(s[i])
  }

  function DigitChar(d: nat): (c: char)
    requires d < 10
    ensures IsDigit(c)
  {
    ('0' as int + d) as char
  }

  function DigitValue(c: char): (d: nat)
    requires IsDigit(c)
    ensures d < 10 && DigitChar(d) == c
  {
    c as int - '0' as int
  }

  function Pow10(w: nat): (p: nat)
    ensures p >= 1
  {
    if w == 0 then 1 else 10 * Pow10(w - 1)
  }

  /** `str(n)`: the shortest decimal form of `n`. */
  function Dec(n: nat): (s: string)
    ensures 1 <= |s| && AllDigits(s)
  {
    if n < 10 then [DigitChar(n)] else Dec(n / 10) + [DigitChar(n % 10)]
  }

  /** `s.zfill(w)` on a string without a sign: pad on the left with '0' up to width `w`. */
  function ZeroFill(s: string, w: nat): (r: string)
    ensures |r| == if |s| >= w then |s| else w
    ensures r[|r| - |s|..] == s
    ensures forall i :: 0 <= i < |r| - |s| ==> r[i] == '0'
    decreases w - |s|
  {
    if |s| >= w then s else ZeroFill("0" + s, w)
  }

  /** Exactly `w` digits, the last `w` of `n`: strftime's `%Y` (w = 4) and `%m` (w = 2). */
  function FixedDigits(n: nat, w: nat): (s: string)
    ensures |s| == w && AllDigits(s)
  {
    if w == 0 then [] else FixedDigits(n / 10, w - 1) + [DigitChar(n % 10)]
  }

  /** The number a run of digits denotes. */
  function DigitsValue(s: string): (n: nat)
    requires AllDigits(s)
    ensures n < Pow10(|s|)
  {
    if s == [] then 0 else DigitsValue(s[..|s| - 1]) * 10 + DigitValue(s[|s| - 1])
  }

  /** Writing back in the same width the number read from `w` digits gives the digits. */
  lemma {:induction false} FixedDigitsRoundTrip(s: string)
    requires AllDigits(s)
    ensures FixedDigits(DigitsValue(s), |s|) == s
    decreases |s|
  {
    if s != [] {
      var p := s[..|s| - 1];
      FixedDigitsRoundTrip(p);
      var v := DigitsValue(s);
      assert v / 10 == DigitsValue(p) && v % 10 == DigitValue(s[|s| - 1]);
      assert s == p + [s[|s| - 1]];
    }
  }

  /** Reading back `w` written digits gives the number, when it has at most `w` digits. */
  lemma {:induction false} FixedDigitsValue(n: nat, w: nat)
    requires n < Pow10(w)
    ensures DigitsValue(FixedDigits(n, w)) == n
    decreases w
  {
    if w > 0 {
      FixedDigitsValue(n / 10, w - 1);
      var f := FixedDigits(n, w);
      assert f[..w - 1] == FixedDigits(n / 10, w - 1);
    }
  }

  /** Among numbers of at most `w` digits, `w`-digit text sorts like the numbers. */
  lemma {:induction false} FixedDigitsOrder(a: nat, b: nat, w: nat)
    requires a < Pow10(w) && b < Pow10(w)
    ensures LexLess(FixedDigits(a, w), FixedDigits(b, w)) <==> a < b
    decreases w
  {
    if w == 0 {
      assert Pow10(0) == 1;
    } else {
      var pa, pb := FixedDigits(a / 10, w - 1), FixedDigits(b / 10, w - 1);
      var ca, cb := DigitChar(a % 10), DigitChar(b % 10);
      DivTenOrder(a, b, w);
      FixedDigitsOrder(a / 10, b / 10, w - 1);
      FixedDigitsOrder(b / 10, a / 10, w - 1);
      LexLessConcat(pa, [ca], pb, [cb]);
      LexLessIrreflexive(pa);
      assert pa == pb <==> a / 10 == b / 10;
      assert LexLess([ca], [cb]) <==> a % 10 < b % 10 by {
        assert [ca][1..] == [] && [cb][1..] == [];
      }
    }
  }

  /** Numbers compare by their leading digits first, then by their last digit. */
  lemma DivTenOrder(a: nat, b: nat, w: nat)
    requires 1 <= w && a < Pow10(w) && b < Pow10(w)
    ensures a / 10 < Pow10(w - 1) && b / 10 < Pow10(w - 1)
    ensures a < b <==> a / 10 < b / 10 || (a / 10 == b / 10 && a % 10 < b % 10)
  {
  }

  lemma {:induction false} DivTenBounds(n: nat, w: nat)
    requires 1 <= w && Pow10(w - 1) <= n < Pow10(w)
    ensures w >= 2 ==> Pow10(w - 2) <= n / 10 < Pow10(w - 1)
    ensures w == 1 ==> n < 10
  {
  }

  /** A number with exactly `w` digits: `str(n)` is its `w`-digit text. */
  lemma {:induction false} DecIsFixed(n: nat, w: nat)
    requires 1 <= w && Pow10(w - 1) <= n < Pow10(w)
    ensures Dec(n) == FixedDigits(n, w)
    decreases w
  {
    DivTenBounds(n, w);
    if w == 1 {
      assert FixedDigits(n, 1) == FixedDigits(n / 10, 0) + [DigitChar(n % 10)];
    } else {
      DecIsFixed(n / 10, w - 1);
    }
  }

  /** `str(n).zfill(2)` is the two-digit text of `n` below 100. */
  lemma ZeroFillTwoDigits(n: nat)
    requires n < 100
    ensures ZeroFill(Dec(n), 2) == FixedDigits(n, 2)
  {
    if n < 10 {
      assert Dec(n) == [DigitChar(n)];
      assert ZeroFill(Dec(n), 2) == ZeroFill("0" + Dec(n), 2);
      assert FixedDigits(n / 10, 1) == FixedDigits(0, 0) + [DigitChar(0)];
    } else {
      DecIsFixed(n, 2);
    }
  }
}
