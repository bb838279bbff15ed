/** Decimal text of integers: Python's `str(n)` on an `int` and its inverse
    `int(s)` on a string of ASCII digits. */
module Decimal {

  predicate IsDigit(c: char) {
    '0' <= c <= '9'
  }

  predicate AllDigits(s: string) {
    forall i :: 0 <= i < |s| ==> IsDigit(s[i])
  }

  function Digit(n: nat): (c: char)
    requires n < 10
    ensures IsDigit(c)
  {
    (n + '0' as int) as char
  }

  function DigitValue(c: char): (n: nat)
    requires IsDigit(c)
    ensures n < 10 && Digit(n) == c
  {
    c as int - '0' as int
  }

  /** `str(n)` for `n >= 0`: no sign, no leading zero. */
  function NatStr(n: nat): (s: string)
    ensures |s| >= 1 && AllDigits(s)
    ensures s[0] == '0' ==> n == 0
  {
    if n < 10 then [Digit(n)] else NatStr(n / 10) + [Digit(n % 10)]
  }

  /** `str(n)` for any `int`: a minus sign in front of negative numbers. */
  function IntStr(n: int): (s: string)
    ensures |s| >= 1
    ensures s[0] == '-' <==> n < 0
  {
    if n < 0 then "-" + NatStr(-n) else NatStr(n)
  }

  /** `int(s)` for a non-empty string of ASCII digits. */
  function ParseNat(s: string): nat
    requires |s| >= 1 && AllDigits(s)
  {
    if |s| == 1 then DigitValue(s[0])
    else 10 * ParseNat(s[..|s| - 1]) + DigitValue(s[|s| - 1])
  }

  /** `int(str(n)) == n`. */
  lemma {:induction false} ParseNatStr(n: nat)
    ensures ParseNat(NatStr(n)) == n
  {
    if n >= 10 {
      var s := NatStr(n);
      assert s[..|s| - 1] == NatStr(n / 10);
      ParseNatStr(n / 10);
    }
  }

  lemma ParseTwoDigits(s: string)
    requires |s| == 2 && AllDigits(s)
    ensures ParseNat(s) == 10 * DigitValue(s[0]) + DigitValue(s[1])
  {
    assert s[..1] == [s[0]];
  }

  lemma ParseFourDigitsValue(s: string)
    requires |s| == 4 && AllDigits(s)
    ensures ParseNat(s) == 1000 * DigitValue(s[0]) + 100 * DigitValue(s[1]) + 10 * DigitValue(s[2]) + DigitValue(s[3])
  {
    var p := s[..3];
    assert p[..2] == s[..2];
    ParseTwoDigits(s[..2]);
    assert ParseNat(p) == 10 * ParseNat(s[..2]) + DigitValue(s[2]);
  }

  function Pow10(k: nat): (p: nat)
    ensures p >= 1
  {
    if k == 0 then 1 else 10 * Pow10(k - 1)
  }

  lemma DivTen(n: nat, a: nat, b: nat)
    ensures (a <= n / 10 < b) <==> (10 * a <= n < 10 * b)
  {
  }

  lemma ScaleByTen(d: nat, p: nat)
    ensures d * (10 * p) == 10 * (d * p)
  {
  }

  /** Dropping the last digit of `n` divides the range test by ten. */
  lemma ScaledRange(n: nat, d: nat, p: nat)
    ensures (d * p <= n / 10 < (d + 1) * p) <==> (d * (10 * p) <= n < (d + 1) * (10 * p))
  {
    ScaleByTen(d, p);
    ScaleByTen(d + 1, p);
    DivTen(n, d * p, (d + 1) * p);
  }

  /** A positive leading digit times a positive power of ten is at least ten. */
  lemma ScaledAtLeastTen(d: nat, p: nat)
    requires d >= 1 && p >= 1
    ensures d * (10 * p) >= 10
  {
    ScaleByTen(d, p);
    assert d * p >= p;
  }

  /** `str(n)` has `k + 1` characters and starts with the digit `d` exactly
      when `n` lies in `[d * 10^k, (d + 1) * 10^k)`. */
  lemma {:induction false} LeadingDigit(n: nat, k: nat, d: nat)
    requires 1 <= d <= 9
    ensures (|NatStr(n)| == k + 1 && NatStr(n)[0] == Digit(d))
            <==> d * Pow10(k) <= n < (d + 1) * Pow10(k)
  {
    if k == 0 {
      assert Pow10(k) == 1;
      if n < 10 {
        assert NatStr(n) == [Digit(n)];
        assert DigitValue(Digit(n)) == n && DigitValue(Digit(d)) == d;
      } else {
        assert NatStr(n) == NatStr(n / 10) + [Digit(n % 10)];
      }
    } else {
      var p := Pow10(k - 1);
      assert Pow10(k) == 10 * p;
      if n < 10 {
        assert NatStr(n) == [Digit(n)];
        ScaledAtLeastTen(d, p);
      } else {
        var q := n / 10;
        assert NatStr(n) == NatStr(q) + [Digit(n % 10)];
        assert NatStr(n)[0] == NatStr(q)[0];
        LeadingDigit(q, k - 1, d);
        ScaledRange(n, d, p);
      }
    }
  }

  lemma Pow10Ten()
    ensures Pow10(10) == 10000000000
  {
    assert Pow10(1) == 10;
    assert Pow10(2) == 100;
    assert Pow10(3) == 1000;
    assert Pow10(4) == 10000;
    assert Pow10(5) == 100000;
    assert Pow10(6) == 1000000;
    assert Pow10(7) == 10000000;
    assert Pow10(8) == 100000000;
    assert Pow10(9) == 1000000000;
  }

  /** The integers whose `str` is 11 characters long and starts with `7`
      are exactly those from 70000000000 to 79999999999. */
  lemma ElevenCharsLeadingSeven(n: int)
    ensures (|IntStr(n)| == 11 && IntStr(n)[0] == '7') <==> 70000000000 <= n < 80000000000
  {
    if n >= 0 {
      LeadingDigit(n, 10, 7);
      Pow10Ten();
    }
  }
}
