/** Positional notation: the digits of a number and the number digits stand for. */
module Notation {

  /** The character of a digit below 36, lower case. */
  function DigitChar(d: nat): (c: char)
    requires d < 36
  {
    if d < 10 then '0' + d as char else 'a' + (d - 10) as char
  }

  /** The value of a digit character of either case, or 36. */
  function DigitValue(c: char): (d: nat)
    ensures d <= 36
  {
    if '0' <= c <= '9' then (c - '0') as nat
    else if 'a' <= c <= 'z' then (c - 'a') as nat + 10
    else if 'A' <= c <= 'Z' then (c - 'A') as nat + 10
    else 36
  }

  lemma DigitRoundTrip(d: nat)
    requires d < 36
    ensures DigitValue(DigitChar(d)) == d
    ensures '0' <= DigitChar(d) <= '9' || 'a' <= DigitChar(d) <= 'z'
    ensures DigitChar(d) == '0' <==> d == 0
  {
  }

  // n / base and n % base, with what is needed of them
  function Quotient(n: nat, base: nat): (q: nat)
    requires base >= 2
    ensures q == 0 <==> n < base
    ensures n > 0 ==> q < n
  {
    n / base
  }

  function Remainder(n: nat, base: nat): (r: nat)
    requires base >= 2
    ensures r < base && (n < base ==> r == n)
    ensures n == Quotient(n, base) * base + r
  {
    n % base
  }

  /** The digits of n, most significant first, without leading zeroes. */
  function Digits(n: nat, base: nat): (s: string)
    requires 2 <= base <= 36
    ensures |s| > 0
    decreases n
  {
    if n < base then [DigitChar(n)] else Digits(Quotient(n, base), base) + [DigitChar(Remainder(n, base))]
  }

  /** The number a string of digits stands for. */
  function Eval(s: string, base: nat): nat {
    if |s| == 0 then 0 else Behind(Eval(s[..|s| - 1], base), base, DigitValue(s[|s| - 1]))
  }

  /** The number with one more digit behind it. */
  function Behind(n: nat, base: nat, digit: nat): nat { n * base + digit }

  predicate AreDigits(s: string, base: nat) {
    forall i :: 0 <= i < |s| ==> DigitValue(s[i]) < base
  }

  /** Digits stand for the number they came from, are digits of the base, and
      have no leading zero except for zero itself. */
  lemma {:induction false} DigitsEval(n: nat, base: nat)
    requires 2 <= base <= 36
    ensures Eval(Digits(n, base), base) == n && AreDigits(Digits(n, base), base)
    ensures Digits(n, base)[0] == '0' <==> n == 0
    ensures forall i :: 0 <= i < |Digits(n, base)| ==>
            '0' <= Digits(n, base)[i] <= '9' || 'a' <= Digits(n, base)[i] <= 'z'
    decreases n
  {
    hide DigitChar, DigitValue;
    if n < base {
      DigitRoundTrip(n);
      assert Digits(n, base)[..0] == "";
    } else {
      var q, r := Quotient(n, base), Remainder(n, base);
      DigitsEval(q, base);
      DigitRoundTrip(r);
      var init := Digits(q, base);
      assert Digits(n, base) == init + [DigitChar(r)];
      assert Digits(n, base)[..|init|] == init;
    }
  }

  lemma {:induction false} LastDigit(n: nat, base: nat)
    requires 2 <= base <= 36
    ensures Digits(n, base) ==
            (if n < base then "" else Digits(Quotient(n, base), base)) + [DigitChar(Remainder(n, base))]
  {
  }

  function Power(base: nat, k: nat): nat {
    if k == 0 then 1 else base * Power(base, k - 1)
  }

  /** A number below base^k has at most k digits. */
  lemma {:induction false} DigitsLength(n: nat, base: nat, k: nat)
    requires 2 <= base <= 36 && k >= 1 && n < Power(base, k)
    ensures |Digits(n, base)| <= k
    decreases k
  {
    assert Power(base, 1) == base;
    if n >= base {
      var q, r := Quotient(n, base), Remainder(n, base);
      hide Quotient, Remainder, DigitChar;
      BelowPower(n, base, q, r, Power(base, k - 1));
      DigitsLength(q, base, k - 1);
    }
  }

  lemma BelowPower(n: nat, base: nat, q: nat, r: nat, p: nat)
    requires n == q * base + r
    ensures q >= p ==> n >= base * p
  {
    if q >= p { assert (q - p) * base >= 0; }
  }

  lemma {:induction false} PowerMonotone(a: nat, b: nat, k: nat)
    requires 1 <= a <= b
    ensures 1 <= Power(a, k) <= Power(b, k)
  {
    if k > 0 {
      PowerMonotone(a, b, k - 1);
      MulMonotone(a, b, Power(a, k - 1), Power(b, k - 1));
    }
  }

  lemma MulMonotone(a: nat, b: nat, x: nat, y: nat)
    requires 1 <= a <= b && 1 <= x <= y
    ensures 1 <= a * x <= b * y
  {
    assert a * x <= b * x by { assert (b - a) * x >= 0; }
    assert b * x <= b * y by { assert b * (y - x) >= 0; }
  }

  lemma PowersOfTwo()
    ensures Power(2, 32) == 0x1_0000_0000 && Power(2, 64) == 0x1_0000_0000_0000_0000
  {
    hide Power;
    PowerNone(2);
    PowerNext(2, 1);
    PowerAdd(2, 1, 1);
    PowerAdd(2, 2, 2);
    PowerAdd(2, 4, 4);
    PowerAdd(2, 8, 8);
    PowerAdd(2, 16, 16);
    PowerAdd(2, 32, 32);
  }

  lemma {:induction false} PowerAdd(b: nat, x: nat, y: nat)
    ensures Power(b, x + y) == Power(b, x) * Power(b, y)
    decreases x
  {
    hide Power;
    if x == 0 {
      PowerNone(b);
    } else {
      PowerAdd(b, x - 1, y);
      PowerNext(b, x);
      PowerNext(b, x + y);
      Regroup(b, Power(b, x - 1), Power(b, y));
    }
  }

  lemma Regroup(a: nat, b: nat, c: nat)
    ensures a * (b * c) == (a * b) * c
  {
  }

  lemma {:induction false} PowerNone(b: nat)
    ensures Power(b, 0) == 1
  {
  }

  lemma {:induction false} PowerNext(b: nat, x: nat)
    requires x > 0
    ensures Power(b, x) == b * Power(b, x - 1)
  {
  }

  /** The characters of a string, last first. */
  function Reversed(s: string): (r: string)
    ensures |r| == |s|
  {
    if |s| == 0 then "" else [s[|s| - 1]] + Reversed(s[..|s| - 1])
  }

  lemma {:induction false} ReversedAt(s: string)
    ensures forall i :: 0 <= i < |s| ==> Reversed(s)[i] == s[|s| - 1 - i]
    decreases |s|
  {
    if |s| > 0 {
      var t := s[..|s| - 1];
      ReversedAt(t);
      forall i | 0 <= i < |s| ensures Reversed(s)[i] == s[|s| - 1 - i] {
        if i > 0 { assert Reversed(s)[i] == Reversed(t)[i - 1] == t[|t| - 1 - (i - 1)]; }
      }
    }
  }

  lemma {:induction false} ReversedSnoc(s: string, c: char)
    ensures Reversed(s + [c]) == [c] + Reversed(s)
  {
    assert (s + [c])[..|s|] == s;
  }
}
