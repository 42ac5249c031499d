/** itoa and strtol of src/core_crt/string.c. */
module Strings {
  import opened Basics
  import opened Notation

  /** Two's complement 32-bit value of an integer: int and long of the target. */
  function Wrap32(x: int): (r: int)
    ensures Int32(r)
  {
    (x + 0x8000_0000) % 0x1_0000_0000 - 0x8000_0000
  }

  function Abs(x: int): nat { if x < 0 then -x else x }

  // C's operators, which truncate toward zero
  function TruncDiv(x: int, y: int): int requires y > 0 { if x < 0 then -(-x / y) else x / y }
  function TruncMod(x: int, y: int): int requires y > 0 { if x < 0 then -(-x % y) else x % y }

  // ----- itoa -----

  /** The text itoa produces: a sign only for negative decimals, nothing for
      an unsupported base. */
  function Text(value: int, base: int): string {
    if base < 2 || base > 36 then ""
    else (if value < 0 && base == 10 then "-" else "") + Digits(Abs(value), base)
  }

  // The table of the source, in three pieces
  const Mirror: string := "zyxwvutsrqponmlkjihgfedcba" + "9876543210123456789" + "abcdefghijklmnopqrstuvwxyz"

  lemma MirrorPieces(i: nat)
    requires i < 26
    ensures "zyxwvutsrqponmlkjihgfedcba"[i] as int == 122 - i && "abcdefghijklmnopqrstuvwxyz"[i] as int == 97 + i
    ensures i < 19 ==> "9876543210123456789"[i] as int == if i < 9 then 57 - i else 39 + i
  {
    Falling(i);
    Rising(i);
    if i < 19 { Valley(i); }
  }

  lemma Falling(i: nat)
    requires i < 26
    ensures "zyxwvutsrqponmlkjihgfedcba"[i] as int == 122 - i
  {
  }

  lemma Rising(i: nat)
    requires i < 26
    ensures "abcdefghijklmnopqrstuvwxyz"[i] as int == 97 + i
  {
  }

  lemma Valley(i: nat)
    requires i < 19
    ensures "9876543210123456789"[i] as int == if i < 9 then 57 - i else 39 + i
  {
  }

  /** The mirrored table has the digit of r at 35 + r for both signs. */
  lemma MirrorAt(r: int)
    requires -36 < r < 36
    ensures |Mirror| == 71 && Mirror[35 + r] == DigitChar(Abs(r))
  {
    var i := 35 + r;
    MirrorPieces(if i < 26 then i else if i < 45 then i - 26 else i - 45);
  }

  lemma TruncAbs(x: int, base: nat)
    requires 2 <= base <= 36
    ensures Abs(TruncDiv(x, base)) == Quotient(Abs(x), base) && Abs(TruncMod(x, base)) == Remainder(Abs(x), base)
    ensures -36 < TruncMod(x, base) < 36
  {
  }

  /** At most a sign and 32 digits, so 34 characters hold every text. */
  lemma {:induction false} TextFits(value: int, base: int)
    requires Int32(value)
    ensures |Text(value, base)| <= 33
  {
    if 2 <= base <= 36 {
      PowersOfTwo();
      PowerMonotone(2, base, 32);
      DigitsLength(Abs(value), base, 32);
    }
  }

  /** What is left to write before the digits already collected backwards. */
  function Pending(v: int, base: nat): string
    requires 2 <= base <= 36
  {
    if v == 0 then "" else Digits(Abs(v), base)
  }

  /** One digit moves from what is pending to what is collected. */
  lemma {:induction false} OneDigit(v: int, base: nat, collected: string)
    requires 2 <= base <= 36
    ensures Pending(TruncDiv(v, base), base) + Reversed(collected + [DigitChar(Remainder(Abs(v), base))])
            == Digits(Abs(v), base) + Reversed(collected)
  {
    TruncAbs(v, base);
    LastDigit(Abs(v), base);
    hide Digits, DigitChar, TruncDiv, Reversed, Quotient, Remainder;
    var c := DigitChar(Remainder(Abs(v), base));
    ReversedSnoc(collected, c);
    var p := Pending(TruncDiv(v, base), base);
    assert p + ([c] + Reversed(collected)) == p + [c] + Reversed(collected);
  }

  /** The digit loop of itoa: the digits of value, least significant first,
      from low on. */
  method WriteDigits(value: int, str: array<char>, base: nat, low: nat) returns (end: nat)
    requires 2 <= base <= 36 && low + |Digits(Abs(value), base)| <= str.Length
    modifies str
    ensures low < end == low + |Digits(Abs(value), base)| && Reversed(str[low..end]) == Digits(Abs(value), base)
    ensures str[..low] == old(str[..low]) && str[end..] == old(str[end..])
  {
    hide DigitChar, Mirror, Digits, TruncDiv, TruncMod, Reversed, Quotient, Remainder;
    var ptr, v := low, value;
    ghost var all := Digits(Abs(value), base);
    var first := true;
    NoneCollected(all);
    while first || v != 0
      invariant low <= ptr <= low + |all| && (first <==> ptr == low) && (first ==> v == value)
      invariant (if first then all else Pending(v, base)) + Reversed(str[low..ptr]) == all
      invariant str[..low] == old(str[..low]) && forall i :: ptr <= i < str.Length ==> str[i] == old(str[i])
      decreases first, Abs(v)
    {
      TruncAbs(v, base);
      MirrorAt(TruncMod(v, base));
      OneDigit(v, base, str[low..ptr]);
      ghost var before := str[low..ptr];
      assert |Digits(Abs(v), base)| + (ptr - low) == |all|;
      str[ptr] := Mirror[35 + TruncMod(v, base)];
      assert str[low..ptr + 1] == before + [DigitChar(Remainder(Abs(v), base))];
      ptr := ptr + 1;
      v := TruncDiv(v, base);
      first := false;
    }
    end := ptr;
    assert "" + Reversed(str[low..ptr]) == Reversed(str[low..ptr]);
  }

  lemma NoneCollected(s: string)
    ensures s + Reversed("") == s
  {
  }

  /** The swap loop of itoa, on str[from..to]. */
  method ReverseInPlace(str: array<char>, from: nat, to: nat)
    requires from <= to <= str.Length
    modifies str
    ensures str[from..to] == Reversed(old(str[from..to]))
    ensures str[..from] == old(str[..from]) && str[to..] == old(str[to..])
  {
    hide Reversed;
    var low, high := from, to - 1;
    ghost var was := str[..];
    while low < high
      invariant from <= low <= high + 2 && low + high == from + to - 1
      invariant forall i :: from <= i < low || high < i < to ==> str[i] == was[from + to - 1 - i]
      invariant forall i :: 0 <= i < from || low <= i <= high || to <= i < str.Length ==> str[i] == was[i]
    {
      str[low], str[high] := str[high], str[low];
      low, high := low + 1, high - 1;
    }
    SwappedIsReversed(str[..], was, from, to);
  }

  /** Mirroring the places of a segment reverses it. */
  lemma SwappedIsReversed(s: string, was: string, from: nat, to: nat)
    requires |s| == |was| && from <= to <= |s|
    requires forall i :: from <= i < to ==> s[i] == was[from + to - 1 - i]
    requires forall i :: 0 <= i < from || to <= i < |s| ==> s[i] == was[i]
    ensures s[from..to] == Reversed(was[from..to]) && s[..from] == was[..from] && s[to..] == was[to..]
  {
    hide Reversed;
    var segment := was[from..to];
    ReversedAt(segment);
    forall i | 0 <= i < to - from ensures s[from..to][i] == Reversed(segment)[i] {
      assert s[from + i] == was[to - 1 - i] == segment[|segment| - 1 - i];
    }
  }

  /** itoa writes the text and a terminator and nothing behind it. */
  method Itoa(value: int, str: array<char>, base: int)
    requires Int32(value) && |Text(value, base)| < str.Length
    modifies str
    ensures var t := Text(value, base);
            str[..|t|] == t && str[|t|] == '\0' && str[|t| + 1..] == old(str[|t| + 1..])
    ensures base < 2 || base > 36 ==> str[0] == '\0' && str[1..] == old(str[1..])
  {
    hide Digits, Reversed, Abs;
    if base < 2 || base > 36 {
      str[0] := '\0';
      return;
    }
    ghost var digits := Digits(Abs(value), base);
    ghost var sign := if value < 0 && base == 10 then "-" else "";
    assert Text(value, base) == sign + digits;
    hide Text;
    var low := 0;
    if value < 0 && base == 10 {
      str[0] := '-';
      low := 1;
    }
    assert str[..low] == sign;
    var end := WriteDigits(value, str, base, low);
    ghost var s1 := str[..];
    assert s1[low..end] == str[low..end] && s1[..low] == str[..low];
    str[end] := '\0';
    ghost var s2 := str[..];
    ReverseInPlace(str, low, end);
    Assembled(s1, s2, str[..], low, end, digits);
  }

  /** Digits collected backwards, a terminator put behind them, and the digits
      reversed. */
  lemma Assembled(s1: string, s2: string, s3: string, low: nat, end: nat, digits: string)
    requires low <= end < |s1| && s2 == s1[end := '\0'] && |s3| == |s2| && end == low + |digits|
    requires Reversed(s1[low..end]) == digits
    requires s3[low..end] == Reversed(s2[low..end]) && s3[..low] == s2[..low] && s3[end..] == s2[end..]
    ensures s3[..end] == s1[..low] + digits && s3[end] == '\0' && s3[end + 1..] == s1[end + 1..]
  {
    hide Reversed;
    assert s2[low..end] == s1[low..end] && s2[..low] == s1[..low];
    assert s3[end] == s3[end..][0] && s3[end + 1..] == s3[end..][1..] && s2[end..][1..] == s1[end + 1..];
    assert s3[..end] == s3[..low] + s3[low..end];
  }

  // ----- strtol -----

  /** The character at i; the text ends with a terminator. */
  function CharAt(s: string, i: nat): char { if i < |s| then s[i] else '\0' }

  function SkipBlanks(s: string, i: nat): (j: nat)
    requires i <= |s|
    ensures i <= j <= |s|
    decreases |s| - i
  {
    if i < |s| && (s[i] == ' ' || s[i] == '\t') then SkipBlanks(s, i + 1) else i
  }

  predicate IsDigit(c: char, base: int) { DigitValue(c) < 36 && DigitValue(c) < base }

  /** The first position from i on that is not a digit of the base. */
  function DigitsEnd(s: string, i: nat, base: int): (j: nat)
    requires i <= |s|
    ensures i <= j <= |s|
    ensures forall k :: i <= k < j ==> IsDigit(s[k], base)
    ensures !IsDigit(CharAt(s, j), base)
    decreases |s| - i
  {
    if i < |s| && IsDigit(s[i], base) then DigitsEnd(s, i + 1, base) else i
  }

  /** Where the digits start and in which base, after an optional prefix. */
  function Prefix(s: string, i: nat, base: int): (r: (nat, int))
    requires i <= |s|
    ensures i <= r.0 <= |s|
  {
    if (base == 0 || base == 16) && CharAt(s, i) == '0' && CharAt(s, i + 1) == 'x' then (i + 2, 16)
    else if base == 0 && CharAt(s, i) == '0' then (i + 1, 8)
    else if base == 0 then (i, 10)
    else (i, base)
  }

  function EvalIn(s: string, base: int): nat { if base < 0 then 0 else Eval(s, base) }

  /** The value strtol returns and the position it stops at. */
  function Strtol(s: string, base: int): (r: (int, nat)) {
    var i := SkipBlanks(s, 0);
    var neg := CharAt(s, i) == '-';
    var j := if neg || CharAt(s, i) == '+' then i + 1 else i;
    var (k, b) := Prefix(s, j, base);
    var end := DigitsEnd(s, k, b);
    var v := Wrap32(EvalIn(s[k..end], b));
    (if neg then Wrap32(-v) else v, end)
  }

  lemma WrapStep(x: int, base: int, d: int)
    ensures Wrap32(Wrap32(x) * base + d) == Wrap32(x * base + d)
  {
    var q := (x + 0x8000_0000) / 0x1_0000_0000;
    assert Wrap32(x) == x - q * 0x1_0000_0000;
    assert Wrap32(x) * base + d == x * base + d - (q * base) * 0x1_0000_0000;
    WrapPeriodic(x * base + d, q * base);
  }

  lemma WrapPeriodic(x: int, k: int)
    ensures Wrap32(x - k * 0x1_0000_0000) == Wrap32(x)
  {
    var y := x + 0x8000_0000;
    var q, r := y / 0x1_0000_0000, y % 0x1_0000_0000;
    assert y - k * 0x1_0000_0000 == (q - k) * 0x1_0000_0000 + r;
  }

  lemma ScanStep(s: string, k: nat, i: nat, base: int)
    requires k <= i < |s| && base >= 0
    ensures Wrap32(Wrap32(EvalIn(s[k..i], base)) * base + DigitValue(s[i])) == Wrap32(EvalIn(s[k..i + 1], base))
  {
    assert s[k..i + 1][..i - k] == s[k..i];
    WrapStep(EvalIn(s[k..i], base), base, DigitValue(s[i]));
  }

  lemma ScanStart(s: string, k: nat, base: int)
    requires k <= |s|
    ensures Wrap32(EvalIn(s[k..k], base)) == 0
  {
  }

  /** The digit loop of strtol, with its 32-bit accumulator. */
  method ScanDigits(s: string, start: nat, base: int) returns (val: int, end: nat)
    requires start <= |s|
    ensures end == DigitsEnd(s, start, base) && val == Wrap32(EvalIn(s[start..end], base))
  {
    hide EvalIn, Wrap32, DigitValue;
    ScanStart(s, start, base);
    end, val := start, 0;
    while end < |s| && IsDigit(CharAt(s, end), base)
      invariant start <= end <= |s| && DigitsEnd(s, start, base) == DigitsEnd(s, end, base)
      invariant val == Wrap32(EvalIn(s[start..end], base))
    {
      ScanStep(s, start, end, base);
      val := Wrap32(val * base + DigitValue(s[end]));
      end := end + 1;
    }
  }

  method SkipWhite(s: string) returns (i: nat)
    ensures i == SkipBlanks(s, 0)
  {
    i := 0;
    while i < |s| && (s[i] == ' ' || s[i] == '\t')
      invariant i <= |s| && SkipBlanks(s, 0) == SkipBlanks(s, i)
    {
      i := i + 1;
    }
  }

  method ReadPrefix(s: string, at: nat, base: int) returns (i: nat, b: int)
    requires at <= |s|
    ensures (i, b) == Prefix(s, at, base)
  {
    i, b := at, base;
    if (base == 0 || base == 16) && CharAt(s, i) == '0' && CharAt(s, i + 1) == 'x' {
      i, b := i + 2, 16;
    } else if base == 0 && CharAt(s, i) == '0' {
      i, b := i + 1, 8;
    } else if base == 0 {
      b := 10;
    }
  }

  /** strtol */
  method ParseLong(s: string, base: int) returns (value: int, end: nat)
    ensures (value, end) == Strtol(s, base)
  {
    hide EvalIn, Wrap32, DigitsEnd, SkipBlanks, DigitValue, Prefix;
    var i := SkipWhite(s);
    var neg := false;
    if CharAt(s, i) == '+' {
      i := i + 1;
    } else if CharAt(s, i) == '-' {
      i, neg := i + 1, true;
    }
    var b, val;
    i, b := ReadPrefix(s, i, base);
    val, end := ScanDigits(s, i, b);
    value := if neg then Wrap32(-val) else val;
  }

  // ----- What strtol reads in any text -----

  /** A text as strtol takes it apart: blanks, a sign, a base prefix, digits, and
      the rest, which it leaves. */
  datatype Parts = Parts(blanks: string, sign: string, prefix: string, digits: string, tail: string) {
    function Text(): string { blanks + (sign + (prefix + (digits + tail))) }
    function Length(): nat { |blanks| + |sign| + |prefix| + |digits| }
  }

  /** The prefix that goes with a base argument, and the base the digits are in. */
  predicate Announces(prefix: string, base: int, b: int) {
    || (prefix == "0x" && (base == 0 || base == 16) && b == 16)
    || (prefix == "0" && base == 0 && b == 8)
    || (prefix == "" && b == if base == 0 then 10 else base)
  }

  /** No longer prefix could be taken. */
  ghost predicate WholePrefix(prefix: string, base: int, b: int, number: string) {
    && Announces(prefix, base, b)
    && (prefix == "" && base == 16 ==> !("0x" <= number))
    && (prefix == "" && base == 0 ==> !("0" <= number))
    && (prefix == "0" ==> !("x" <= number))
  }

  /** Each part is as long as it can be: what follows it does not belong to it. */
  ghost predicate Maximal(p: Parts, base: int, b: int) {
    && AllBlank(p.blanks)
    && (p.sign == "" || p.sign == "+" || p.sign == "-")
    && (p.sign == "" ==> Unsigned(CharAt(p.prefix + (p.digits + p.tail), 0)))
    && WholePrefix(p.prefix, base, b, p.digits + p.tail)
    && AllDigits(p.digits, b) && !IsDigit(CharAt(p.tail, 0), b)
  }

  predicate AllBlank(s: string) { forall i :: 0 <= i < |s| ==> s[i] == ' ' || s[i] == '\t' }

  predicate AllDigits(s: string, base: int) { forall i :: 0 <= i < |s| ==> IsDigit(s[i], base) }

  predicate Unsigned(c: char) { c != ' ' && c != '\t' && c != '+' && c != '-' }

  /** strtol reads the sign and the digits in the base the prefix announces, wraps
      to 32 bits, and stops right behind the digits. */
  lemma {:induction false} StrtolOfParts(p: Parts, base: int, b: int)
    requires Maximal(p, base, b)
    ensures var v := Wrap32(if b < 0 then 0 else Eval(p.digits, b));
            Strtol(p.Text(), base) == (if p.sign == "-" then Wrap32(-v) else v, p.Length())
  {
    hide Eval, Wrap32, DigitValue, IsDigit, Announces, Strtol, Prefix, SkipBlanks, DigitsEnd, WholePrefix;
    var s, i := p.Text(), |p.blanks|;
    var j := i + |p.sign|;
    var k := j + |p.prefix|;
    var end := k + |p.digits|;
    FrontParts(s, p, i, j);
    BackParts(s, p, j, k, end);
    hide Parts.Text;
    AfterBlanks(s, 0, i);
    PrefixTaken(s, j, p.prefix, p.digits + p.tail, base, b);
    EndOfDigits(s, k, end, b);
    StrtolSteps(s, base, i, j, k, b, end);
  }

  lemma FrontParts(s: string, p: Parts, i: nat, j: nat)
    requires s == p.Text() && i == |p.blanks| && j == i + |p.sign|
    ensures j <= |s| && s[j..] == p.prefix + (p.digits + p.tail)
    ensures forall x :: 0 <= x < i ==> s[x] == p.blanks[x]
    ensures |p.sign| == 1 ==> CharAt(s, i) == p.sign[0]
    ensures p.sign == "" ==> CharAt(s, i) == CharAt(p.prefix + (p.digits + p.tail), 0)
  {
  }

  lemma BackParts(s: string, p: Parts, j: nat, k: nat, end: nat)
    requires j <= |s| && s[j..] == p.prefix + (p.digits + p.tail) && k == j + |p.prefix| && end == k + |p.digits|
    ensures end <= |s| && s[k..end] == p.digits && CharAt(s, end) == CharAt(p.tail, 0)
    ensures forall x :: k <= x < end ==> s[x] == p.digits[x - k]
  {
    forall x | k <= x < |s| ensures s[x] == (p.digits + p.tail)[x - k] { assert s[x] == s[j..][x - j]; }
  }

  lemma PrefixTaken(s: string, j: nat, prefix: string, number: string, base: int, b: int)
    requires j <= |s| && s[j..] == prefix + number && WholePrefix(prefix, base, b, number)
    ensures Prefix(s, j, base) == (j + |prefix|, b)
  {
    forall x | j <= x < |s| ensures s[x] == (prefix + number)[x - j] { assert s[x] == s[j..][x - j]; }
    assert |number| > 0 && number[0] == '0' ==> "0" <= number;
    assert |number| > 0 && number[0] == 'x' ==> "x" <= number;
    assert |number| > 1 && number[0] == '0' && number[1] == 'x' ==> "0x" <= number;
  }

  lemma PrefixWhole(s: string, j: nat, base: int)
    requires j <= |s|
    ensures var (k, b) := Prefix(s, j, base); WholePrefix(s[j..k], base, b, s[k..])
  {
    var (k, b) := Prefix(s, j, base);
    assert k == j + 1 ==> s[j..k] == [s[j]];
    assert k == j + 2 ==> s[j..k] == [s[j], s[j + 1]];
    if k < |s| { assert s[k..][0] == s[k]; }
    if k + 1 < |s| { assert s[k..][1] == s[k + 1]; }
  }

  lemma {:induction false} AfterBlanks(s: string, i: nat, n: nat)
    requires i <= n <= |s| && forall x :: i <= x < n ==> s[x] == ' ' || s[x] == '\t'
    requires CharAt(s, n) != ' ' && CharAt(s, n) != '\t'
    ensures SkipBlanks(s, i) == n
    decreases n - i
  {
    if i < n { AfterBlanks(s, i + 1, n); }
  }

  lemma {:induction false} EndOfDigits(s: string, k: nat, end: nat, base: int)
    requires k <= end <= |s| && (forall x :: k <= x < end ==> IsDigit(s[x], base)) && !IsDigit(CharAt(s, end), base)
    ensures DigitsEnd(s, k, base) == end
    decreases end - k
  {
    hide IsDigit;
    if k < end { EndOfDigits(s, k + 1, end, base); }
  }

  lemma StrtolSteps(s: string, base: int, i: nat, j: nat, k: nat, b: int, end: nat)
    requires i == SkipBlanks(s, 0) && j <= |s|
    requires j == if CharAt(s, i) == '-' || CharAt(s, i) == '+' then i + 1 else i
    requires Prefix(s, j, base) == (k, b) && end == DigitsEnd(s, k, b)
    ensures var v := Wrap32(if b < 0 then 0 else Eval(s[k..end], b));
            Strtol(s, base) == (if CharAt(s, i) == '-' then Wrap32(-v) else v, end)
  {
    hide Eval, Wrap32, DigitValue, SkipBlanks, Prefix, DigitsEnd;
  }

  /** Every text has such parts, so this says what strtol does with all of them. */
  lemma {:induction false} EveryTextHasParts(s: string, base: int) returns (p: Parts, b: int)
    ensures p.Text() == s && Maximal(p, base, b)
  {
    hide DigitValue, IsDigit, Prefix, WholePrefix, SkipBlanks, DigitsEnd, Unsigned, AllBlank, AllDigits, CharAt;
    hide Parts.Text;
    var i := SkipBlanks(s, 0);
    BlanksSkipped(s, 0);
    assert s[0..i] == s[..i];
    var j := SignTaken(s, i);
    var (k, c) := Prefix(s, j, base);
    b := c;
    var end := DigitsEnd(s, k, b);
    p := Parts(s[..i], s[i..j], s[j..k], s[k..end], s[end..]);
    PrefixWhole(s, j, base);
    Pieces(s, i, j, k, end, p);
    DigitPart(s, k, end, b);
  }

  lemma SignTaken(s: string, i: nat) returns (j: nat)
    requires i <= |s| && CharAt(s, i) != ' ' && CharAt(s, i) != '\t'
    ensures i <= j <= |s| && (s[i..j] == "" || s[i..j] == "+" || s[i..j] == "-")
    ensures s[i..j] == "" ==> Unsigned(CharAt(s[j..], 0))
  {
    j := i;
    if CharAt(s, i) == '-' || CharAt(s, i) == '+' {
      j := i + 1;
      assert s[i..j] == [s[i]];
    }
  }

  lemma {:induction false} DigitPart(s: string, k: nat, end: nat, b: int)
    requires k <= |s| && end == DigitsEnd(s, k, b)
    ensures AllDigits(s[k..end], b) && !IsDigit(CharAt(s[end..], 0), b)
  {
    hide DigitValue, IsDigit;
  }

  lemma Pieces(s: string, i: nat, j: nat, k: nat, end: nat, p: Parts)
    requires i <= j <= k <= end <= |s| && p == Parts(s[..i], s[i..j], s[j..k], s[k..end], s[end..])
    ensures p.digits + p.tail == s[k..] && p.prefix + (p.digits + p.tail) == s[j..] && p.Text() == s
  {
    assert s[k..] == s[k..end] + s[end..];
    assert s[j..] == s[j..k] + s[k..];
    assert s[i..] == s[i..j] + s[j..];
    assert s == s[..i] + s[i..];
  }

  lemma {:induction false} BlanksSkipped(s: string, i: nat)
    requires i <= |s|
    ensures var j := SkipBlanks(s, i);
            AllBlank(s[i..j]) && CharAt(s, j) != ' ' && CharAt(s, j) != '\t'
    decreases |s| - i
  {
    var j := SkipBlanks(s, i);
    if i < j {
      BlanksSkipped(s, i + 1);
      assert s[i..j] == [s[i]] + s[i + 1..j];
    }
  }

  /** Reading back what itoa wrote consumes the whole text and gives the value,
      or its absolute value when a sign was not written. */
  lemma StrtolOfText(value: int, base: int)
    requires Int32(value) && 2 <= base <= 36
    ensures Strtol(Text(value, base), base) ==
            (if value >= 0 || base == 10 then value else Wrap32(-value), |Text(value, base)|)
  {
    hide DigitValue, DigitChar, Digits, Eval, Wrap32, DigitsEnd, SkipBlanks, Prefix;
    var n := Abs(value);
    var t := Digits(n, base);
    DigitsEval(n, base);
    var minus := value < 0 && base == 10;
    StrtolOfDigits(t, minus, base);
    WrapAbs(value);
  }

  lemma WrapAbs(value: int)
    requires Int32(value)
    ensures value >= 0 ==> Wrap32(value) == value
    ensures value < 0 ==> Wrap32(-Wrap32(-value)) == value
  {
  }

  lemma {:induction false} StrtolOfDigits(t: string, minus: bool, base: nat)
    requires 2 <= base <= 36 && AreDigits(t, base) && |t| > 0
    ensures var s := (if minus then "-" else "") + t;
            Strtol(s, base) == (if minus then Wrap32(-Wrap32(Eval(t, base))) else Wrap32(Eval(t, base)), |s|)
  {
    hide DigitValue, Eval, Wrap32, DigitsEnd, Prefix;
    var s := (if minus then "-" else "") + t;
    var j := if minus then 1 else 0;
    assert s[j..] == t && s[j..|s|] == t;
    DigitsAreNoBlanks(t, base);
    assert s[0] == if minus then '-' else t[0];
    assert SkipBlanks(s, 0) == 0;
    NoPrefix(s, j, t, base);
    forall i | j <= i < |s| ensures DigitValue(s[i]) < base { assert s[i] == t[i - j]; }
    AllDigitsEnd(s, j, base);
  }

  lemma DigitsAreNoBlanks(t: string, base: nat)
    requires 2 <= base <= 36 && AreDigits(t, base) && |t| > 0
    ensures forall i :: 0 <= i < |t| ==>
            t[i] != ' ' && t[i] != '\t' && t[i] != '-' && t[i] != '+' && (base == 16 ==> t[i] != 'x')
  {
    assert DigitValue(' ') == 36 && DigitValue('\t') == 36 && DigitValue('-') == 36 && DigitValue('+') == 36
           && DigitValue('x') == 33;
  }

  lemma NoPrefix(s: string, j: nat, t: string, base: nat)
    requires 2 <= base <= 36 && j <= |s| && s[j..] == t && AreDigits(t, base) && |t| > 0
    ensures Prefix(s, j, base) == (j, base)
  {
    DigitsAreNoBlanks(t, base);
    if j + 1 < |s| { assert s[j + 1] == t[1]; }
  }

  lemma {:induction false} AllDigitsEnd(s: string, j: nat, base: nat)
    requires j <= |s| && base <= 36 && forall i :: j <= i < |s| ==> DigitValue(s[i]) < base
    ensures DigitsEnd(s, j, base) == |s|
    decreases |s| - j
  {
    if j < |s| { AllDigitsEnd(s, j + 1, base); }
  }

  /** The round trip holds exactly for values that are not negative, for base
      ten, and for the most negative value, whose absolute value wraps to it. */
  lemma ItoaStrtolRoundTrip(value: int, base: int)
    requires Int32(value) && 2 <= base <= 36
    ensures Strtol(Text(value, base), base).0 == value <==> value >= 0 || base == 10 || value == -0x8000_0000
    ensures Strtol(Text(value, base), base).1 == |Text(value, base)|
  {
    hide Strtol, Text, Wrap32;
    StrtolOfText(value, base);
    if value < 0 { WrapNegated(value); }
  }

  lemma WrapNegated(v: int)
    requires -0x8000_0000 <= v < 0
    ensures Wrap32(-v) == if v == -0x8000_0000 then v else -v
  {
  }
}
