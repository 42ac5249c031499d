/** ksprintn and the number path of kvprintf in src/core_crt/stdio.c. */
module Format {
  import opened Notation

  const MAXNBUF: nat := 65  // sizeof(intmax_t) * NBBY + 1

  function ToUpper(c: char): char { if 'a' <= c <= 'z' then c - ' ' else c }

  function Cased(s: string, upper: bool): (t: string)
    ensures |t| == |s|
  {
    if upper then seq(|s|, i requires 0 <= i < |s| => ToUpper(s[i])) else s
  }

  lemma CaseKeepsDigit(c: char)
    requires '0' <= c <= '9' || 'a' <= c <= 'z'
    ensures DigitValue(ToUpper(c)) == DigitValue(c) && ToUpper(c) != '\0' && (ToUpper(c) == '0' <==> c == '0')
  {
  }

  /** The digits of a 64-bit number fit the buffer in every base. */
  lemma {:induction false} NumberFits(num: nat, base: nat)
    requires num < 0x1_0000_0000_0000_0000 && 2 <= base <= 36
    ensures |Digits(num, base)| <= 64
  {
    PowersOfTwo();
    PowerMonotone(2, base, 64);
    DigitsLength(num, base, 64);
  }

  lemma {:induction false} CollectOne(n: nat, base: nat, collected: string, upper: bool)
    requires 2 <= base <= 36
    ensures var c := if upper then ToUpper(DigitChar(Remainder(n, base))) else DigitChar(Remainder(n, base));
            Cased(if n < base then "" else Digits(Quotient(n, base), base), upper) + Reversed(collected + [c])
            == Cased(Digits(n, base), upper) + Reversed(collected)
  {
    LastDigit(n, base);
    hide Digits, DigitChar, ToUpper, Reversed, Cased, Quotient, Remainder;
    var d := DigitChar(Remainder(n, base));
    var c := if upper then ToUpper(d) else d;
    var front := if n < base then "" else Digits(Quotient(n, base), base);
    CasedSnoc(front, d, upper);
    ReversedSnoc(collected, c);
    Regroup(Cased(front, upper), c, Reversed(collected));
  }

  lemma Regroup(a: string, c: char, b: string)
    ensures a + ([c] + b) == a + [c] + b
  {
  }

  lemma CasedSnoc(s: string, d: char, upper: bool)
    ensures Cased(s + [d], upper) == Cased(s, upper) + [if upper then ToUpper(d) else d]
  {
  }

  /** ksprintn: the digits backwards behind a terminator; p is the position of
      the first digit, which is also the number of digits. */
  method Ksprintn(nbuf: array<char>, num: nat, base: nat, upper: bool) returns (p: nat)
    requires num < 0x1_0000_0000_0000_0000 && 2 <= base <= 36 && nbuf.Length >= MAXNBUF
    modifies nbuf
    ensures 1 <= p <= 64 && p == |Digits(num, base)|
    ensures nbuf[0] == '\0' && Reversed(nbuf[1..p + 1]) == Cased(Digits(num, base), upper)
  {
    hide Digits, DigitChar, ToUpper, Reversed, Cased, Quotient, Remainder;
    NumberFits(num, base);
    ghost var all := Cased(Digits(num, base), upper);
    p := 0;
    nbuf[0] := '\0';
    var n: nat := num;
    var first := true;
    StartCollecting(all);
    while first || n != 0
      invariant 0 <= p <= 64 && (first <==> p == 0) && (first ==> n == num) && nbuf[0] == '\0'
      invariant (if first || n != 0 then Cased(Digits(n, base), upper) else "") + Reversed(nbuf[1..p + 1]) == all
      decreases first, n
    {
      LastDigit(n, base);
      ghost var before := nbuf[1..p + 1];
      CollectOne(n, base, before, upper);
      assert |Digits(n, base)| + p == |all|;
      var c := DigitChar(Remainder(n, base));
      c := if upper then ToUpper(c) else c;
      p := p + 1;
      nbuf[p] := c;
      assert nbuf[1..p + 1] == before + [c];
      EmptyCased(upper);
      n := Quotient(n, base);
      first := false;
    }
    assert "" + Reversed(nbuf[1..p + 1]) == Reversed(nbuf[1..p + 1]);
  }

  lemma StartCollecting(s: string)
    ensures s + Reversed("") == s
  {
  }

  lemma EmptyCased(upper: bool)
    ensures Cased("", upper) == ""
  {
  }

  // ----- The number path of kvprintf -----

  /** The conversion as the flags of a format leave it. */
  datatype Spec = Spec(base: nat, upper: bool, sharp: bool, sign: bool, ladjust: bool, zeroPad: bool,
                       width: int, precision: int)

  predicate Negative(num: nat, spec: Spec) { spec.sign && num >= 0x8000_0000_0000_0000 }

  /** The number the caller passed: the argument read as signed or not. */
  function SignedValue(num: nat, spec: Spec): int { if Negative(num, spec) then num - 0x1_0000_0000_0000_0000 else num }

  /** The magnitude of the argument: negated in 64 bits when negative. */
  function Magnitude(num: nat, spec: Spec): (m: nat)
    requires num < 0x1_0000_0000_0000_0000
    ensures m < 0x1_0000_0000_0000_0000
    ensures SignedValue(num, spec) == m || SignedValue(num, spec) + m == 0
    ensures SignedValue(num, spec) < 0 <==> Negative(num, spec)
  {
    if Negative(num, spec) then 0x1_0000_0000_0000_0000 - num else num
  }

  function Lead(num: nat, spec: Spec): string
    requires num < 0x1_0000_0000_0000_0000
  {
    (if Negative(num, spec) then "-" else "") +
    (if !spec.sharp || Magnitude(num, spec) == 0 then ""
     else if spec.base == 8 then "0"
     else if spec.base == 16 then "0x"
     else "")
  }

  function Max(x: int, y: int): int { if x > y then x else y }

  function Many(c: char, n: int): (s: string)
    ensures |s| == Max(0, n)
    decreases Max(0, n)
  {
    if n <= 0 then "" else Many(c, n - 1) + [c]
  }

  /** Zero padding replaces the precision by the room the width leaves. */
  function Precision(num: nat, spec: Spec): int
    requires num < 0x1_0000_0000_0000_0000
  {
    if !spec.ladjust && spec.zeroPad then spec.width - |Lead(num, spec)| else spec.precision
  }

  function NumberDigits(num: nat, spec: Spec): string
    requires num < 0x1_0000_0000_0000_0000 && 2 <= spec.base <= 36
  {
    Cased(Digits(Magnitude(num, spec), spec.base), spec.upper)
  }

  /** What the number path emits. */
  function NumberText(num: nat, spec: Spec): string
    requires num < 0x1_0000_0000_0000_0000 && 2 <= spec.base <= 36
  {
    var lead, digits, precision := Lead(num, spec), NumberDigits(num, spec), Precision(num, spec);
    var spaces := Many(' ', spec.width - |lead| - Max(precision, |digits|));
    var body := lead + Many('0', precision - |digits|) + digits;
    if spec.ladjust then body + spaces else spaces + body
  }

  /** The characters the sign and the base prefix take. */
  function LeadLength(num: nat, spec: Spec): nat {
    (if spec.sign && num >= 0x8000_0000_0000_0000 then 1 else 0) +
    (if !spec.sharp || num == 0 then 0 else if spec.base == 8 then 1 else if spec.base == 16 then 2 else 0)
  }

  /** How many digits are wanted: zero padding asks for what the width leaves. */
  function DigitCount(num: nat, spec: Spec): int
    requires num < 0x1_0000_0000_0000_0000 && 2 <= spec.base <= 36
  {
    Max(|Digits(Magnitude(num, spec), spec.base)|,
        if spec.zeroPad && !spec.ladjust then spec.width - LeadLength(num, spec) else spec.precision)
  }

  /** The number path emits exactly the width, or what sign, prefix and digits
      need if that is more. */
  lemma NumberLength(num: nat, spec: Spec)
    requires num < 0x1_0000_0000_0000_0000 && 2 <= spec.base <= 36
    ensures |NumberText(num, spec)| == Max(spec.width, LeadLength(num, spec) + DigitCount(num, spec))
  {
    hide Digits, Many;
  }

  /** Between the padding stand the sign, the prefix and digits whose value is
      the magnitude, without a leading zero of their own except for zero. */
  lemma NumberReads(num: nat, spec: Spec)
    requires num < 0x1_0000_0000_0000_0000 && 2 <= spec.base <= 36
    ensures var digits := NumberDigits(num, spec);
            var zeroes := Many('0', Precision(num, spec) - |digits|);
            && Eval(zeroes + digits, spec.base) == Magnitude(num, spec)
            && (digits[0] == '0' <==> Magnitude(num, spec) == 0)
  {
    hide Digits, DigitValue, ToUpper, Many;
    var plain := Digits(Magnitude(num, spec), spec.base);
    DigitsEval(Magnitude(num, spec), spec.base);
    CasedEval(plain, spec.upper, spec.base);
    CaseKeepsDigit(plain[0]);
    LeadingZeroes(Precision(num, spec) - |plain|, NumberDigits(num, spec), spec.base);
  }

  lemma {:induction false} CasedEval(s: string, upper: bool, base: nat)
    requires forall i :: 0 <= i < |s| ==> '0' <= s[i] <= '9' || 'a' <= s[i] <= 'z'
    ensures Eval(Cased(s, upper), base) == Eval(s, base)
    decreases |s|
  {
    hide DigitValue, ToUpper;
    if |s| > 0 {
      var n := |s| - 1;
      CasedEval(s[..n], upper, base);
      CaseKeepsDigit(s[n]);
      assert Cased(s, upper)[..n] == Cased(s[..n], upper);
    }
  }

  lemma {:induction false} LeadingZeroes(n: int, s: string, base: nat)
    ensures Eval(Many('0', n) + s, base) == Eval(s, base)
    decreases |s|, Max(0, n)
  {
    var zeroes := Many('0', n);
    if |s| > 0 {
      hide Many, DigitValue;
      var m := |s| - 1;
      LeadingZeroes(n, s[..m], base);
      assert (zeroes + s)[..|zeroes + s| - 1] == zeroes + s[..m];
    } else if n > 0 {
      LeadingZeroes(n - 1, s, base);
      var less := Many('0', n - 1);
      assert zeroes + s == less + ['0'];
      hide Many;
      assert (less + ['0'])[..|less|] == less + s;
    }
  }

  // ----- Reading the text back -----

  function BlanksInFront(s: string): (n: nat)
    ensures n <= |s|
  {
    if |s| > 0 && s[0] == ' ' then 1 + BlanksInFront(s[1..]) else 0
  }

  function BlanksBehind(s: string): (n: nat)
    ensures n <= |s|
  {
    if |s| > 0 && s[|s| - 1] == ' ' then 1 + BlanksBehind(s[..|s| - 1]) else 0
  }

  /** The text without the blanks around it. */
  function Trimmed(s: string): string {
    var rest := s[BlanksInFront(s)..];
    rest[..|rest| - BlanksBehind(rest)]
  }

  /** The sign of a text and what follows it. */
  function SplitSign(s: string): (int, string) {
    if |s| > 0 && s[0] == '-' then (-1, s[1..]) else (1, s)
  }

  /** What %#o and %#x put in front of the digits of a number that is not zero. */
  function BasePrefix(value: int, spec: Spec): string {
    if !spec.sharp || value == 0 then "" else if spec.base == 8 then "0" else if spec.base == 16 then "0x" else ""
  }

  /** Letters are of the case asked for. */
  predicate InCase(s: string, upper: bool) {
    forall i :: 0 <= i < |s| ==> if upper then !('a' <= s[i] <= 'z') else !('A' <= s[i] <= 'Z')
  }

  /** The blanks around the text stand in front, or behind for a text adjusted to
      the left. Between them a minus sign for a negative number and no other,
      then the prefix, then digits of the base, as many as asked for, of the case
      asked for; sign and digits stand for the number that was passed. */
  lemma {:induction false} TextReadsBack(num: nat, spec: Spec)
    requires num < 0x1_0000_0000_0000_0000 && 2 <= spec.base <= 36
    ensures var s, value := NumberText(num, spec), SignedValue(num, spec);
            var (sign, rest) := SplitSign(Trimmed(s));
            var prefix := BasePrefix(value, spec);
            && (if spec.ladjust then BlanksInFront(s) == 0 else BlanksBehind(s) == 0)
            && (sign < 0 <==> value < 0)
            && prefix <= rest
            && var digits := rest[|prefix|..];
            && |digits| == DigitCount(num, spec)
            && AreDigits(digits, spec.base) && InCase(digits, spec.upper)
            && sign * Eval(digits, spec.base) == value
  {
    hide *;
    var all := AllDigits(num, spec);
    AllDigitsRead(num, spec);
    var n := TextShape(num, spec, all);
    TrimmedText(Lead(num, spec) + all, n);
    SignOfText(num, spec, all);
    PrefixOf(BasePrefix(SignedValue(num, spec), spec), all);
  }

  lemma PrefixOf(p: string, s: string)
    ensures p <= p + s && (p + s)[|p|..] == s
  {
  }

  /** The padding zeroes and the digits. */
  function AllDigits(num: nat, spec: Spec): string
    requires num < 0x1_0000_0000_0000_0000 && 2 <= spec.base <= 36
  {
    Many('0', Precision(num, spec) - |NumberDigits(num, spec)|) + NumberDigits(num, spec)
  }

  lemma {:induction false} AllDigitsRead(num: nat, spec: Spec)
    requires num < 0x1_0000_0000_0000_0000 && 2 <= spec.base <= 36
    ensures var all := AllDigits(num, spec);
            && |all| > 0 && |all| == DigitCount(num, spec) && AreDigits(all, spec.base) && InCase(all, spec.upper)
            && all[0] != ' ' && all[|all| - 1] != ' ' && all[0] != '-'
            && Eval(all, spec.base) == Magnitude(num, spec)
  {
    hide Digits, DigitValue, ToUpper, Many, Eval, Cased, AreDigits, InCase;
    NumberReads(num, spec);
    DigitsFit(num, spec, Precision(num, spec) - |NumberDigits(num, spec)|);
  }

  /** Blanks go to one side of the sign, the prefix and the digits. */
  lemma {:induction false} TextShape(num: nat, spec: Spec, all: string) returns (n: int)
    requires num < 0x1_0000_0000_0000_0000 && 2 <= spec.base <= 36 && all == AllDigits(num, spec)
    requires |all| > 0 && all[0] != ' ' && all[|all| - 1] != ' '
    ensures var body := Lead(num, spec) + all;
            && |body| > 0 && body[0] != ' ' && body[|body| - 1] != ' '
            && NumberText(num, spec) == if spec.ladjust then body + Many(' ', n) else Many(' ', n) + body
  {
    hide Digits, Many, Cased, Precision;
    var lead, digits, precision := Lead(num, spec), NumberDigits(num, spec), Precision(num, spec);
    n := spec.width - |lead| - Max(precision, |digits|);
    assert lead + Many('0', precision - |digits|) + digits == lead + all;
  }

  lemma {:induction false} DigitsFit(num: nat, spec: Spec, n: int)
    requires num < 0x1_0000_0000_0000_0000 && 2 <= spec.base <= 36
    ensures var all := Many('0', n) + NumberDigits(num, spec);
            && |all| > 0 && AreDigits(all, spec.base) && InCase(all, spec.upper)
            && all[0] != ' ' && all[|all| - 1] != ' ' && all[0] != '-'
  {
    hide Digits, Many;
    var plain := Digits(Magnitude(num, spec), spec.base);
    DigitsEval(Magnitude(num, spec), spec.base);
    forall i | 0 <= i < |plain|
      ensures var c := Cased(plain, spec.upper)[i];
              && DigitValue(c) < spec.base && (if spec.upper then !('a' <= c <= 'z') else !('A' <= c <= 'Z'))
    {
      CaseKeepsDigit(plain[i]);
    }
    ManyAre('0', n);
    assert DigitValue('0') == 0 && DigitValue(' ') == 36 && DigitValue('-') == 36;
  }

  lemma {:induction false} ManyAre(c: char, n: int)
    ensures forall i :: 0 <= i < |Many(c, n)| ==> Many(c, n)[i] == c
    decreases Max(0, n)
  {
    if n > 0 { ManyAre(c, n - 1); }
  }

  /** Blanks on either side are trimmed, and no more. */
  lemma {:induction false} TrimmedText(body: string, n: int)
    requires |body| > 0 && body[0] != ' ' && body[|body| - 1] != ' '
    ensures var front, behind := Many(' ', n) + body, body + Many(' ', n);
            && Trimmed(front) == body && BlanksBehind(front) == 0
            && Trimmed(behind) == body && BlanksInFront(behind) == 0
  {
    hide Many, BlanksInFront, BlanksBehind;
    var front, behind, blanks := Many(' ', n) + body, body + Many(' ', n), |Many(' ', n)|;
    ManyAre(' ', n);
    CountFront(front, blanks);
    CountFront(behind, 0);
    CountBehind(front, 0);
    CountBehind(behind, blanks);
    assert front[blanks..] == body && behind[..|behind| - blanks] == body && behind[0..] == behind;
    CountBehind(body, 0);
    assert body[..|body|] == body;
  }

  lemma {:induction false} CountFront(s: string, n: nat)
    requires n < |s| && s[n] != ' ' && forall i :: 0 <= i < n ==> s[i] == ' '
    ensures BlanksInFront(s) == n
  {
    if n > 0 { CountFront(s[1..], n - 1); }
  }

  lemma {:induction false} CountBehind(s: string, n: nat)
    requires n < |s| && s[|s| - 1 - n] != ' ' && forall i :: |s| - n <= i < |s| ==> s[i] == ' '
    ensures BlanksBehind(s) == n
  {
    if n > 0 { CountBehind(s[..|s| - 1], n - 1); }
  }

  lemma SignOfText(num: nat, spec: Spec, all: string)
    requires num < 0x1_0000_0000_0000_0000 && |all| > 0 && all[0] != '-'
    ensures var (sign, rest) := SplitSign(Lead(num, spec) + all);
            var value := SignedValue(num, spec);
            && (sign < 0 <==> value < 0) && sign * Magnitude(num, spec) == value
            && rest == BasePrefix(value, spec) + all
  {
    var prefix := BasePrefix(SignedValue(num, spec), spec);
    if Negative(num, spec) {
      assert Lead(num, spec) == "-" + prefix;
      assert (Lead(num, spec) + all)[1..] == prefix + all;
    } else {
      assert Lead(num, spec) == prefix;
    }
  }

  /** The number path of kvprintf: the counters run down as they pad, and
      every character is counted. */
  method EmitNumber(emitted: string, count: int, num: nat, spec: Spec) returns (out: string, retval: int)
    requires num < 0x1_0000_0000_0000_0000 && 2 <= spec.base <= 36
    ensures out == emitted + NumberText(num, spec) && retval == count + |NumberText(num, spec)|
  {
    hide Digits, Cased, Reversed, Many, Max;
    out, retval := emitted, count;
    var neg := Negative(num, spec);
    var mag := if neg then 0x1_0000_0000_0000_0000 - num else num;
    var nbuf := new char[MAXNBUF];
    var n := Ksprintn(nbuf, mag, spec.base, spec.upper);
    ghost var lead, digits, precision := Lead(num, spec), NumberDigits(num, spec), Precision(num, spec);
    var tmp := 0;
    if spec.sharp && mag != 0 {
      if spec.base == 8 { tmp := tmp + 1; } else if spec.base == 16 { tmp := tmp + 2; }
    }
    if neg { tmp := tmp + 1; }
    assert tmp == |lead|;
    var width, dwidth := spec.width, spec.precision;
    if !spec.ladjust && spec.zeroPad { dwidth := width - tmp; }
    width := width - (tmp + Max(dwidth, n));
    dwidth := dwidth - n;
    ghost var spaces, zeroes := Many(' ', width), Many('0', dwidth);
    if !spec.ladjust { out, retval := Pad(out, retval, ' ', width); }
    out, retval := EmitLead(out, retval, num, spec);
    out, retval := Pad(out, retval, '0', dwidth);
    NoTerminator(num, spec);
    out, retval := EmitBackwards(out, retval, nbuf, n, digits);
    if spec.ladjust { out, retval := Pad(out, retval, ' ', width); }
    Assembled(emitted, spaces, lead, zeroes, digits);
  }

  lemma Assembled(emitted: string, spaces: string, lead: string, zeroes: string, digits: string)
    ensures emitted + spaces + lead + zeroes + digits == emitted + (spaces + (lead + zeroes + digits))
    ensures emitted + lead + zeroes + digits + spaces == emitted + (lead + zeroes + digits + spaces)
  {
  }

  /** The sign and the base prefix. */
  method EmitLead(emitted: string, count: int, num: nat, spec: Spec) returns (out: string, retval: int)
    requires num < 0x1_0000_0000_0000_0000
    ensures out == emitted + Lead(num, spec) && retval == count + |Lead(num, spec)|
  {
    out, retval := emitted, count;
    if Negative(num, spec) { out, retval := out + "-", retval + 1; }
    if spec.sharp && Magnitude(num, spec) != 0 {
      if spec.base == 8 { out, retval := out + "0", retval + 1; }
      else if spec.base == 16 { out, retval := out + "0x", retval + 2; }
    }
  }

  lemma NoTerminator(num: nat, spec: Spec)
    requires num < 0x1_0000_0000_0000_0000 && 2 <= spec.base <= 36
    ensures forall i :: 0 <= i < |NumberDigits(num, spec)| ==> NumberDigits(num, spec)[i] != '\0'
  {
    var plain := Digits(Magnitude(num, spec), spec.base);
    DigitsEval(Magnitude(num, spec), spec.base);
    forall i | 0 <= i < |plain| ensures Cased(plain, spec.upper)[i] != '\0' { CaseKeepsDigit(plain[i]); }
  }

  /** while (n-- > 0) PCHAR(c); */
  method Pad(emitted: string, count: int, c: char, n: int) returns (out: string, retval: int)
    ensures out == emitted + Many(c, n) && retval == count + |Many(c, n)|
  {
    out, retval := emitted, count;
    var left := n;
    while left > 0
      invariant left <= Max(0, n) || left == n
      invariant n > 0 ==> 0 <= left <= n && out == emitted + Many(c, n - left) && retval == count + n - left
      invariant n <= 0 ==> left == n && out == emitted && retval == count
    {
      out, retval := out + [c], retval + 1;
      left := left - 1;
    }
  }

  /** while (*p) PCHAR(*p--); */
  method EmitBackwards(emitted: string, count: int, nbuf: array<char>, start: nat, ghost digits: string)
    returns (out: string, retval: int)
    requires start < nbuf.Length && nbuf[0] == '\0' && Reversed(nbuf[1..start + 1]) == digits && |digits| == start
    requires forall i :: 0 <= i < |digits| ==> digits[i] != '\0'
    ensures out == emitted + digits && retval == count + |digits|
  {
    hide Reversed;
    out, retval := emitted, count;
    var p := start;
    ReversedAt(nbuf[1..start + 1]);
    forall k | 1 <= k <= start ensures nbuf[k] == digits[start - k] { assert nbuf[k] == nbuf[1..start + 1][k - 1]; }
    while nbuf[p] != '\0'
      invariant 0 <= p <= start && out == emitted + digits[..start - p] && retval == count + start - p
      decreases p
    {
      out, retval := out + [nbuf[p]], retval + 1;
      p := p - 1;
    }
    assert digits[..start] == digits;
  }
}
