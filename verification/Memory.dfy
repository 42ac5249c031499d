/** memcpy and memmove of src/core_crt/string.c on one address space. */
module Memory {
  import opened Basics
  import opened Strings

  /** s with n bytes from src put at dst, all other bytes kept. */
  function Moved(s: seq<byte>, dst: nat, src: nat, n: nat): (t: seq<byte>)
    requires dst + n <= |s| && src + n <= |s|
    ensures |t| == |s|
    ensures forall i :: 0 <= i < |s| ==> t[i] == if dst <= i < dst + n then s[src + i - dst] else s[i]
  {
    s[..dst] + s[src..src + n] + s[dst + n..]
  }

  /** Byte i of what memcpy leaves at dst: eight-byte words, each read before it
      is written, then single bytes. Where the destination starts gap bytes
      inside the source, a byte comes from one already copied gap bytes before,
      unless that one is written with the same word. */
  function Copied(s: seq<byte>, dst: nat, src: nat, size: nat, i: nat): byte
    requires dst + size <= |s| && src + size <= |s| && i < size
    decreases i
  {
    if dst <= src || i < dst - src || (i < size / 8 * 8 && i % 8 >= dst - src) then s[src + i]
    else Copied(s, dst, src, size, i - (dst - src))
  }

  /** Nothing outside the destination changes, and a copy whose destination does
      not start inside the source is a move. */
  method MemCpy(a: array<byte>, dst: nat, src: nat, size: nat)
    requires dst + size <= a.Length && src + size <= a.Length
    modifies a
    ensures forall i :: 0 <= i < a.Length && !(dst <= i < dst + size) ==> a[i] == old(a[i])
    ensures forall i :: 0 <= i < size ==> a[dst + i] == Copied(old(a[..]), dst, src, size, i)
    ensures dst <= src || src + size <= dst ==> a[..] == Moved(old(a[..]), dst, src, size)
  {
    hide Copied;
    ghost var was := a[..];
    var done := 0;
    for w := 0 to size / 8
      invariant done == w * 8
      invariant Partly(a[..], was, dst, src, size, done)
    {
      ghost var before := a[..];
      forall k | 0 <= k < 8 { a[dst + done + k] := a[src + done + k]; }
      WordCopied(a[..], before, was, dst, src, size, done);
      done := done + 8;
    }
    for i := 0 to size % 8
      invariant done == size / 8 * 8 + i
      invariant Partly(a[..], was, dst, src, size, done)
    {
      ghost var before := a[..];
      a[dst + done] := a[src + done];
      ByteCopied(a[..], before, was, dst, src, size, done);
      done := done + 1;
    }
    if dst <= src || src + size <= dst { CopiedIsMoved(a[..], was, dst, src, size); }
  }

  lemma {:induction false} CopiedIsMoved(s: seq<byte>, was: seq<byte>, dst: nat, src: nat, size: nat)
    requires Partly(s, was, dst, src, size, size) && (dst <= src || src + size <= dst)
    ensures s == Moved(was, dst, src, size)
  {
    forall i | dst <= i < dst + size ensures s[i] == was[src + i - dst] {
      assert s[dst + (i - dst)] == Copied(was, dst, src, size, i - dst);
    }
  }

  /** The first n bytes are copied and no other byte has changed. */
  ghost predicate Partly(s: seq<byte>, was: seq<byte>, dst: nat, src: nat, size: nat, n: nat) {
    && |s| == |was| && dst + size <= |was| && src + size <= |was| && n <= size
    && (forall i :: 0 <= i < |s| && !(dst <= i < dst + n) ==> s[i] == was[i])
    && (forall i :: 0 <= i < n ==> s[dst + i] == Copied(was, dst, src, size, i))
  }

  lemma {:induction false} WordCopied(s: seq<byte>, before: seq<byte>, was: seq<byte>, dst: nat, src: nat, size: nat,
                                      n: nat)
    requires Partly(before, was, dst, src, size, n) && |s| == |was| && n % 8 == 0 && n + 8 <= size / 8 * 8
    requires forall i :: 0 <= i < |s| && !(dst + n <= i < dst + n + 8) ==> s[i] == before[i]
    requires forall p :: dst + n <= p < dst + n + 8 ==> s[p] == before[p - dst + src]
    ensures Partly(s, was, dst, src, size, n + 8)
  {
    hide Copied;
    forall i | 0 <= i < n + 8 ensures s[dst + i] == Copied(was, dst, src, size, i) {
      if i >= n {
        DivMod(i, 8, n / 8, i - n);
        NextCopied(before, was, dst, src, size, n, i);
      }
    }
  }

  lemma {:induction false} ByteCopied(s: seq<byte>, before: seq<byte>, was: seq<byte>, dst: nat, src: nat, size: nat,
                                      n: nat)
    requires Partly(before, was, dst, src, size, n) && |s| == |was| && size / 8 * 8 <= n < size
    requires s == before[dst + n := before[src + n]]
    ensures Partly(s, was, dst, src, size, n + 1)
  {
    NextCopied(before, was, dst, src, size, n, n);
  }

  /** What the source holds at i, when n bytes are copied and i is in the next word or byte. */
  lemma {:induction false} NextCopied(s: seq<byte>, was: seq<byte>, dst: nat, src: nat, size: nat, n: nat, i: nat)
    requires Partly(s, was, dst, src, size, n) && n <= i < size
    requires if i < size / 8 * 8 then i % 8 == i - n else i == n
    ensures s[src + i] == Copied(was, dst, src, size, i)
  {
    if src < dst {
      var gap := dst - src;
      if i >= gap && i - gap < n { assert s[dst + (i - gap)] == Copied(was, dst, src, size, i - gap); }
    }
  }

  /** A destination eight bytes or more inside the source receives the bytes
      before it over and over. */
  lemma {:induction false} CopiedRepeats(s: seq<byte>, dst: nat, src: nat, size: nat, i: nat)
    requires dst + size <= |s| && src + size <= |s| && i < size && src + 8 <= dst
    ensures Copied(s, dst, src, size, i) == s[src + i % (dst - src)]
    decreases i
  {
    var gap := dst - src;
    SameRemainder(i, gap);
    if i >= gap { CopiedRepeats(s, dst, src, size, i - gap); }
  }

  lemma SameRemainder(i: nat, gap: nat)
    requires gap > 0
    ensures i % gap == if i < gap then i else (i - gap) % gap
  {
    if i < gap {
      DivMod(i, gap, 0, i);
    } else {
      var q, r := (i - gap) / gap, (i - gap) % gap;
      assert i == gap * (q + 1) + r;
      DivMod(i, gap, q + 1, r);
    }
  }

  /** How many bytes the backward loop of memmove copies: its counter is the
      size cast to a 32-bit int, less one. */
  function BackwardCount(size: nat): (n: nat)
    ensures n <= size
    ensures size <= 0x8000_0000 ==> n == size
    ensures n == size ==> size <= 0x8000_0000
  {
    var i := Wrap32(Wrap32(size) - 1);
    BackwardStart(size);
    if i < 0 then 0 else i + 1
  }

  lemma BackwardStart(size: nat)
    ensures var i := Wrap32(Wrap32(size) - 1); var m := size % 0x1_0000_0000;
            i == if m <= 0x8000_0000 then m - 1 else m - 1 - 0x1_0000_0000
  {
    var q, m := size / 0x1_0000_0000, size % 0x1_0000_0000;
    WrapPeriodic(size, q);
    assert Wrap32(m) == if m < 0x8000_0000 then m else m - 0x1_0000_0000;
  }

  /** memmove: for every overlap the destination gets the old source bytes and
      nothing else changes, in full when the destination is below the source
      or the size is at most 2^31. */
  method MemMove(a: array<byte>, dst: nat, src: nat, size: nat)
    requires dst + size <= a.Length && src + size <= a.Length
    modifies a
    ensures a[..] == Moved(old(a[..]), dst, src, if dst < src then size else BackwardCount(size))
  {
    if dst < src {
      MemCpy(a, dst, src, size);
      return;
    }
    hide Wrap32, Moved;
    ghost var was := a[..];
    ghost var n := BackwardCount(size);
    var i := Wrap32(Wrap32(size) - 1);
    if i < 0 { i := -1; }
    while i >= 0
      invariant -1 <= i < n
      invariant Downto(a[..], was, dst, src, i + 1, n)
    {
      ghost var before := a[..];
      a[dst + i] := a[src + i];
      OneDown(a[..], before, was, dst, src, i, n);
      i := i - 1;
    }
    DownIsMoved(a[..], was, dst, src, n);
  }

  /** The bytes from the i-th to the n-th are moved and no other has changed. */
  ghost predicate Downto(s: seq<byte>, was: seq<byte>, dst: nat, src: nat, i: nat, n: nat) {
    && |s| == |was| && src <= dst && dst + n <= |s| && i <= n
    && (forall k :: dst + i <= k < dst + n ==> s[k] == was[src + k - dst])
    && (forall k :: 0 <= k < |s| && !(dst + i <= k < dst + n) ==> s[k] == was[k])
  }

  lemma OneDown(s: seq<byte>, before: seq<byte>, was: seq<byte>, dst: nat, src: nat, i: nat, n: nat)
    requires Downto(before, was, dst, src, i + 1, n) && s == before[dst + i := before[src + i]]
    ensures Downto(s, was, dst, src, i, n)
  {
  }

  lemma DownIsMoved(s: seq<byte>, was: seq<byte>, dst: nat, src: nat, n: nat)
    requires Downto(s, was, dst, src, 0, n)
    ensures s == Moved(was, dst, src, n)
  {
    assert forall k :: 0 <= k < |s| ==> s[k] == Moved(was, dst, src, n)[k];
  }
}
