/** What the operations on roots do: CreateNew, LoadKernelMappings,
    ClearKernelEntries, and what ResolveAddress reads from a typed tree. */
module Roots {
  import opened Basics
  import opened Layout
  import opened PagePool
  import opened Tables
  import opened Tree
  import opened Mapping

  // ----- CreateNew -----

  function AddRoot(info: seq<Info>, c: nat): (info': seq<Info>)
    requires c < |info|
    ensures |info'| == |info|
  {
    info[c := Node(4, 0, 0)]
  }

  /** s with page c taken from the pool and made a root. */
  ghost predicate Created(s: Pool, info: seq<Info>, t: Pool, c: nat) {
    && Typed(s, info) && 1 <= c < s.count && !s.index[c] && t == s.(index := s.index[c := true])
  }

  lemma CreatedTyped(s: Pool, info: seq<Info>, t: Pool, c: nat)
    requires Created(s, info, t, c)
    ensures Typed(t, AddRoot(info, c)) && info[c].Free?
    ensures forall q, i :: 0 <= q < s.count && 0 <= i < 512 ==> Entry(t, q, i) == Entry(s, q, i)
    ensures forall q, i :: 0 <= q < s.count && 0 <= i < 512 ==> Child(t, q, i) == Child(s, q, i)
  {
    var info' := AddRoot(info, c);
    assert forall q, i :: 0 <= q < s.count && 0 <= i < 512 ==> Entry(t, q, i) == Entry(s, q, i);
    forall q, i | 0 <= q < s.count && info'[q].Node? && info'[q].level >= 2 && 0 <= i < 512
      ensures Linked(t, info', q, i)
    {
      if q == c { assert Entry(s, c, i) == 0; } else { assert Linked(s, info, q, i); }
    }
  }

  lemma {:induction false} SameEntriesTable(s: Pool, t: Pool, r: nat, w: nat, k: nat)
    requires t.count == s.count && r < s.count && 1 <= k <= 4
    requires forall q, i :: 0 <= q < s.count && 0 <= i < 512 ==> Child(t, q, i) == Child(s, q, i)
    ensures Table(t, r, w, k) == Table(s, r, w, k)
    decreases 4 - k
  {
    if k < 4 { SameEntriesTable(s, t, r, w, k + 1); }
  }

  /** A new root maps nothing and leaves the other roots as they were. */
  lemma CreatedEffect(s: Pool, info: seq<Info>, t: Pool, c: nat)
    requires Created(s, info, t, c)
    ensures Typed(t, AddRoot(info, c))
    ensures Owned(s, info) ==> Owned(t, AddRoot(info, c))
    ensures Exclusive(s, info) ==> Exclusive(t, AddRoot(info, c))
    ensures UserBits(s, info) ==> UserBits(t, AddRoot(info, c))
    ensures forall w: nat :: Lookup(t, c, w) == None
    ensures forall b, w: nat :: IsRoot(info, b) ==> Lookup(t, b, w) == Lookup(s, b, w)
  {
    hide Owned, Exclusive, UserBits, Lookup, Table, Entry, Child, Linked, Index;
    CreatedTyped(s, info, t, c);
    CreatedLookup(s, info, t, c);
    CreatedOwned(s, info, t, c);
    if UserBits(s, info) { CreatedUserBits(s, info, t, c); }
  }

  lemma CreatedLookup(s: Pool, info: seq<Info>, t: Pool, c: nat)
    requires Created(s, info, t, c)
    ensures forall w: nat :: Lookup(t, c, w) == None
    ensures forall b, w: nat :: IsRoot(info, b) ==> Lookup(t, b, w) == Lookup(s, b, w)
  {
    hide Index, Linked, Entry, Child;
    CreatedTyped(s, info, t, c);
    FreeIsEmpty(s, info, c);
    forall r, w: nat, k | 0 <= r < s.count && 1 <= k <= 4 ensures Table(t, r, w, k) == Table(s, r, w, k) {
      SameEntriesTable(s, t, r, w, k);
    }
    forall w: nat, k | 1 <= k <= 3 ensures Table(t, c, w, k).None? {
      assert Child(s, c, Index(w, 4)).None?;
      MissingBelow(t, c, w, 3, k);
    }
  }

  lemma CreatedOwned(s: Pool, info: seq<Info>, t: Pool, c: nat)
    requires Created(s, info, t, c) && Typed(t, AddRoot(info, c))
    ensures Owned(s, info) ==> Owned(t, AddRoot(info, c))
    ensures Exclusive(s, info) ==> Exclusive(t, AddRoot(info, c))
  {
    hide Index, Linked, Entry, Child;
    CreatedTyped(s, info, t, c);
    FreeIsEmpty(s, info, c);
  }

  lemma FreeIsEmpty(s: Pool, info: seq<Info>, c: nat)
    requires Typed(s, info) && 1 <= c < s.count && info[c].Free?
    ensures forall i :: 0 <= i < 512 ==> Child(s, c, i).None?
  {
    hide Linked;
    assert forall i :: 0 <= i < 512 ==> Entry(s, c, i) == 0;
  }

  lemma CreatedUserBits(s: Pool, info: seq<Info>, t: Pool, c: nat)
    requires Created(s, info, t, c) && UserBits(s, info)
    requires Known(t, AddRoot(info, c))
    ensures UserBits(t, AddRoot(info, c))
  {
    CreatedTyped(s, info, t, c);
    forall b, w: nat, k | IsRoot(AddRoot(info, c), b) && 1 <= k <= 4 ensures UserBit(t, b, w, k) {
      SameEntriesTable(s, t, b, w, k);
      if b == c {
        assert Entry(s, c, Index(w, 4)) == 0;
        if k < 4 { MissingBelow(t, c, w, 3, k); }
      } else {
        assert UserBit(s, b, w, k);
      }
    }
  }

  // ----- Overwriting the upper half of a root -----

  /** t is s with the upper half of root d replaced by that of root c, or by zeroes. */
  ghost predicate UpperReplaced(s: Pool, t: Pool, d: nat, c: nat, clear: bool)
  {
    && d < s.count && c < s.count && t.base == s.base && t.count == s.count && t.index == s.index
    && forall q, i :: 0 <= q < s.count && 0 <= i < 512 ==>
         Entry(t, q, i) == if q == d && i >= 256 then (if clear then 0 else Entry(s, c, i)) else Entry(s, q, i)
  }

  lemma UpperChild(s: Pool, t: Pool, d: nat, c: nat, clear: bool, q: nat, i: nat)
    requires UpperReplaced(s, t, d, c, clear) && q < s.count && i < 512
    ensures Child(t, q, i) == if q == d && i >= 256 then (if clear then None else Child(s, c, i)) else Child(s, q, i)
  {
  }

  lemma UpperTyped(s: Pool, info: seq<Info>, t: Pool, d: nat, c: nat, clear: bool)
    requires Typed(s, info) && IsRoot(info, d) && IsRoot(info, c) && UpperReplaced(s, t, d, c, clear)
    ensures Typed(t, info)
  {
    forall q, i | 0 <= q < s.count && info[q].Node? && info[q].level >= 2 && 0 <= i < 512
      ensures Linked(t, info, q, i)
    {
      UpperChild(s, t, d, c, clear, q, i);
      assert Linked(s, info, q, i) && Linked(s, info, c, i);
    }
  }

  /** The walk of w starts in root d; after the replacement it is the walk
      from c in the upper half. */
  function Source(d: nat, c: nat, b: nat, w: nat): nat { if b == d && Index(w, 4) >= 256 then c else b }

  lemma {:induction false} UpperTable(s: Pool, info: seq<Info>, t: Pool, d: nat, c: nat, clear: bool, b: nat, w: nat,
                                      k: nat)
    requires Typed(s, info) && IsRoot(info, d) && IsRoot(info, c) && IsRoot(info, b)
             && UpperReplaced(s, t, d, c, clear) && 1 <= k <= 3
    ensures Table(t, b, w, k) ==
            if clear && b == d && Index(w, 4) >= 256 then None else Table(s, Source(d, c, b, w), w, k)
    decreases 4 - k
  {
    hide Index, Entry, Child, Linked, Typed, Table, UpperReplaced;
    TypedCount(s, info);
    SameCount(s, t, d, c, clear);
    var r := Source(d, c, b, w);
    Below(t, b, w, k);
    Below(s, r, w, k);
    TopIsRoot(t, b, w);
    TopIsRoot(s, r, w);
    if k == 3 {
      UpperChild(s, t, d, c, clear, b, Index(w, 4));
    } else {
      UpperTable(s, info, t, d, c, clear, b, w, k + 1);
      TableTyped(s, info, r, w, k + 1);
      if Table(s, r, w, k + 1).Some? {
        UpperChild(s, t, d, c, clear, Table(s, r, w, k + 1).value, Index(w, k + 1));
      }
    }
  }

  lemma SameCount(s: Pool, t: Pool, d: nat, c: nat, clear: bool)
    requires UpperReplaced(s, t, d, c, clear)
    ensures t.count == s.count && t.base == s.base
  {
    hide Entry;
  }

  /** LoadKernelMappings makes d map the upper half as c does; ClearKernelEntries
      unmaps it; neither touches d's lower half or another root. */
  lemma UpperEffect(s: Pool, info: seq<Info>, t: Pool, d: nat, c: nat, clear: bool, b: nat, w: nat)
    requires Typed(s, info) && IsRoot(info, d) && IsRoot(info, c) && IsRoot(info, b) && UpperReplaced(s, t, d, c, clear)
    ensures Lookup(t, b, w) ==
            if clear && b == d && Index(w, 4) >= 256 then None else Lookup(s, Source(d, c, b, w), w)
  {
    UpperTable(s, info, t, d, c, clear, b, w, 1);
    TableTyped(s, info, Source(d, c, b, w), w, 1);
  }

  lemma UpperUserBits(s: Pool, info: seq<Info>, t: Pool, d: nat, c: nat, clear: bool)
    requires Typed(s, info) && IsRoot(info, d) && IsRoot(info, c) && UpperReplaced(s, t, d, c, clear)
    requires UserBits(s, info)
    ensures Known(t, info) && UserBits(t, info)
  {
    forall b, w: nat, k | IsRoot(info, b) && 1 <= k <= 4 ensures UserBit(t, b, w, k) {
      var r := Source(d, c, b, w);
      assert UserBit(s, r, w, k);
      if k < 4 {
        UpperTable(s, info, t, d, c, clear, b, w, k);
        TableTyped(s, info, r, w, k);
      }
    }
  }

  /** The upper half of a root is empty. */
  ghost predicate UpperEmpty(s: Pool, d: nat)
    requires d < s.count
  {
    forall i :: 256 <= i < 512 ==> Entry(s, d, i) == 0
  }

  /** Loading the kernel mappings into an empty upper half loses no table. */
  lemma LoadOwned(s: Pool, info: seq<Info>, t: Pool, d: nat, c: nat)
    requires Typed(s, info) && Owned(s, info) && IsRoot(info, d) && IsRoot(info, c)
    requires UpperReplaced(s, t, d, c, false) && UpperEmpty(s, d)
    ensures Known(t, info) && Owned(t, info)
  {
    forall e | 0 <= e < s.count && info[e].Node? && info[e].level < 4
      ensures Child(t, info[e].up, info[e].slot) == Some(e)
    {
      UpperChild(s, t, d, c, false, info[e].up, info[e].slot);
    }
  }

  // ----- ResolveAddress -----

  /** ResolveAddress on a typed tree: a mapped page resolves to its frame plus
      the offset, a page without a level 1 table leaves the pool, and an unused
      entry of an existing level 1 table resolves to the bare offset. */
  lemma {:induction false} ResolveReads(s: Pool, info: seq<Info>, r: nat, va: Word)
    requires Typed(s, info) && IsRoot(info, r)
    ensures Resolve(s, PageAddress(s, r), va) ==
            match Lookup(s, r, Slot(va))
            case Some(f) => Some(f * 4096 + va % 4096)
            case None => if Table(s, r, Slot(va), 1).Some? then Some(va % 4096) else None
  {
    var v := Slot(va);
    PageAddressFrame(s, r);
    WalkUnfolds(s, r, v);
    TableTyped(s, info, r, v, 3);
    TableTyped(s, info, r, v, 2);
    assert Linked(s, info, r, Index(v, 4));
    ZeroIsForeign(s);
    if Table(s, r, v, 3).Some? {
      assert Linked(s, info, Table(s, r, v, 3).value, Index(v, 3));
      if Table(s, r, v, 2).Some? { assert Linked(s, info, Table(s, r, v, 2).value, Index(v, 2)); }
    }
  }

  /** A level 2 entry with the page-size bit maps two megabytes: the address has
      the entry's bits from 21 on and the lower ones of the virtual address. */
  lemma {:induction false} ResolveLarge(s: Pool, r: nat, va: Word, j: nat)
    requires 1 <= r < s.count && Table(s, r, Slot(va), 2).Some?
    requires Bit(Entry(s, Table(s, r, Slot(va), 2).value, Index(Slot(va), 2)), 7)
    ensures var e, x := Entry(s, Table(s, r, Slot(va), 2).value, Index(Slot(va), 2)),
                        Resolve(s, PageAddress(s, r), va);
            x.Some? && x.value >= 0 && Bit(x.value, j) == if j < 21 then Bit(va, j) else Bit(e, j)
  {
    var v := Slot(va);
    PageAddressFrame(s, r);
    WalkUnfolds(s, r, v);
    var e := Entry(s, Table(s, r, v, 2).value, Index(v, 2));
    SizeBit(e);
    assert Resolve(s, PageAddress(s, r), va) == Some(e / 0x20_0000 * 0x20_0000 + va % 0x20_0000);
    hide *;
    TwoMegabytes(e, va, j);
  }

  lemma {:induction false} SizeBit(e: Word)
    ensures Bit(e, 7) == Large(e)
  {
    assert Power2(7) == 128 by { SmallPowers(); }
    Joined(e, e / 128, e % 128, 7, 7);
  }

  lemma {:induction false} TwoMegabytes(e: Word, va: Word, j: nat)
    ensures var x := e / 0x20_0000 * 0x20_0000 + va % 0x20_0000;
            x >= 0 && Bit(x, j) == if j < 21 then Bit(va, j) else Bit(e, j)
  {
    assert Power2(21) == 0x20_0000 by { LargePower(); }
    hide Power2, Bit;
    var f := e / 0x20_0000;
    Joined(f * 0x20_0000 + va % 0x20_0000, f, va % 0x20_0000, 21, j);
    Joined(e, f, e % 0x20_0000, 21, j);
    Joined(va, va / 0x20_0000, va % 0x20_0000, 21, j);
  }

  lemma {:induction false} LargePower()
    ensures Power2(21) == 0x20_0000
  {
    SmallPowers();
    assert Power2(14) == 2 * Power2(13) && Power2(13) == 2 * Power2(12) && Power2(16) == 2 * Power2(15);
    assert Power2(15) == 2 * Power2(14) && Power2(18) == 2 * Power2(17) && Power2(17) == 2 * Power2(16);
    assert Power2(20) == 2 * Power2(19) && Power2(19) == 2 * Power2(18) && Power2(21) == 2 * Power2(20);
  }

  lemma ZeroIsForeign(s: Pool)
    ensures PageOf(s, 0) <= 0 && !Large(0)
  {
  }

  lemma {:induction false} WalkUnfolds(s: Pool, r: nat, v: nat)
    requires r < s.count
    ensures Table(s, r, v, 3) == Child(s, r, Index(v, 4))
    ensures Table(s, r, v, 2) ==
            if Table(s, r, v, 3).None? then None else Child(s, Table(s, r, v, 3).value, Index(v, 3))
    ensures Table(s, r, v, 1) ==
            if Table(s, r, v, 2).None? then None else Child(s, Table(s, r, v, 2).value, Index(v, 2))
  {
  }
}
