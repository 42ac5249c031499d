/** The guarantees of the page tables, over every run from a cleared pool. */
module PageTheorems {
  import opened Basics
  import opened Layout
  import opened PagePool
  import opened Tables
  import opened Tree
  import opened Mapping
  import opened Ranges
  import opened Entries
  import opened Roots
  import opened Runs

  /** The configurations a run of CreateNew, LoadKernelMappings and MapPages
      reaches from an initialized pool whose pages were zero. */
  ghost predicate Reached(s: Pool, ops: seq<Op>, c: Config) {
    Zeroed(s) && Execute(Config(Initialize(s), {}), ops) == Done(c)
  }

  lemma ReachedShape(s: Pool, ops: seq<Op>, c: Config) returns (info: seq<Info>)
    requires Reached(s, ops, c)
    ensures Shape(c, info)
    ensures Kept(Config(Initialize(s), {}), c)
    ensures (forall op :: op in ops ==> !op.Spawn?) ==> Exclusive(c.pool, info)
    ensures (forall op :: op in ops ==> OpInItsHalf(op)) ==> UserBits(c.pool, info)
  {
    StartShape(s);
    info := ExecuteRun(Config(Initialize(s), {}), seq(s.count, _ => Free), ops);
  }

  /** Every configuration a run reaches meets the precondition of the theorems below. */
  lemma ReachedIsWellFormed(s: Pool, ops: seq<Op>, c: Config)
    requires Reached(s, ops, c)
    ensures WellFormed(c) && c.pool.count == s.count && c.pool.base == s.base
  {
    var info := ReachedShape(s, ops, c);
  }

  // ----- Which pages are tables -----

  ghost predicate IsTable(c: Config, q: nat, level: nat) {
    1 <= level <= 4 && exists r, w: nat :: r in c.roots && r < c.pool.count && Table(c.pool, r, w, level) == Some(q)
  }

  /** In every run the pages marked allocated are exactly the tables reachable
      from the roots, and the index page is never written as a table. */
  lemma AllocatedIsReachable(s: Pool, ops: seq<Op>, c: Config)
    requires Reached(s, ops, c)
    ensures forall q :: 1 <= q < c.pool.count ==> (c.pool.index[q] <==> exists level :: IsTable(c, q, level))
    ensures c.pool.count == s.count && forall i :: 0 <= i < 512 ==> Entry(c.pool, 0, i) == Entry(s, 0, i)
  {
    var info := ReachedShape(s, ops, c);
    forall q | 1 <= q < c.pool.count ensures c.pool.index[q] <==> exists level :: IsTable(c, q, level) {
      if c.pool.index[q] { OwnedIsReachable(c, info, q); }
      if level, r, w: nat :| && IsTable(c, q, level) && r in c.roots && r < c.pool.count
                             && Table(c.pool, r, w, level) == Some(q) {
        TableTyped(c.pool, info, r, w, level);
      }
    }
    forall i | 0 <= i < 512 ensures Entry(c.pool, 0, i) == Entry(s, 0, i) {
      assert Entry(Initialize(s), 0, i) == Entry(s, 0, i);
    }
  }

  /** The walk to an owned page: the slots of its ancestors spell a virtual page number. */
  lemma OwnedIsReachable(c: Config, info: seq<Info>, q: nat)
    requires Shape(c, info) && 1 <= q < c.pool.count && info[q].Node?
    ensures IsTable(c, q, info[q].level)
  {
    var s := c.pool;
    var l := info[q].level;
    var q1 := q;
    var i2 := if l == 1 then info[q1].slot else 0;
    var q2 := if l == 1 then info[q1].up else q;
    var i3 := if l <= 2 then info[q2].slot else 0;
    var q3 := if l <= 2 then info[q2].up else q;
    var i4 := if l <= 3 then info[q3].slot else 0;
    var r := if l <= 3 then info[q3].up else q;
    var w := Compose(i4, i3, i2, 0);
    assert IsRoot(info, r);
    WalkUnfolds(s, r, w);
    assert Table(s, r, w, 4) == Some(r);
    assert Table(s, r, w, l) == Some(q);
  }

  /** No table is seen at two levels, at two positions, or, unless a process
      copied the kernel's top entries, through two entries; tables below the
      top level never are. */
  lemma OneReference(s: Pool, ops: seq<Op>, c: Config, r: nat, v: nat, r': nat, v': nat, level: nat, level': nat)
    requires Reached(s, ops, c) && {r, r'} <= c.roots && r < c.pool.count && r' < c.pool.count
    requires 1 <= level <= 4 && 1 <= level' <= 4
    requires Table(c.pool, r, v, level).Some? && Table(c.pool, r, v, level) == Table(c.pool, r', v', level')
    ensures level == level'
    ensures forall k :: level < k <= 4 ==> Index(v, k) == Index(v', k)
    ensures level < 3 ==> Table(c.pool, r, v, level + 1) == Table(c.pool, r', v', level + 1)
    ensures level == 4 || (forall op :: op in ops ==> !op.Spawn?) || Index(v, 4) < 256 ==> r == r'
  {
    hide Execute, Zeroed, Owned, Index, Linked;
    var info := ReachedShape(s, ops, c);
    assert r in c.roots && r' in c.roots;
    assert IsRoot(info, r) && IsRoot(info, r');
    TableTyped(c.pool, info, r, v, level);
    TableTyped(c.pool, info, r', v', level');
    if level < 4 {
      SamePosition(c.pool, info, r, v, r', v', level);
      if forall op :: op in ops ==> !op.Spawn? {
        TopTable(c.pool, r, v, level);
        TopTable(c.pool, r', v', level);
        assert Child(c.pool, r, Index(v, 4)) == Child(c.pool, r', Index(v', 4));
      }
    }
  }

  lemma {:induction false} TopTable(s: Pool, r: nat, v: nat, level: nat)
    requires r < s.count && 1 <= level <= 3 && Table(s, r, v, level).Some?
    ensures Table(s, r, v, 3).Some? && Table(s, r, v, 3) == Child(s, r, Index(v, 4))
  {
    WalkUnfolds(s, r, v);
  }

  // ----- What MapPages maps -----

  /** The range lies inside one half of the canonical addresses. */
  predicate RangeCanonical(va: Word, n: nat) {
    va + n * 4096 <= 0x8000_0000_0000 || (0xFFFF_8000_0000_0000 <= va && va + n * 4096 <= WORDS)
  }

  /** The slots of a list of pages are the ones it names, each with its frame
      if none is named twice. */
  lemma {:induction false} RangeOf(pages: seq<(Word, Word)>)
    ensures forall w :: w in Range(pages) ==> exists i :: 0 <= i < |pages| && w == Slot(pages[i].0)
    ensures (forall i, j :: 0 <= i < j < |pages| ==> Slot(pages[i].0) != Slot(pages[j].0)) ==>
              forall i :: 0 <= i < |pages| ==>
                  Slot(pages[i].0) in Range(pages) && Range(pages)[Slot(pages[i].0)] == Frame(pages[i].1)
    decreases |pages|
  {
    hide Slot, Frame;
    if |pages| > 0 {
      var n := |pages| - 1;
      RangeOf(pages[..n]);
      forall w | w in Range(pages) ensures exists i :: 0 <= i < |pages| && w == Slot(pages[i].0) {
        if w in Range(pages[..n]) {
          var i :| 0 <= i < n && w == Slot(pages[..n][i].0);
          assert w == Slot(pages[i].0);
        } else {
          assert w == Slot(pages[n].0);
        }
      }
    }
  }

  /** A range of at most 2^36 pages meets no slot twice. */
  lemma {:induction false} RangeContents(va: Word, pa: Word, n: nat)
    requires n <= SLOTS
    ensures var range := Range(Pages(va, pa, n));
            && (forall i :: 0 <= i < n ==>
                  Slot(Advance(va, i)) in range && range[Slot(Advance(va, i))] == Frame(Advance(pa, i)))
            && (forall w :: w in range ==> exists i :: 0 <= i < n && w == Slot(Advance(va, i)))
  {
    hide Slot, Advance, Frame;
    var pages := Pages(va, pa, n);
    RangeOf(pages);
    forall i, j | 0 <= i < j < n ensures Slot(pages[i].0) != Slot(pages[j].0) {
      AdvanceDistinct(va, i, j);
    }
    forall w | w in Range(pages) ensures exists i :: 0 <= i < n && w == Slot(Advance(va, i)) {
      var i :| 0 <= i < n && w == Slot(pages[i].0);
    }
    forall i | 0 <= i < n
      ensures Slot(Advance(va, i)) in Range(pages) && Range(pages)[Slot(Advance(va, i))] == Frame(Advance(pa, i))
    {
      assert pages[i] == (Advance(va, i), Advance(pa, i));
    }
  }

  lemma AdvanceDistinct(va: Word, i: nat, j: nat)
    requires i < j < i + SLOTS
    ensures Slot(Advance(va, i)) != Slot(Advance(va, j))
  {
    AdvanceSlot(va, i);
    AdvanceSlot(va, j);
    DistinctSlots(va / 4096 + i, va / 4096 + j);
  }

  lemma DistinctSlots(x: nat, y: nat)
    requires x < y < x + SLOTS
    ensures x % SLOTS != y % SLOTS
  {
  }

  lemma AdvanceZero(a: Word)
    ensures Advance(a, 0) == a
  {
  }

  /** Byte d of an aligned range lies in page d / 4096 of it. */
  lemma ByteOfRange(va: Word, n: nat, d: nat)
    requires va % 4096 == 0 && va + n * 4096 <= WORDS && d < n * 4096
    ensures Advance(va, d / 4096) == va + d / 4096 * 4096 && va + d < WORDS
    ensures Slot(va + d) == Slot(Advance(va, d / 4096)) && (va + d) % 4096 == d % 4096
    ensures Frame(Advance(va, d / 4096)) * 4096 + d % 4096 == va + d
  {
    var i, k := d / 4096, d % 4096;
    DivMod(va + d, 4096, va / 4096 + i, k);
    DivMod(va + i * 4096, 4096, va / 4096 + i, 0);
  }

  /** The abstract map of any root after MapPages through root r. */
  lemma MapPagesLookup(c: Config, r: nat, va: Word, pa: Word, n: nat, global: bool, t: Pool)
    returns (info: seq<Info>, info': seq<Info>)
    requires WellFormed(c) && r in c.roots && r < c.pool.count
    requires MapPages(c.pool, PageAddress(c.pool, r), va, pa, n, global) == Done(t)
    ensures t.count == c.pool.count && Typed(c.pool, info) && Typed(t, info')
    ensures forall b :: b in c.roots ==> IsRoot(info, b) && IsRoot(info', b)
    ensures forall b, w :: b in c.roots && 0 <= b < t.count && 0 <= w < SLOTS ==>
              Lookup(t, b, w) == Overlay(c.pool, r, b, w, Range(Pages(va, pa, n)))
  {
    info :| Shape(c, info);
    info' := MapAllEffect(c.pool, info, r, Pages(va, pa, n), global);
  }

  /** MapPages makes every byte of an aligned range resolve to the same byte of
      the physical range. */
  lemma MapPagesResolves(c: Config, r: nat, va: Word, pa: Word, n: nat, global: bool, t: Pool, d: nat)
    requires WellFormed(c) && r in c.roots && r < c.pool.count
    requires MapPages(c.pool, PageAddress(c.pool, r), va, pa, n, global) == Done(t)
    requires va % 4096 == 0 && pa % 4096 == 0 && va + n * 4096 <= WORDS && pa + n * 4096 <= WORDS && n <= SLOTS
    requires d < n * 4096
    ensures va + d < WORDS && Resolve(t, PageAddress(t, r), va + d) == Some(pa + d)
  {
    hide MapPages, Slot, Advance, Frame, Typed, Resolve, Table, Lookup, Range, Pages, PageAddress;
    ByteOfRange(va, n, d);
    ByteOfRange(pa, n, d);
    var i := d / 4096;
    assert i < n;
    MapPagesByte(c, r, va, pa, n, global, t, i, va + d);
  }

  lemma MapPagesByte(c: Config, r: nat, va: Word, pa: Word, n: nat, global: bool, t: Pool, i: nat, x: Word)
    requires WellFormed(c) && r in c.roots && r < c.pool.count && i < n <= SLOTS
    requires MapPages(c.pool, PageAddress(c.pool, r), va, pa, n, global) == Done(t)
    requires Slot(x) == Slot(Advance(va, i))
    ensures Lookup(t, r, Slot(x)) == Some(Frame(Advance(pa, i)))
    ensures Resolve(t, PageAddress(t, r), x) == Some(Frame(Advance(pa, i)) * 4096 + x % 4096)
  {
    hide MapPages, Slot, Advance, Frame, Typed, Resolve, Table, Lookup, Pages;
    var info, info' := MapPagesLookup(c, r, va, pa, n, global, t);
    RangeContents(va, pa, n);
    assert Lookup(t, r, Slot(x)) == Overlay(c.pool, r, r, Slot(x), Range(Pages(va, pa, n)));
    ResolveReads(t, info', r, x);
  }

  /** Canonical addresses outside a canonical range are outside its slots. */
  lemma OutsideRange(va: Word, n: nat, x: Word, i: nat)
    requires RangeCanonical(va, n) && va % 4096 == 0 && Canonical(x) && !(va <= x < va + n * 4096) && i < n
    ensures Slot(x) != Slot(Advance(va, i))
  {
    AdvanceSlot(va, i);
    var a, b := va / 4096 + i, x / 4096;
    assert x == b * 4096 + x % 4096 && va == va / 4096 * 4096;
    assert a != b;
    CanonicalPage(va, n, i);
    CanonicalPages(a, b);
  }

  lemma CanonicalPage(va: Word, n: nat, i: nat)
    requires RangeCanonical(va, n) && va % 4096 == 0 && i < n
    ensures var a := va / 4096 + i; a < 0x8_0000_0000 || 0xF_FFF8_0000_0000 <= a < 0x10_0000_0000_0000
  {
  }

  lemma CanonicalPages(a: nat, b: nat)
    requires a != b
    requires a < 0x8_0000_0000 || 0xF_FFF8_0000_0000 <= a < 0x10_0000_0000_0000
    requires b < 0x8_0000_0000 || 0xF_FFF8_0000_0000 <= b < 0x10_0000_0000_0000
    ensures a % SLOTS != b % SLOTS
  {
    CanonicalReduced(a);
    CanonicalReduced(b);
  }

  lemma CanonicalReduced(a: nat)
    requires a < 0x8_0000_0000 || 0xF_FFF8_0000_0000 <= a < 0x10_0000_0000_0000
    ensures a % SLOTS == if a < 0x8_0000_0000 then a else a - 0xF_FFF0_0000_0000
  {
    if a < 0x8_0000_0000 {
      DivMod(a, SLOTS, 0, a);
    } else {
      DivMod(a, SLOTS, 0xFFFF, a - 0xF_FFF0_0000_0000);
    }
  }

  /** Every other canonical address, in every root, maps what it mapped: nothing
      is lost and nothing else becomes mapped. */
  lemma MapPagesFrame(c: Config, r: nat, va: Word, pa: Word, n: nat, global: bool, t: Pool, b: nat, x: Word)
    requires WellFormed(c) && r in c.roots && r < c.pool.count && b in c.roots && b < c.pool.count
    requires MapPages(c.pool, PageAddress(c.pool, r), va, pa, n, global) == Done(t)
    requires RangeCanonical(va, n) && va % 4096 == 0 && Canonical(x) && !(va <= x < va + n * 4096)
    ensures Lookup(t, b, Slot(x)) == Lookup(c.pool, b, Slot(x))
    ensures Lookup(c.pool, b, Slot(x)).Some? ==>
            Resolve(t, PageAddress(t, b), x) == Resolve(c.pool, PageAddress(c.pool, b), x)
  {
    hide MapPages, Slot, Advance, Frame, Typed, Resolve, Table, Lookup, RangeCanonical, Canonical, PageAddress,
         WellFormed;
    var info, info' := MapPagesLookup(c, r, va, pa, n, global, t);
    NotInRange(va, pa, n, x);
    assert Lookup(t, b, Slot(x)) == Overlay(c.pool, r, b, Slot(x), Range(Pages(va, pa, n)));
    ResolveReads(c.pool, info, b, x);
    ResolveReads(t, info', b, x);
  }

  lemma {:induction false} NotInRange(va: Word, pa: Word, n: nat, x: Word)
    requires RangeCanonical(va, n) && va % 4096 == 0 && Canonical(x) && !(va <= x < va + n * 4096)
    ensures Slot(x) !in Range(Pages(va, pa, n))
  {
    CanonicalRangeFits(va, n);
    hide Slot, Advance, Frame, RangeCanonical, Canonical;
    RangeContents(va, pa, n);
    if Slot(x) in Range(Pages(va, pa, n)) {
      var i :| 0 <= i < n && Slot(x) == Slot(Advance(va, i));
      OutsideRange(va, n, x, i);
      assert false;
    }
  }

  lemma CanonicalRangeFits(va: Word, n: nat)
    requires RangeCanonical(va, n)
    ensures n <= SLOTS
  {
  }

  /** MapPages of n pages takes at most one table more per level than the range
      fills, so with that many free pages it succeeds. */
  lemma MapPagesWithinBudget(c: Config, r: nat, va: Word, pa: Word, n: nat, global: bool)
    requires WellFormed(c) && r in c.roots && r < c.pool.count
    requires FreePages(c.pool) >= PageBudget(n)
    ensures var o := MapPages(c.pool, PageAddress(c.pool, r), va, pa, n, global);
            o.Done? && FreePages(o.value) >= FreePages(c.pool) - PageBudget(n)
  {
    hide PageBudget, Spans, Linked, Owned;
    var info :| Shape(c, info);
    SpansBound(va / 4096, n);
    assert IsRoot(info, r) && r >= 1;
    PageAddressFrame(c.pool, r);
    MapPagesCost(c.pool, info, r, va, pa, n, global);
  }

  // ----- The words written -----

  /** Page i of the range is the last one for its slot, as every page is of a
      range of at most 2^36. */
  ghost predicate LastAt(va: Word, n: nat, i: nat, w: nat) {
    i < n && w == Slot(Advance(va, i)) && forall j :: i < j < n ==> Slot(Advance(va, j)) != w
  }

  lemma {:induction false} LastForPages(va: Word, pa: Word, n: nat, i: nat, w: nat)
    requires LastAt(va, n, i, w)
    ensures LastFor(Pages(va, pa, n), w) == Some(Advance(pa, i))
    decreases n
  {
    hide Slot, Advance;
    PagesPrefix(va, pa, n - 1, n);
    if i < n - 1 { LastForPages(va, pa, n - 1, i, w); }
  }

  lemma {:induction false} LastForNone(va: Word, pa: Word, n: nat, w: nat)
    requires forall i :: 0 <= i < n ==> Slot(Advance(va, i)) != w
    ensures LastFor(Pages(va, pa, n), w) == None
    decreases n
  {
    hide Slot, Advance;
    if n > 0 {
      PagesPrefix(va, pa, n - 1, n);
      LastForNone(va, pa, n - 1, w);
    }
  }

  lemma {:induction false} EveryPageIsLast(va: Word, n: nat, i: nat)
    requires i < n <= SLOTS
    ensures LastAt(va, n, i, Slot(Advance(va, i)))
  {
    hide Slot, Advance;
    forall j | i < j < n ensures Slot(Advance(va, j)) != Slot(Advance(va, i)) { AdvanceDistinct(va, i, j); }
  }

  /** Every bit of every entry MapPages leaves, on every walk of every root. The
      level 1 entry of a slot of the range is present and writable, user or
      global as asked, and otherwise the physical address; the entries above it
      are those that were there, or new ones with the bits of a new table.
      All other level 1 entries are as they were. */
  lemma {:induction false} MapPagesEntries(c: Config, r: nat, va: Word, pa: Word, n: nat, global: bool, t: Pool,
                                           b: nat, w: nat, i: nat)
    requires WellFormed(c) && r in c.roots && r < c.pool.count && b in c.roots && b < c.pool.count && w < SLOTS
    requires MapPages(c.pool, PageAddress(c.pool, r), va, pa, n, global) == Done(t)
    ensures forall k :: 2 <= k <= 4 ==> TablesKept(c.pool, b, w, k, global, t)
    ensures i < n <= SLOTS && w == Slot(Advance(va, i)) ==> LastAt(va, n, i, w)
    ensures LastAt(va, n, i, w) && (b == r || Shares(c.pool, r, b, Index(w, 4))) ==>
              && (forall k :: 2 <= k <= 4 ==> Table(t, b, w, k).Some? && EntryAt(t, b, w, k) != 0)
              && Table(t, b, w, 1).Some?
              && LeafWord(Entry(t, Table(t, b, w, 1).value, Index(w, 1)), Advance(pa, i), global)
    ensures (b != r && !Shares(c.pool, r, b, Index(w, 4))) || (forall j :: 0 <= j < n ==> Slot(Advance(va, j)) != w) ==>
              EntryAt(t, b, w, 1) == EntryAt(c.pool, b, w, 1)
  {
    hide MapPages, Slot, Advance, Typed, Table, Shares, Owned, Index, LeafWord, Pages, MapAll, LastAt;
    var info :| Shape(c, info);
    MapPagesIsAll(c.pool, r, va, pa, n, global);
    MapAllEntries(c.pool, info, r, Pages(va, pa, n), global);
    assert LeafOf(c.pool, r, LastFor(Pages(va, pa, n), w), global, t, b, w);
    if LastAt(va, n, i, w) && (b == r || Shares(c.pool, r, b, Index(w, 4))) {
      LastForPages(va, pa, n, i, w);
      LeafInUse(t, b, w, Advance(pa, i), global);
    }
    if forall j :: 0 <= j < n ==> Slot(Advance(va, j)) != w { LastForNone(va, pa, n, w); }
    if i < n <= SLOTS { EveryPageIsLast(va, n, i); }
  }

  lemma {:induction false} MapPagesIsAll(s: Pool, r: nat, va: Word, pa: Word, n: nat, global: bool)
    requires r < s.count && MapPages(s, PageAddress(s, r), va, pa, n, global).Done?
    ensures MapPages(s, PageAddress(s, r), va, pa, n, global) == MapAll(s, PageAddress(s, r), Pages(va, pa, n), global)
  {
  }

  lemma {:induction false} LeafInUse(t: Pool, b: nat, w: nat, pa: Word, global: bool)
    requires b < t.count && LeafWord(EntryAt(t, b, w, 1), pa, global)
    ensures Table(t, b, w, 1).Some?
    ensures forall k :: 2 <= k <= 4 ==> Table(t, b, w, k).Some? && EntryAt(t, b, w, k) != 0
  {
    hide Index, Entry, Child, PageOf;
    assert Bit(EntryAt(t, b, w, 1), 0);
    MissingAbove(t, b, w);
    Below(t, b, w, 3);
    Below(t, b, w, 2);
    Below(t, b, w, 1);
    TopIsRoot(t, b, w);
  }

  // ----- Sharing between roots -----

  /** Lower-half mappings made through one root never appear through another. */
  lemma LowerHalfIsPrivate(c: Config, r: nat, va: Word, pa: Word, n: nat, global: bool, t: Pool, b: nat, w: nat)
    requires WellFormed(c) && r in c.roots && r < c.pool.count && b in c.roots && b < c.pool.count && b != r
             && w < SLOTS
    requires MapPages(c.pool, PageAddress(c.pool, r), va, pa, n, global) == Done(t)
    requires Index(w, 4) < 256
    ensures Lookup(t, b, w) == Lookup(c.pool, b, w)
  {
    var info, info' := MapPagesLookup(c, r, va, pa, n, global, t);
    assert Linked(c.pool, info, b, Index(w, 4)) && Linked(c.pool, info, r, Index(w, 4));
    assert !Shares(c.pool, r, b, Index(w, 4));
    assert Lookup(t, b, w) == Overlay(c.pool, r, b, w, Range(Pages(va, pa, n)));
  }

  /** Once a process has copied the kernel's top entries, both roots map every
      page under a top entry present at the copy alike, after any later run. */
  lemma {:induction false} KernelMappingsStayShared(c: Config, src: nat, d: Config, later: seq<Op>, e: Config, w: nat)
    requires WellFormed(c) && Apply(c, Spawn(src)) == Done(d) && Execute(d, later) == Done(e)
    requires Index(w, 4) >= 256 && src < c.pool.count && Child(c.pool, src, Index(w, 4)).Some?
    ensures var root := CreateNew(c.pool).value.1;
            && root < e.pool.count && src < e.pool.count
            && Shares(e.pool, src, root, Index(w, 4)) && Lookup(e.pool, root, w) == Lookup(e.pool, src, w)
  {
    var root := CreateNew(c.pool).value.1;
    SpawnShares(c, src, d, Index(w, 4));
    hide Typed, Owned, Execute, Apply, Table, Lookup, Index;
    WalkUnfolds(d.pool, root, w);
    WalkUnfolds(d.pool, src, w);
    RunKeeps(d, later, e);
    assert Table(e.pool, root, w, 3) == Table(d.pool, root, w, 3);
    assert Table(e.pool, src, w, 3) == Table(d.pool, src, w, 3);
    WalkUnfolds(e.pool, root, w);
    WalkUnfolds(e.pool, src, w);
    SameTopSameLookup(e.pool, root, src, w);
  }

  lemma {:induction false} RunKeeps(c: Config, ops: seq<Op>, d: Config)
    requires WellFormed(c) && Execute(c, ops) == Done(d)
    ensures Kept(c, d) && WellFormed(d)
  {
    var info :| Shape(c, info);
    var info' := ExecuteRun(c, info, ops);
  }

  lemma {:induction false} SameTopSameLookup(s: Pool, a: nat, b: nat, w: nat)
    requires a < s.count && b < s.count && Table(s, a, w, 3) == Table(s, b, w, 3)
    ensures Lookup(s, a, w) == Lookup(s, b, w)
  {
    TableCongruence(s, a, w, b, w, 3, 1);
  }

  lemma SpawnShares(c: Config, src: nat, d: Config, i: nat)
    requires WellFormed(c) && Apply(c, Spawn(src)) == Done(d)
    requires 256 <= i < 512 && src < c.pool.count && Child(c.pool, src, i).Some?
    ensures var root := CreateNew(c.pool).value.1;
            && {root, src} <= d.roots && root < d.pool.count && src < d.pool.count
            && WellFormed(d) && Shares(d.pool, src, root, i)
  {
    var info :| Shape(c, info);
    var (t, root) := CreateNew(c.pool).value;
    SpawnStep(c, info, src);
    assert Shape(d, AddRoot(info, root));
    CreatedTyped(c.pool, info, t, root);
    assert src != root;
    UpperChild(t, d.pool, root, src, false, root, i);
    UpperChild(t, d.pool, root, src, false, src, i);
  }

  /** Right after the copy the two roots agree on the whole upper half. */
  lemma SpawnAgrees(c: Config, src: nat, d: Config, w: nat)
    requires WellFormed(c) && Apply(c, Spawn(src)) == Done(d)
    ensures var root := CreateNew(c.pool).value.1;
            && root < d.pool.count && src < d.pool.count
            && (Index(w, 4) >= 256 ==> Lookup(d.pool, root, w) == Lookup(d.pool, src, w))
            && (Index(w, 4) < 256 ==> Lookup(d.pool, root, w) == None)
            && Lookup(d.pool, src, w) == Lookup(c.pool, src, w)
  {
    var info :| Shape(c, info);
    var (t, root) := CreateNew(c.pool).value;
    CreateStep(c, info);
    CreatedEffect(c.pool, info, t, root);
    var info1 := AddRoot(info, root);
    assert IsRoot(info1, src) && src != root;
    UpperEffect(t, info1, d.pool, root, src, false, root, w);
    UpperEffect(t, info1, d.pool, root, src, false, src, w);
  }

  /** A page mapped through r under a top entry that b does not share is
      invisible in b: sharing is exactly what makes it appear. */
  lemma VisibleExactlyWhenShared(c: Config, r: nat, va: Word, pa: Word, global: bool, t: Pool, b: nat)
    requires WellFormed(c) && r in c.roots && r < c.pool.count && b in c.roots && b < c.pool.count && b != r
    requires MapPages(c.pool, PageAddress(c.pool, r), va, pa, 1, global) == Done(t)
    ensures Lookup(t, b, Slot(va)) ==
            if Shares(c.pool, r, b, Index(Slot(va), 4)) then Some(Frame(pa)) else Lookup(c.pool, b, Slot(va))
  {
    AdvanceZero(va);
    AdvanceZero(pa);
    hide MapPages, Slot, Advance, Frame, Typed, Table, Lookup, Shares;
    var info, info' := MapPagesLookup(c, r, va, pa, 1, global, t);
    RangeContents(va, pa, 1);
    assert Lookup(t, b, Slot(va)) == Overlay(c.pool, r, b, Slot(va), Range(Pages(va, pa, 1)));
  }

  // ----- User and supervisor pages -----

  /** The access right of section 4.6 of Intel SDM Vol. 3A: a page is a user
      page when every entry of its walk has the User bit. */
  predicate UserAccess(s: Pool, r: nat, w: nat)
    requires r < s.count && Table(s, r, w, 1).Some?
  {
    UserAt(s, r, w, 4) && UserAt(s, r, w, 3) && UserAt(s, r, w, 2) && UserAt(s, r, w, 1)
  }

  predicate UserAt(s: Pool, r: nat, w: nat, k: nat)
    requires r < s.count && 1 <= k <= 4
  {
    Table(s, r, w, k).Some? && User(Entry(s, Table(s, r, w, k).value, Index(w, k)))
  }

  /** If every range was mapped with the global flag of its half, the mapped
      lower-half pages are user pages and the mapped upper-half pages are not. */
  lemma {:induction false} UserAccessFollowsHalf(s: Pool, ops: seq<Op>, c: Config, r: nat, w: nat)
    requires Reached(s, ops, c) && (forall op :: op in ops ==> OpInItsHalf(op))
    requires r in c.roots && r < c.pool.count && Lookup(c.pool, r, w).Some?
    ensures Table(c.pool, r, w, 1).Some? && (UserAccess(c.pool, r, w) <==> Index(w, 4) < 256)
  {
    hide Typed, Owned, Execute, Zeroed, Table, Lookup;
    var info := ReachedShape(s, ops, c);
    assert IsRoot(info, r);
    forall k | 1 <= k <= 4 ensures Table(c.pool, r, w, k).Some? && UserAt(c.pool, r, w, k) == (Index(w, 4) < 256) {
      MappedWalk(c.pool, r, w, k);
      assert UserBit(c.pool, r, w, k);
    }
  }

  predicate UsedAt(s: Pool, r: nat, w: nat, k: nat)
    requires r < s.count && 1 <= k <= 4
  {
    Table(s, r, w, k).Some? && Entry(s, Table(s, r, w, k).value, Index(w, k)) != 0
  }

  /** The walk of a mapped slot uses an entry at every level. */
  lemma {:induction false} MappedWalk(s: Pool, r: nat, w: nat, k: nat)
    requires r < s.count && 1 <= k <= 4 && Lookup(s, r, w).Some?
    ensures UsedAt(s, r, w, k)
  {
    if k > 1 { MappedWalk(s, r, w, k - 1); }
  }
}
