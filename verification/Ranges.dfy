/** MapPages over a range: what it maps, what it leaves alone and what it costs. */
module Ranges {
  import opened Basics
  import opened Layout
  import opened PagePool
  import opened Tables
  import opened Tree
  import opened Mapping

  /** The slots and frames of a list of pages, later pages winning. */
  function Range(pages: seq<(Word, Word)>): map<nat, nat> {
    if |pages| == 0 then map[]
    else Range(pages[..|pages| - 1])[Slot(pages[|pages| - 1].0) := Frame(pages[|pages| - 1].1)]
  }

  lemma OverlayOneMore(s: Pool, info: seq<Info>, r: nat, range: map<nat, nat>, t: Pool, info': seq<Info>, v: nat,
                       f: nat, u: Pool)
    requires IsRoot(info, r) && |info| == |info'| == s.count == t.count == u.count
    requires forall b :: IsRoot(info, b) <==> IsRoot(info', b)
    requires SharesSame(s, info, t) && RangeMapped(s, info, r, range, t) && PageMapped(t, info', r, v, f, u)
    ensures RangeMapped(s, info, r, range[v := f], u)
  {
    forall b, w | IsRoot(info, b) && 0 <= w < SLOTS
      ensures Lookup(u, b, w) == Overlay(s, r, b, w, range[v := f])
    {
      assert Lookup(u, b, w) == Overlay(t, r, b, w, map[v := f]);
    }
  }

  /** Every page lies in the half the global flag stands for. */
  ghost predicate InItsHalf(pages: seq<(Word, Word)>, global: bool) {
    forall i :: 0 <= i < |pages| ==> (global <==> Index(Slot(pages[i].0), 4) >= 256)
  }

  /** t is s with a range overlaid through root r; under ok the User bits survive. */
  ghost predicate MappedTo(s: Pool, info: seq<Info>, r: nat, range: map<nat, nat>, ok: bool, t: Pool,
                           info': seq<Info>)
  {
    && IsRoot(info, r) && Extends(s, info, t, info')
    && RangeMapped(s, info, r, range, t)
    && (UserBits(s, info) && ok ==> UserBits(t, info'))
  }

  lemma MapOneMore(s: Pool, info: seq<Info>, r: nat, range: map<nat, nat>, ok: bool, t: Pool, info': seq<Info>,
                   va: Word, pa: Word, global: bool)
    returns (info'': seq<Info>)
    requires MappedTo(s, info, r, range, ok, t, info')
    ensures var o := MapPage(t, PageAddress(t, r), va, pa, global);
            var v := Slot(va);
            if Needed(t, r, v) > FreePages(t) then o == Bugcheck
            else
              && o.Done?
              && MappedTo(s, info, r, range[v := Frame(pa)], ok && (global <==> Index(v, 4) >= 256), o.value, info'')
              && FreePages(o.value) == FreePages(t) - Needed(t, r, v)
              && Table(o.value, r, v, 1).Some?
  {
    info'' := MapPageEffect(t, info', r, va, pa, global);
    var o := MapPage(t, PageAddress(t, r), va, pa, global);
    if o.Done? {
      ExtendsTransitive(s, info, t, info', o.value, info'');
      ExtendsShares(s, info, t, info');
      OverlayOneMore(s, info, r, range, t, info', Slot(va), Frame(pa), o.value);
    }
  }

  lemma MapNone(s: Pool, info: seq<Info>, r: nat)
    requires Typed(s, info) && IsRoot(info, r)
    ensures MappedTo(s, info, r, map[], true, s, info)
  {
  }

  /** Mapping a list of pages on a typed tree bugchecks, or overlays them on
      root r and on the roots that share r's top tables, and changes nothing else. */
  lemma {:induction false} MapAllEffect(s: Pool, info: seq<Info>, r: nat, pages: seq<(Word, Word)>, global: bool)
    returns (info': seq<Info>)
    requires Typed(s, info) && IsRoot(info, r)
    ensures var o := MapAll(s, PageAddress(s, r), pages, global);
            o.Bugcheck? || (o.Done? && MappedTo(s, info, r, Range(pages), InItsHalf(pages, global), o.value, info'))
    decreases |pages|
  {
    hide MapPage, Extends, RangeMapped, UserBits;
    info' := info;
    var n := |pages|;
    if n == 0 {
      MapNone(s, info, r);
    } else {
      var init := pages[..n - 1];
      var o := MapAll(s, PageAddress(s, r), init, global);
      var info1 := MapAllEffect(s, info, r, init, global);
      if o.Done? {
        info' := MapOneMore(s, info, r, Range(init), InItsHalf(init, global), o.value, info1, pages[n - 1].0,
            pages[n - 1].1, global);
        assert InItsHalf(pages, global) ==> InItsHalf(init, global);
      }
    }
  }

  // ----- The cost of a range -----

  /** How many tables of a level the first n pages from page number a meet. */
  function Span(a: nat, n: nat, level: nat): nat {
    if n == 0 then 0 else PrefixMonotone(a, a + n - 1, level); Prefix(a + n - 1, level) - Prefix(a, level) + 1
  }

  function Spans(a: nat, n: nat): nat { Span(a, n, 1) + Span(a, n, 2) + Span(a, n, 3) }

  lemma {:induction false} PrefixMonotone(x: nat, y: nat, level: nat)
    requires x <= y
    ensures Prefix(x, level) <= Prefix(y, level)
    ensures y <= x + 1 ==> Prefix(y, level) <= Prefix(x, level) + 1
  {
    if level > 0 { PrefixMonotone(x, y, level - 1); }
  }

  /** Page numbers with a common prefix share the table of that level. */
  lemma {:induction false} SamePrefixSameIndices(x: nat, y: nat, level: nat, k: nat)
    requires level < k <= 4 && Prefix(x, level) == Prefix(y, level)
    ensures Index(x, k) == Index(y, k) && Prefix(x, k - 1) == Prefix(y, k - 1)
    decreases k
  {
    if level < k - 1 { SamePrefixSameIndices(x, y, level, k - 1); }
  }

  lemma {:induction false} SameTable(s: Pool, r: nat, x: nat, y: nat, level: nat)
    requires r < s.count && 1 <= level <= 3 && Prefix(x, level) == Prefix(y, level)
    ensures Table(s, r, x % SLOTS, level) == Table(s, r, y % SLOTS, level)
  {
    SlotPrefixes(x);
    SlotPrefixes(y);
    forall k | level < k <= 4 ensures Index(x % SLOTS, k) == Index(y % SLOTS, k) {
      SamePrefixSameIndices(x, y, level, k);
    }
    TableCongruence(s, r, x % SLOTS, r, y % SLOTS, 4, level);
  }

  /** After the page before it, a page misses a table only where a new one begins. */
  lemma NeededAfter(s: Pool, r: nat, a: nat, n: nat)
    requires r < s.count && n >= 1 && Table(s, r, (a + n - 1) % SLOTS, 1).Some?
    ensures Needed(s, r, (a + n) % SLOTS) <= Spans(a, n + 1) - Spans(a, n)
  {
    hide Prefix, Index, Table;
    MissingAbove(s, r, (a + n - 1) % SLOTS);
    forall k | 1 <= k <= 3 ensures Missing(s, r, (a + n) % SLOTS, k) <= Span(a, n + 1, k) - Span(a, n, k) {
      PrefixMonotone(a + n - 1, a + n, k);
      PrefixMonotone(a, a + n - 1, k);
      if Prefix(a + n - 1, k) == Prefix(a + n, k) { SameTable(s, r, a + n - 1, a + n, k); }
    }
  }

  /** One more page of a list, as far as the pool is concerned. */
  lemma {:induction false} MapAllCostStep(s: Pool, info: seq<Info>, r: nat, pages: seq<(Word, Word)>, va: Word,
                                          pa: Word, global: bool)
    requires Typed(s, info) && IsRoot(info, r) && MapAll(s, PageAddress(s, r), pages, global).Done?
    requires var t := MapAll(s, PageAddress(s, r), pages, global).value; Needed(t, r, Slot(va)) <= FreePages(t)
    ensures var t := MapAll(s, PageAddress(s, r), pages, global).value;
            var o := MapAll(s, PageAddress(s, r), pages + [(va, pa)], global);
            o.Done? && FreePages(o.value) == FreePages(t) - Needed(t, r, Slot(va))
                && Table(o.value, r, Slot(va), 1).Some?
  {
    hide MapPage, Table, Missing, Slot, Frame, Lookup, UserBits, Owned, Exclusive, Linked;
    var info1 := MapAllEffect(s, info, r, pages, global);
    var t := MapAll(s, PageAddress(s, r), pages, global).value;
    var info2 := MapPageEffect(t, info1, r, va, pa, global);
    assert (pages + [(va, pa)])[..|pages|] == pages;
  }

  lemma AdvanceSlot(va: Word, i: nat)
    ensures Slot(Advance(va, i)) == (va / 4096 + i) % SLOTS
  {
    var x := va + i * 4096;
    var a := va / 4096 + i;
    DivMod(x, 4096, a, va % 4096);
    var q, m := a / 0x10_0000_0000_0000, a % 0x10_0000_0000_0000;
    DivMod(x, WORDS, q, m * 4096 + va % 4096);
    DivMod(m * 4096 + va % 4096, 4096, m, va % 4096);
    var p, w := m / SLOTS, m % SLOTS;
    DivMod(a, SLOTS, q * 0x1_0000 + p, w);
  }

  /** MapPages needs at most one table for each one the range meets: with that
      many free pages no allocation assert fires. */
  lemma {:induction false} MapPagesCost(s: Pool, info: seq<Info>, r: nat, va: Word, pa: Word, n: nat, global: bool)
    requires Typed(s, info) && IsRoot(info, r)
    requires FreePages(s) >= Spans(va / 4096, n)
    ensures var o := MapAll(s, PageAddress(s, r), Pages(va, pa, n), global);
            && o.Done?
            && FreePages(o.value) >= FreePages(s) - Spans(va / 4096, n)
            && (n > 0 ==> Table(o.value, r, Slot(Advance(va, n - 1)), 1).Some?)
    decreases n
  {
    hide MapPage, MapAll, Pages, Typed, Table, Needed, Slot, Advance, Linked, Spans, FreePages, PageAddress;
    TypedCount(s, info);
    if n == 0 {
      NoPages(s, r, va, pa, global);
    } else {
      var a := va / 4096;
      SpansGrow(a, n);
      MapPagesCost(s, info, r, va, pa, n - 1, global);
      var t := MapAll(s, PageAddress(s, r), Pages(va, pa, n - 1), global).value;
      NextNeeds(t, r, va, n);
      OnePageMore(va, pa, n);
      MapAllCostStep(s, info, r, Pages(va, pa, n - 1), Advance(va, n - 1), Advance(pa, n - 1), global);
    }
  }

  lemma {:induction false} NoPages(s: Pool, r: nat, va: Word, pa: Word, global: bool)
    requires r < s.count
    ensures MapAll(s, PageAddress(s, r), Pages(va, pa, 0), global) == Done(s)
  {
  }

  lemma {:induction false} OnePageMore(va: Word, pa: Word, n: nat)
    requires n > 0
    ensures Pages(va, pa, n) == Pages(va, pa, n - 1) + [(Advance(va, n - 1), Advance(pa, n - 1))]
  {
  }

  /** Once the pages before it are mapped, the next page of a range needs no
      more tables than the range meets there for the first time. */
  lemma NextNeeds(t: Pool, r: nat, va: Word, n: nat)
    requires r < t.count && n > 0
    requires n > 1 ==> Table(t, r, Slot(Advance(va, n - 2)), 1).Some?
    ensures Needed(t, r, Slot(Advance(va, n - 1))) <= Spans(va / 4096, n) - Spans(va / 4096, n - 1)
  {
    hide Table, Missing, Slot, Advance, Spans, Entry, Child;
    AdvanceSlot(va, n - 1);
    if n == 1 {
      SpansOne(va / 4096);
    } else {
      AdvanceSlot(va, n - 2);
      NeededAfter(t, r, va / 4096, n - 1);
    }
  }

  lemma SpansOne(a: nat)
    ensures Spans(a, 0) == 0 && Spans(a, 1) == 3
  {
  }

  lemma SpansGrow(a: nat, n: nat)
    requires n > 0
    ensures Spans(a, n - 1) <= Spans(a, n)
  {
    if n > 1 {
      PrefixMonotone(a + n - 2, a + n - 1, 1);
      PrefixMonotone(a + n - 2, a + n - 1, 2);
      PrefixMonotone(a + n - 2, a + n - 1, 3);
    }
  }

  function DivRoundUp(x: nat, y: nat): nat
    requires y > 0
  {
    (x + y - 1) / y
  }

  /** The closed bound: one table more than the range fills, at each level. */
  function PageBudget(n: nat): nat {
    if n == 0 then 0
    else DivRoundUp(n, 512) + 1 + (DivRoundUp(n, 262144) + 1) + (DivRoundUp(n, 134217728) + 1)
  }

  lemma SpansBound(a: nat, n: nat)
    ensures Spans(a, n) <= PageBudget(n)
  {
    hide Span, DivRoundUp;
    SpansOne(a);
    if n > 0 {
      LevelBound(a, n, 1, 512);
      LevelBound(a, n, 2, 262144);
      LevelBound(a, n, 3, 134217728);
    }
  }

  lemma LevelBound(a: nat, n: nat, level: nat, d: nat)
    requires n > 0 && (level, d) in {(1, 512), (2, 262144), (3, 134217728)}
    ensures Span(a, n, level) <= DivRoundUp(n, d) + 1
  {
    hide Prefix, DivRoundUp;
    SpanBound(a, n, d);
    PrefixIsDivision(a);
    PrefixIsDivision(a + n - 1);
  }

  lemma SpanBound(a: nat, n: nat, d: nat)
    requires n > 0 && d > 0
    ensures (a + n - 1) / d - a / d <= DivRoundUp(n, d)
  {
    var x, y, z := a / d, (a + n - 1) / d, (n + d - 1) / d;
    assert a == d * x + a % d;
    assert a + n - 1 == d * y + (a + n - 1) % d;
    assert n + d - 1 == d * z + (n + d - 1) % d;
    var k := y - x - z;
    assert d * k == d * y - d * x - d * z;
    assert d * k < d;
    MulBound(d, k);
  }

  lemma {:induction false} PrefixIsDivision(x: nat)
    ensures Prefix(x, 1) == x / 512 && Prefix(x, 2) == x / 262144 && Prefix(x, 3) == x / 134217728
  {
    Prefixes(x);
    NestedDivision(x, 512);
    NestedDivision(x, 262144);
  }

  lemma NestedDivision(x: nat, d: nat)
    requires d == 512 || d == 262144
    ensures x / d / 512 == x / (d * 512)
  {
    var q, r := x / d, x % d;
    DivMod(x, d * 512, q / 512, q % 512 * d + r);
  }
}
