/** The words MapPages leaves in the tables: every bit of every entry on the
    walk of every slot from every root, before and after. */
module Entries {
  import opened Basics
  import opened Layout
  import opened PagePool
  import opened Tables
  import opened Tree
  import opened Mapping
  import opened Ranges

  /** The entry of a level on the walk of a slot, zero where the walk has no table. */
  function EntryAt(s: Pool, b: nat, w: nat, k: nat): Word
    requires b < s.count && 1 <= k <= 4
  {
    match Table(s, b, w, k)
    case None => 0
    case Some(q) => Entry(s, q, Index(w, k))
  }

  /** A level 1 entry: present, writable, user or global, all other bits those of
      the physical address. */
  ghost predicate LeafWord(e: Word, pa: Word, global: bool) {
    forall j: nat :: Bit(e, j) ==
                     if j <= 1 then true else if j == 2 then !global else if j == 8 then global else Bit(pa, j)
  }

  /** An entry for a table: present, writable, user unless global, accessed if
      said so, no other flags, and the bits of the page. */
  ghost predicate TableWord(e: Word, page: Word, global: bool, accessed: bool) {
    forall j: nat :: Bit(e, j) ==
                     if j < 12 then j <= 1 || (j == 2 && !global) || (j == 5 && accessed) else Bit(page, j)
  }

  /** Above level 1 entries in use stay, and those that come into use hold the
      next table of the walk; only levels 4 and 3 are marked accessed. */
  ghost predicate TablesKept(s: Pool, b: nat, w: nat, k: nat, global: bool, t: Pool)
    requires b < s.count == t.count && 2 <= k <= 4
  {
    var e, e' := EntryAt(s, b, w, k), EntryAt(t, b, w, k);
    if e != 0 || e' == 0 then e' == e
    else Table(t, b, w, k - 1).Some? && TableWord(e', PageAddress(t, Table(t, b, w, k - 1).value), global, k >= 3)
  }

  ghost predicate AllTablesKept(s: Pool, info: seq<Info>, global: bool, t: Pool)
    requires |info| == s.count == t.count
  {
    forall b, w: nat, k :: IsRoot(info, b) && 2 <= k <= 4 ==> TablesKept(s, b, w, k, global, t)
  }

  ghost predicate LeavesKept(s: Pool, info: seq<Info>, t: Pool)
    requires |info| == s.count == t.count
  {
    forall b, w: nat :: IsRoot(info, b) ==> EntryAt(t, b, w, 1) == EntryAt(s, b, w, 1)
  }

  // ----- Growing by a table -----

  /** Growing changes one entry, which was zero. */
  lemma {:induction false} GrowEntry(s: Pool, info: seq<Info>, t: Pool, q: nat, i: nat, c: nat, b: nat, w: nat, k: nat)
    requires Typed(s, info) && Grown(s, t, q, i, c) && info[q].Node? && info[q].level >= 2
    requires IsRoot(info, b) && 1 <= k <= 4
    ensures if Table(s, b, w, k) == Some(q) && Index(w, k) == i then
              && k == info[q].level && EntryAt(s, b, w, k) == 0 && EntryAt(t, b, w, k) == Entry(t, q, i)
              && Table(t, b, w, k - 1) == Some(c)
            else EntryAt(t, b, w, k) == EntryAt(s, b, w, k)
  {
    hide Typed, Linked, Table, Index, Child, Present, Large, PageOf;
    TypedCount(s, info);
    GrowTable(s, info, t, q, i, c, b, w, k);
    TableTyped(s, info, b, w, k);
    if Table(s, b, w, k) == Some(q) && Index(w, k) == i {
      GrowTable(s, info, t, q, i, c, b, w, k - 1);
    } else if Table(t, b, w, k) == Some(c) && Table(s, b, w, k) != Some(c) {
      FreshHoldsNothing(s, info, t, q, i, c, Index(w, k));
    }
  }

  lemma FreshHoldsNothing(s: Pool, info: seq<Info>, t: Pool, q: nat, i: nat, c: nat, j: nat)
    requires Typed(s, info) && Grown(s, t, q, i, c) && j < 512
    ensures Entry(t, c, j) == 0
  {
    hide Linked;
    assert Entry(s, c, j) == 0;
    assert Entry(t, c, j) == Entry(s, c, j);
  }

  lemma {:induction false} GrowEntries(s: Pool, info: seq<Info>, t: Pool, q: nat, i: nat, c: nat, global: bool)
    requires Typed(s, info) && Grown(s, t, q, i, c) && info[q].Node? && info[q].level >= 2
    requires TableWord(Entry(t, q, i), PageAddress(t, c), global, info[q].level >= 3)
    ensures |info| == s.count == t.count && AllTablesKept(s, info, global, t) && LeavesKept(s, info, t)
  {
    hide Typed, Table, EntryAt, TableWord, PageAddress, Grown;
    TypedCount(s, info);
    GrownCount(s, t, q, i, c);
    NewEntryUsed(s, t, q, i, c);
    forall b, w: nat, k | IsRoot(info, b) && 2 <= k <= 4 ensures TablesKept(s, b, w, k, global, t) {
      GrowEntry(s, info, t, q, i, c, b, w, k);
    }
    forall b, w: nat | IsRoot(info, b) ensures EntryAt(t, b, w, 1) == EntryAt(s, b, w, 1) {
      GrowEntry(s, info, t, q, i, c, b, w, 1);
    }
  }

  lemma NewEntryUsed(s: Pool, t: Pool, q: nat, i: nat, c: nat)
    requires Grown(s, t, q, i, c)
    ensures Entry(t, q, i) != 0
  {
  }

  lemma EnsuredWord(s: Pool, q: nat, i: nat, global: bool, accessed: bool)
    requires q < s.count && i < 512 && Entry(s, q, i) == 0
    ensures var o := EnsureTable(s, q, i, global, accessed);
            o.Done? ==> TableWord(Entry(o.value.0, q, i), PageAddress(o.value.0, o.value.1), global, accessed)
  {
    var o := EnsureTable(s, q, i, global, accessed);
    if o.Done? {
      var (t, c) := Allocate(s).value;
      PageAddressFrame(t, c);
      forall j: nat ensures Bit(Entry(o.value.0, q, i), j) ==
                            if j < 12 then j <= 1 || (j == 2 && !global) || (j == 5 && accessed)
                            else Bit(PageAddress(o.value.0, c), j)
      {
        TableEntryBits(PageAddress(t, c), !global, accessed, j);
      }
    }
  }

  // ----- One page -----

  /** One level of MapPage. */
  lemma {:induction false} LevelEntries(s: Pool, info: seq<Info>, r: nat, v: nat, level: nat, global: bool)
    requires Typed(s, info) && IsRoot(info, r) && 2 <= level <= 4 && Table(s, r, v, level).Some?
    ensures |info| == s.count
    ensures var o := EnsureTable(s, Table(s, r, v, level).value, Index(v, level), global, level >= 3);
            o.Done? ==> AllTablesKept(s, info, global, o.value.0) && LeavesKept(s, info, o.value.0)
  {
    hide Linked, TableWord, EntryAt, PageAddress, Grown, EnsureTable, Entry, Child, Index, Table;
    TypedCount(s, info);
    var q, i := Table(s, r, v, level).value, Index(v, level);
    TableTyped(s, info, r, v, level);
    EnsureTableGrows(s, info, q, i, global, level >= 3);
    var o := EnsureTable(s, q, i, global, level >= 3);
    if o.Done? && Entry(s, q, i) == 0 {
      EnsuredWord(s, q, i, global, level >= 3);
      GrowEntries(s, info, o.value.0, q, i, o.value.1, global);
    }
  }

  /** What was kept twice is kept. */
  lemma {:induction false} KeptTwice(s: Pool, info: seq<Info>, global: bool, t: Pool, info': seq<Info>, u: Pool,
                                     info'': seq<Info>)
    requires Extends(s, info, t, info') && Extends(t, info', u, info'')
    requires |info| == |info'| == s.count == t.count == u.count
    requires AllTablesKept(s, info, global, t) && AllTablesKept(t, info', global, u)
    ensures AllTablesKept(s, info, global, u)
  {
    hide EntryAt, TableWord, Typed, Owned, Exclusive, Shares, Entry, Table;
    forall b, w: nat, k | IsRoot(info, b) && 2 <= k <= 4 ensures TablesKept(s, b, w, k, global, u) {
      assert IsRoot(info', b);
      assert TablesKept(s, b, w, k, global, t) && TablesKept(t, b, w, k, global, u);
      if Table(t, b, w, k - 1).Some? { assert Table(u, b, w, k - 1) == Table(t, b, w, k - 1); }
    }
  }

  lemma {:induction false} TablesEntries(s: Pool, info: seq<Info>, r: nat, v: nat, global: bool)
    requires Typed(s, info) && IsRoot(info, r) && EnsureTables(s, r, v, global).Done?
    ensures |info| == s.count
    ensures var t := EnsureTables(s, r, v, global).value.0;
            AllTablesKept(s, info, global, t) && LeavesKept(s, info, t)
  {
    hide EnsureTable, Typed, Extends, AllTablesKept, Table, Index, Lookup, EntryAt, Missing, UserBits;
    TypedCount(s, info);
    TopIsRoot(s, r, v);
    var info3 := EnsureLevel(s, info, r, v, 4, global, true);
    LevelEntries(s, info, r, v, 4, global);
    var (s3, p3) := EnsureTable(s, r, Index(v, 4), global, true).value;
    Extended(s, info, s3, info3);
    var info2 := EnsureLevel(s3, info3, r, v, 3, global, true);
    LevelEntries(s3, info3, r, v, 3, global);
    var (s2, p2) := EnsureTable(s3, p3, Index(v, 3), global, true).value;
    Extended(s3, info3, s2, info2);
    KeptTwice(s, info, global, s3, info3, s2, info2);
    ExtendsTransitive(s, info, s3, info3, s2, info2);
    var info1 := EnsureLevel(s2, info2, r, v, 2, global, false);
    LevelEntries(s2, info2, r, v, 2, global);
    var (s1, p1) := EnsureTable(s2, p2, Index(v, 2), global, false).value;
    Extended(s2, info2, s1, info1);
    KeptTwice(s, info, global, s2, info2, s1, info1);
  }

  lemma Extended(s: Pool, info: seq<Info>, t: Pool, info': seq<Info>)
    requires Extends(s, info, t, info')
    ensures Typed(t, info') && |info| == |info'| == s.count == t.count
    ensures forall b :: IsRoot(info', b) <==> IsRoot(info, b)
  {
    hide Entry, Linked, Table, Shares, Owned, Exclusive;
  }

  /** The level 1 entry of slot v, seen from root b, is the one written; every
      other level 1 entry is as before. */
  ghost predicate LeafWritten(s: Pool, r: nat, v: nat, pa: Word, global: bool, t: Pool, b: nat, w: nat)
    requires r < s.count == t.count && b < s.count
  {
    if w == v && (b == r || Shares(s, r, b, Index(v, 4))) then LeafWord(EntryAt(t, b, w, 1), pa, global)
    else EntryAt(t, b, w, 1) == EntryAt(s, b, w, 1)
  }

  lemma LeafWordOf(pa: Word, global: bool)
    ensures LeafWord(LeafEntry(pa, global), pa, global)
  {
    forall j: nat ensures Bit(LeafEntry(pa, global), j) ==
                          if j <= 1 then true else if j == 2 then !global else if j == 8 then global else Bit(pa, j)
    {
      LeafEntryBits(pa, global, j);
    }
  }

  /** Writing a level 1 entry changes that entry of that slot and nothing else. */
  lemma {:induction false} WriteEntryAt(s: Pool, info: seq<Info>, r: nat, v: nat, e: Word, b: nat, w: nat)
    requires Typed(s, info) && IsRoot(info, r) && IsRoot(info, b) && v < SLOTS && w < SLOTS
    requires Table(s, r, v, 1).Some? && Present(e)
    ensures EntryAt(Write(s, Table(s, r, v, 1).value, Index(v, 1), e), b, w, 1) ==
            if w == v && (b == r || Shares(s, r, b, Index(v, 4))) then e else EntryAt(s, b, w, 1)
  {
    LeafTableSame(s, info, r, v, e, b, w);
    LeafPosition(s, info, r, v, b, w);
    hide Typed, Table, Shares, Index, Present;
  }

  lemma {:induction false} WriteKeepsTables(s: Pool, info: seq<Info>, r: nat, v: nat, e: Word, b: nat, w: nat, k: nat)
    requires Typed(s, info) && IsRoot(info, r) && IsRoot(info, b) && 2 <= k <= 4
    requires Table(s, r, v, 1).Some? && Present(e)
    ensures var t := Write(s, Table(s, r, v, 1).value, Index(v, 1), e);
            EntryAt(t, b, w, k) == EntryAt(s, b, w, k) && Table(t, b, w, k - 1) == Table(s, b, w, k - 1)
  {
    hide Index, Present, Linked, Table;
    var p := Table(s, r, v, 1).value;
    var t := Write(s, p, Index(v, 1), e);
    TableTyped(s, info, r, v, 1);
    LeafTyped(s, info, p, Index(v, 1), e);
    SameAboveTable(s, info, t, b, w, k);
    SameAboveTable(s, info, t, b, w, k - 1);
    TableTyped(s, info, b, w, k);
  }

  /** MapPage: every entry of every level, on every walk. */
  lemma {:induction false} MapPageEntries(s: Pool, info: seq<Info>, r: nat, va: Word, pa: Word, global: bool)
    requires Typed(s, info) && IsRoot(info, r) && MapPage(s, PageAddress(s, r), va, pa, global).Done?
    ensures |info| == s.count
    ensures var t := MapPage(s, PageAddress(s, r), va, pa, global).value;
            && AllTablesKept(s, info, global, t)
            && forall b, w :: IsRoot(info, b) && 0 <= w < SLOTS ==> LeafWritten(s, r, Slot(va), pa, global, t, b, w)
  {
    hide EnsureTables, Extends, Table, Index, Lookup, EntryAt, Missing, UserBits, TableWord, LeafWord, Shares, Slot;
    TypedCount(s, info);
    PageAddressFrame(s, r);
    var v := Slot(va);
    var info' := EnsureTablesEffect(s, info, r, v, global);
    TablesEntries(s, info, r, v, global);
    var (t, p) := EnsureTables(s, r, v, global).value;
    Extended(s, info, t, info');
    ExtendsShares(s, info, t, info');
    LeafStep(s, info, r, v, t, info', pa, global);
  }

  lemma {:induction false} LeafStep(s: Pool, info: seq<Info>, r: nat, v: nat, t: Pool, info': seq<Info>, pa: Word,
                                    global: bool)
    requires Typed(t, info') && |info| == |info'| == s.count == t.count && IsRoot(info, r) && v < SLOTS
    requires (forall b :: IsRoot(info', b) <==> IsRoot(info, b)) && Table(t, r, v, 1).Some?
    requires AllTablesKept(s, info, global, t) && LeavesKept(s, info, t) && SharesSame(s, info, t)
    ensures var u := Write(t, Table(t, r, v, 1).value, Index(v, 1), LeafEntry(pa, global));
            && AllTablesKept(s, info, global, u)
            && forall b, w :: IsRoot(info, b) && 0 <= w < SLOTS ==> LeafWritten(s, r, v, pa, global, u, b, w)
  {
    hide Typed, Table, Index, EntryAt, TableWord, LeafWord, Shares, Present;
    var e := LeafEntry(pa, global);
    var u := Write(t, Table(t, r, v, 1).value, Index(v, 1), e);
    LeafWordOf(pa, global);
    forall b, w: nat, k | IsRoot(info, b) && 2 <= k <= 4 ensures TablesKept(s, b, w, k, global, u) {
      assert TablesKept(s, b, w, k, global, t);
      WriteKeepsTables(t, info', r, v, e, b, w, k);
    }
    forall b, w | IsRoot(info, b) && 0 <= w < SLOTS ensures LeafWritten(s, r, v, pa, global, u, b, w) {
      WriteEntryAt(t, info', r, v, e, b, w);
    }
  }

  // ----- Lists of pages -----

  /** The physical address of the last page of a list for a slot. */
  function LastFor(pages: seq<(Word, Word)>, w: nat): Option<Word> {
    if |pages| == 0 then None
    else if Slot(pages[|pages| - 1].0) == w then Some(pages[|pages| - 1].1)
    else LastFor(pages[..|pages| - 1], w)
  }

  /** The level 1 entry of a slot of the list is that of its last page; every
      other level 1 entry is as before. */
  ghost predicate LeafOf(s: Pool, r: nat, last: Option<Word>, global: bool, t: Pool, b: nat, w: nat)
    requires r < s.count == t.count && b < s.count
  {
    if last.Some? && (b == r || Shares(s, r, b, Index(w, 4))) then LeafWord(EntryAt(t, b, w, 1), last.value, global)
    else EntryAt(t, b, w, 1) == EntryAt(s, b, w, 1)
  }

  ghost predicate AllLeavesOf(s: Pool, info: seq<Info>, r: nat, pages: seq<(Word, Word)>, global: bool, t: Pool)
    requires |info| == s.count == t.count && r < s.count
  {
    forall b, w :: IsRoot(info, b) && 0 <= w < SLOTS ==> LeafOf(s, r, LastFor(pages, w), global, t, b, w)
  }

  /** Any list of MapPage calls: every entry of every level, on every walk. */
  lemma {:induction false} MapAllEntries(s: Pool, info: seq<Info>, r: nat, pages: seq<(Word, Word)>, global: bool)
    requires Typed(s, info) && IsRoot(info, r) && MapAll(s, PageAddress(s, r), pages, global).Done?
    ensures |info| == s.count
    ensures var t := MapAll(s, PageAddress(s, r), pages, global).value;
            AllTablesKept(s, info, global, t) && AllLeavesOf(s, info, r, pages, global, t)
    decreases |pages|
  {
    hide MapPage, Extends, RangeMapped, UserBits, Typed, AllTablesKept, AllLeavesOf, LeafWritten, PageAddress, Slot;
    TypedCount(s, info);
    if |pages| == 0 {
      NoneWritten(s, info, r, pages, global);
    } else {
      var n := |pages| - 1;
      var init := pages[..n];
      var t := MapAll(s, PageAddress(s, r), init, global).value;
      MapAllEntries(s, info, r, init, global);
      var info' := MapAllEffect(s, info, r, init, global);
      Extended(s, info, t, info');
      SameAddress(s, t, r);
      var info'' := MapPageEffect(t, info', r, pages[n].0, pages[n].1, global);
      MapPageEntries(t, info', r, pages[n].0, pages[n].1, global);
      var u := MapPage(t, PageAddress(t, r), pages[n].0, pages[n].1, global).value;
      Extended(t, info', u, info'');
      KeptTwice(s, info, global, t, info', u, info'');
      ExtendsShares(s, info, t, info');
      OneMoreLeaf(s, info, r, pages, global, t, info', u);
    }
  }

  lemma SameAddress(s: Pool, t: Pool, r: nat)
    requires r < s.count == t.count && s.base == t.base
    ensures PageAddress(s, r) == PageAddress(t, r)
  {
  }

  lemma {:induction false} NoneWritten(s: Pool, info: seq<Info>, r: nat, pages: seq<(Word, Word)>, global: bool)
    requires |info| == s.count && IsRoot(info, r) && pages == []
    ensures AllTablesKept(s, info, global, s) && AllLeavesOf(s, info, r, pages, global, s)
  {
    hide EntryAt, Shares;
  }

  lemma {:induction false} OneMoreLeaf(s: Pool, info: seq<Info>, r: nat, pages: seq<(Word, Word)>, global: bool,
                                       t: Pool, info': seq<Info>, u: Pool)
    requires |pages| > 0 && |info| == |info'| == s.count == t.count == u.count && IsRoot(info, r)
    requires (forall b :: IsRoot(info', b) <==> IsRoot(info, b)) && SharesSame(s, info, t)
    requires AllLeavesOf(s, info, r, pages[..|pages| - 1], global, t)
    requires var (va, pa) := pages[|pages| - 1];
             forall b, w :: IsRoot(info', b) && 0 <= w < SLOTS ==> LeafWritten(t, r, Slot(va), pa, global, u, b, w)
    ensures AllLeavesOf(s, info, r, pages, global, u)
  {
    hide EntryAt, Shares, LeafWord, Slot, Index;
    var (va, pa) := pages[|pages| - 1];
    var init := pages[..|pages| - 1];
    forall b, w | IsRoot(info, b) && 0 <= w < SLOTS
      ensures LeafOf(s, r, LastFor(pages, w), global, u, b, w)
    {
      assert LeafOf(s, r, LastFor(init, w), global, t, b, w);
      assert LeafWritten(t, r, Slot(va), pa, global, u, b, w);
    }
  }
}
