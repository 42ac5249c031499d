/** PageTables (src/mem/PageTables.cpp): the four-level walk, MapPage and
    MapPages, and what ResolveAddress reads, as functions of the pool. */
module Tables {
  import opened Basics
  import opened Layout
  import opened PagePool

  /** The page an entry of the pool refers to, if the entry is not zero and
      the page is a table page of the pool. */
  function Child(s: Pool, q: nat, i: nat): (c: Option<nat>)
    requires q < s.count && i < 512
    ensures c.Some? ==> 1 <= c.value < s.count && Entry(s, q, i) != 0
  {
    var e := Entry(s, q, i);
    var c := PageOf(s, e);
    if e != 0 && 1 <= c < s.count then Some(c) else None
  }

  /** The table page of a level on the walk of a slot from root page r. */
  function Table(s: Pool, r: nat, vpn: nat, level: nat): (t: Option<nat>)
    requires r < s.count && 1 <= level <= 4
    ensures t.Some? ==> t.value < s.count
    decreases 4 - level
  {
    if level == 4 then Some(r)
    else match Table(s, r, vpn, level + 1)
      case None => None
      case Some(q) => Child(s, q, Index(vpn, level + 1))
  }

  /** The frame a slot is mapped to: the abstract map of root page r. */
  function Lookup(s: Pool, r: nat, vpn: nat): (f: Option<nat>)
    requires r < s.count
  {
    match Table(s, r, vpn, 1)
    case None => None
    case Some(t) =>
      var e := Entry(s, t, Index(vpn, 1));
      if e == 0 then None else Some(Frame(e))
  }

  /** One level of MapPage: follow entry i of page q, or allocate a page for it. */
  function EnsureTable(s: Pool, q: nat, i: nat, global: bool, accessed: bool): (r: Outcome<(Pool, nat)>)
    requires q < s.count && i < 512
    ensures r.Done? ==> r.value.0.count == s.count && r.value.0.base == s.base && 1 <= r.value.1 < s.count
  {
    var e := Entry(s, q, i);
    if e == 0 then
      var (t, c) :- Allocate(s);
      Done((Write(t, q, i, TableEntry(PageAddress(t, c), !global, accessed)), c))
    else
      var c := PageOf(s, e);
      if 1 <= c < s.count then Done((s, c)) else Foreign
  }

  /** MapPage down to the level 1 table of slot v, creating what is missing. */
  function EnsureTables(s: Pool, p4: nat, v: nat, global: bool): (r: Outcome<(Pool, nat)>)
    requires p4 < s.count
    ensures r.Done? ==> r.value.0.count == s.count && r.value.0.base == s.base && 1 <= r.value.1 < s.count
  {
    var (s3, p3) :- EnsureTable(s, p4, Index(v, 4), global, true);
    var (s2, p2) :- EnsureTable(s3, p3, Index(v, 3), global, true);
    EnsureTable(s2, p2, Index(v, 2), global, false)
  }

  function MapPage(s: Pool, root: Word, va: Word, pa: Word, global: bool): (r: Outcome<Pool>)
    ensures r.Done? ==> r.value.count == s.count && r.value.base == s.base
  {
    if root == 0 then Bugcheck
    else
      var p4 := PageOf(s, root);
      if root % 4096 != 0 || !(1 <= p4 < s.count) then Foreign
      else
        var (t, p1) :- EnsureTables(s, p4, Slot(va), global);
        Done(Write(t, p1, Index(Slot(va), 1), LeafEntry(pa, global)))
  }

  /** MapPage on a list of virtual and physical addresses, in order. */
  function MapAll(s: Pool, root: Word, pages: seq<(Word, Word)>, global: bool): (r: Outcome<Pool>)
    ensures r.Done? ==> r.value.count == s.count && r.value.base == s.base
    decreases |pages|
  {
    if |pages| == 0 then Done(s)
    else
      var t :- MapAll(s, root, pages[..|pages| - 1], global);
      MapPage(t, root, pages[|pages| - 1].0, pages[|pages| - 1].1, global)
  }

  /** An address i pages on, wrapping at 2^64. */
  function Advance(a: Word, i: nat): Word { (a + i * 4096) % WORDS }

  /** The addresses the first n iterations of the loop of MapPages use. */
  function Pages(va: Word, pa: Word, n: nat): (pages: seq<(Word, Word)>)
    ensures |pages| == n
    ensures forall i :: 0 <= i < n ==> pages[i] == (Advance(va, i), Advance(pa, i))
  {
    if n == 0 then [] else Pages(va, pa, n - 1) + [(Advance(va, n - 1), Advance(pa, n - 1))]
  }

  function MapPages(s: Pool, root: Word, va: Word, pa: Word, n: nat, global: bool): (r: Outcome<Pool>)
    ensures r.Done? ==> r.value.count == s.count && r.value.base == s.base
  {
    if root == 0 then Bugcheck else MapAll(s, root, Pages(va, pa, n), global)
  }

  lemma {:induction false} PagesPrefix(va: Word, pa: Word, i: nat, n: nat)
    requires i <= n
    ensures Pages(va, pa, n)[..i] == Pages(va, pa, i)
  {
  }

  /** A page list fails as its first failing part does. */
  lemma {:induction false} LaterPagesFail(s: Pool, root: Word, pages: seq<(Word, Word)>, i: nat, global: bool)
    requires i <= |pages| && !MapAll(s, root, pages[..i], global).Done?
    ensures MapAll(s, root, pages, global) == MapAll(s, root, pages[..i], global)
    decreases |pages|
  {
    hide MapPage;
    if i == |pages| {
      assert pages[..i] == pages;
    } else {
      var init := pages[..|pages| - 1];
      assert init[..i] == pages[..i];
      LaterPagesFail(s, root, init, i, global);
    }
  }

  /** CreateNew: the root is a page of the pool, taken as it is. */
  function CreateNew(s: Pool): (r: Outcome<(Pool, nat)>) { Allocate(s) }

  /** LoadKernelMappings from root page c into root page d, n entries done:
      the upper half of the current root is copied over. */
  function CopyUpper(s: Pool, d: nat, c: nat, n: nat): (t: Pool)
    requires d < s.count && c < s.count && n <= 256
    ensures t.base == s.base && t.count == s.count && t.index == s.index
    ensures forall q, i :: 0 <= q < s.count && 0 <= i < 512 ==>
              Entry(t, q, i) == if q == d && 256 <= i < 256 + n then Entry(s, c, i) else Entry(s, q, i)
  {
    if n == 0 then s else Write(CopyUpper(s, d, c, n - 1), d, 256 + n - 1, Entry(s, c, 256 + n - 1))
  }

  /** LoadKernelMappings from a table outside the pool, n entries done. */
  function FillUpper(s: Pool, d: nat, words: seq<Word>, n: nat): (t: Pool)
    requires d < s.count && |words| == 512 && n <= 256
    ensures t.base == s.base && t.count == s.count && t.index == s.index
    ensures forall q, i :: 0 <= q < s.count && 0 <= i < 512 ==>
              Entry(t, q, i) == if q == d && 256 <= i < 256 + n then words[i] else Entry(s, q, i)
  {
    if n == 0 then s else Write(FillUpper(s, d, words, n - 1), d, 256 + n - 1, words[256 + n - 1])
  }

  /** ClearKernelEntries, n entries done. */
  function ClearUpper(s: Pool, d: nat, n: nat): (t: Pool)
    requires d < s.count && n <= 256
    ensures t.base == s.base && t.count == s.count && t.index == s.index
    ensures forall q, i :: 0 <= q < s.count && 0 <= i < 512 ==>
              Entry(t, q, i) == if q == d && 256 <= i < 256 + n then 0 else Entry(s, q, i)
  {
    if n == 0 then s else Write(ClearUpper(s, d, n - 1), d, 256 + n - 1, 0)
  }

  /** ResolveAddress: it follows entries without looking at them, so a missing
      table makes it read outside the pool's tables (None here), and a zero
      level 1 entry resolves to the bare page offset. */
  function Resolve(s: Pool, root: Word, va: Word): (r: Option<int>)
  {
    var p4 := PageOf(s, root);
    if root % 4096 != 0 || !(1 <= p4 < s.count) then None
    else
      var p3 := PageOf(s, Entry(s, p4, Index(Slot(va), 4)));
      if !(1 <= p3 < s.count) then None
      else
        var p2 := PageOf(s, Entry(s, p3, Index(Slot(va), 3)));
        if !(1 <= p2 < s.count) then None
        else
          var e := Entry(s, p2, Index(Slot(va), 2));
          if Large(e) then Some(e / 0x20_0000 * 0x20_0000 + va % 0x20_0000)
          else
            var p1 := PageOf(s, e);
            if !(1 <= p1 < s.count) then None
            else Some((Frame(Entry(s, p1, Index(Slot(va), 1))) * 4096 + va % 4096))
  }
}
