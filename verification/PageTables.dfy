/** The classes of src/mem: PageTablesPool over its index and its words, and
    PageTables over a pool and a root, each method tied to its function. */
module PageTablesCode {
  import opened Basics
  import opened Layout
  import opened PagePool
  import T = Tables
  import R = Runs
  import K = KernelMaps

  class PageTablesPool {
    const virtualBase: nat
    const physicalBase: Word
    const count: nat
    const index: array<bool>  // page 0 of the pool, one bool per page
    const mem: array<Word>    // the words of the pool, as seen from virtualBase

    ghost predicate Valid() {
      && physicalBase % 4096 == 0 && 1 <= count < 4096 && physicalBase + count * 4096 <= WORDS
      && index.Length == 4096 && mem.Length == count * 512
    }

    ghost function Data(): Pool
      requires Valid()
      reads index, mem
    {
      PoolData(physicalBase, count, index[..], mem[..])
    }

    constructor (virtualBase: nat, physicalBase: Word, count: nat, index: array<bool>, mem: array<Word>)
      requires physicalBase % 4096 == 0 && 1 <= count < 4096 && physicalBase + count * 4096 <= WORDS
      requires index.Length == 4096 && mem.Length == count * 512
      ensures Valid() && this.index == index && this.mem == mem
      ensures Data() == PoolData(physicalBase, count, index[..], mem[..])
    {
      this.virtualBase := virtualBase;
      this.physicalBase := physicalBase;
      this.count := count;
      this.index := index;
      this.mem := mem;
    }

    method Initialize()
      requires Valid()
      modifies index
      ensures Data() == R.Initialize(old(Data()))
    {
      for i := 0 to 4096
        invariant forall j :: 0 <= j < i ==> !index[j]
      {
        index[i] := false;
      }
      assert index[..] == seq(4096, _ => false);
    }

    /** Takes the lowest free page, or reports that there is none. */
    method AllocatePage() returns (ok: bool, address: Word)
      requires Valid()
      modifies index
      ensures ok <==> Allocate(old(Data())).Done?
      ensures ok ==> var (t, page) := Allocate(old(Data())).value;
                     && Data() == t && address == PageAddress(t, page)
                     && forall j :: 1 <= j < page ==> old(index[j])
      ensures !ok ==> Data() == old(Data())
    {
      var i := 1;
      address := 0;
      while i < count
        invariant 1 <= i <= count
        invariant FirstFree(Data(), 1) == FirstFree(Data(), i)
        invariant Data() == old(Data())
      {
        if !index[i] {
          index[i] := true;
          address := physicalBase + i * 4096;
          return true, address;
        }
        i := i + 1;
      }
      return false, 0;
    }

    /** ok is false where the source bugchecks. */
    method DeallocatePage(address: Word) returns (ok: bool)
      requires Valid()
      modifies index
      ensures ok <==> Deallocate(old(Data()), address).Done?
      ensures Data() == if ok then Deallocate(old(Data()), address).value else old(Data())
    {
      if address % 4096 != 0 { return false; }
      var relative := (address - physicalBase) % WORDS;
      var page := relative / 4096;
      ghost var s := Data();
      RelativePage(s, address);
      if page >= count || !index[page] { return false; }
      index[page] := false;
      return true;
    }

    /** Pages of the pool are seen at virtualBase, lower addresses at themselves. */
    function GetVirtualAddress(address: Word): nat {
      if address < physicalBase then address else address - physicalBase + virtualBase
    }

    /** The word of mem that entry i of the table at a physical address occupies. */
    function EntryWord(address: Word, i: nat): (k: nat)
      requires Valid() && i < 512 && address % 4096 == 0
      requires 1 <= address / 4096 - physicalBase / 4096 < count
      ensures k == (address / 4096 - physicalBase / 4096) * 512 + i && k < mem.Length
    {
      WordOfPage(address, physicalBase);
      (GetVirtualAddress(address) - virtualBase) / 8 + i
    }
  }

  lemma RelativePage(s: Pool, address: Word)
    requires address % 4096 == 0
    ensures var page := (address - s.base) % WORDS / 4096;
            if 0 <= PageOf(s, address) < s.count then page == PageOf(s, address) else page >= s.count
  {
    var d := PageOf(s, address);
    if d < 0 {
      DivMod(address - s.base, WORDS, -1, d * 4096 + WORDS);
    } else {
      DivMod(address - s.base, WORDS, 0, d * 4096);
    }
  }

  lemma WordOfPage(address: Word, base: Word)
    requires address % 4096 == 0 && base % 4096 == 0 && address >= base
    ensures (address - base) / 8 == (address / 4096 - base / 4096) * 512
  {
    DivMod(address - base, 8, (address / 4096 - base / 4096) * 512, 0);
  }

  class PageTables {
    const pool: PageTablesPool  // static Pool in the source
    var root: Word

    constructor (pool: PageTablesPool, root: Word)
      ensures this.pool == pool && this.root == root
    {
      this.pool := pool;
      this.root := root;
    }

    predicate InPool(address: Word) {
      1 <= address / 4096 - pool.physicalBase / 4096 < pool.count
    }

    /** ok is false where the source bugchecks. */
    method CreateNew() returns (ok: bool)
      requires pool.Valid()
      modifies this`root, pool.index
      ensures ok <==> T.CreateNew(old(pool.Data())).Done?
      ensures ok ==> var (t, page) := T.CreateNew(old(pool.Data())).value;
                     pool.Data() == t && root == PageAddress(t, page)
    {
      var address;
      ok, address := pool.AllocatePage();
      if ok { root := address; }
    }

    /** Reads `table[i]` through GetVirtualAddress. */
    method ReadEntry(address: Word, i: nat) returns (e: Word)
      requires pool.Valid() && i < 512 && address % 4096 == 0 && InPool(address)
      ensures e == Entry(pool.Data(), PageOf(pool.Data(), address), i)
    {
      e := pool.mem[pool.EntryWord(address, i)];
    }

    method WriteEntry(address: Word, i: nat, e: Word)
      requires pool.Valid() && i < 512 && address % 4096 == 0 && InPool(address)
      modifies pool.mem
      ensures pool.Data() == Write(old(pool.Data()), PageOf(old(pool.Data()), address), i, e)
    {
      pool.mem[pool.EntryWord(address, i)] := e;
    }

    /** One level of MapPage: the address of the table below entry i. */
    method EnsureTable(address: Word, i: nat, global: bool, accessed: bool) returns (o: Outcome<Word>)
      requires pool.Valid() && i < 512 && address % 4096 == 0 && InPool(address)
      modifies pool.mem, pool.index
      ensures var r := T.EnsureTable(old(pool.Data()), PageOf(old(pool.Data()), address), i, global, accessed);
              && (o.Done? <==> r.Done?) && (o.Bugcheck? <==> r.Bugcheck?)
              && (o.Done? ==> pool.Data() == r.value.0)
              && (o.Done? ==> o.value % 4096 == 0 && PageOf(pool.Data(), o.value) == r.value.1)
    {
      var e := ReadEntry(address, i);
      if e == 0 {
        ghost var s := pool.Data();
        var ok, page := pool.AllocatePage();
        if !ok { return Bugcheck; }
        AllocatedAddress(s);
        e := TableEntry(page, !global, accessed);
        WriteEntry(address, i, e);
        o := Done(PageBase(e));
      } else {
        o := if InPool(e) then Done(PageBase(e)) else Foreign;
      }
    }

    method MapPage(va: Word, pa: Word, global: bool) returns (o: Outcome<()>)
      requires pool.Valid()
      modifies pool.mem, pool.index
      ensures var r := T.MapPage(old(pool.Data()), root, va, pa, global);
              && (o.Done? <==> r.Done?) && (o.Bugcheck? <==> r.Bugcheck?)
              && (o.Done? ==> pool.Data() == r.value)
    {
      if root == 0 { return Bugcheck; }
      if root % 4096 != 0 || !InPool(root) { return Foreign; }
      FieldsAreIndices(va);
      var map3 := EnsureTable(root, va / 0x80_0000_0000 % 512, global, true);
      if !map3.Done? { return map3.PropagateFailure<()>(); }
      var map2 := EnsureTable(map3.value, va / 0x4000_0000 % 512, global, true);
      if !map2.Done? { return map2.PropagateFailure<()>(); }
      var map1 := EnsureTable(map2.value, va / 0x20_0000 % 512, global, false);
      if !map1.Done? { return map1.PropagateFailure<()>(); }
      WriteEntry(map1.value, va / 0x1000 % 512, LeafEntry(pa, global));
      o := Done(());
    }

    method MapPages(virtualBase: Word, physicalBase: Word, count: nat, global: bool) returns (o: Outcome<bool>)
      requires pool.Valid()
      modifies pool.mem, pool.index
      ensures var r := T.MapPages(old(pool.Data()), root, virtualBase, physicalBase, count, global);
              && (o.Done? <==> r.Done?) && (o.Bugcheck? <==> r.Bugcheck?)
              && (o.Done? ==> o.value && pool.Data() == r.value)
    {
      hide T.MapPage, T.Advance, T.Pages, T.MapAll;
      NoPages(pool.Data(), root, virtualBase, physicalBase, global);
      if root == 0 { return Bugcheck; }
      var i := 0;
      while i < count
        invariant 0 <= i <= count
        invariant T.MapAll(old(pool.Data()), root, T.Pages(virtualBase, physicalBase, i), global) == Done(pool.Data())
      {
        NextPage(old(pool.Data()), root, virtualBase, physicalBase, i, global, pool.Data());
        var step := MapPage(T.Advance(virtualBase, i), T.Advance(physicalBase, i), global);
        if !step.Done? {
          T.PagesPrefix(virtualBase, physicalBase, i + 1, count);
          T.LaterPagesFail(old(pool.Data()), root, T.Pages(virtualBase, physicalBase, count), i + 1, global);
          return step.PropagateFailure<bool>();
        }
        i := i + 1;
      }
      o := Done(true);
    }

    /** None where the source would read a table outside the pool. */
    method ResolveAddress(va: Word) returns (r: Option<int>)
      requires pool.Valid()
      ensures r == T.Resolve(pool.Data(), root, va)
    {
      hide Slot, Index, PageBase, Entry;
      if root % 4096 != 0 || !InPool(root) { return None; }
      FieldsAreIndices(va);
      var i4, i3, i2, i1 := va / 0x80_0000_0000 % 512, va / 0x4000_0000 % 512, va / 0x20_0000 % 512, va / 0x1000 % 512;
      var level4 := ReadEntry(root, i4);
      if !InPool(level4) { return None; }
      var level3 := ReadEntry(PageBase(level4), i3);
      if !InPool(level3) { return None; }
      var level2 := ReadEntry(PageBase(level3), i2);
      if Large(level2) { return Some(level2 / 0x20_0000 * 0x20_0000 + va % 0x20_0000); }
      if !InPool(level2) { return None; }
      var level1 := ReadEntry(PageBase(level2), i1);
      r := Some(level1 / 4096 * 4096 + va % 4096);
    }

    /** A table at this address is one of the pool's own pages. */
    predicate OwnTable(address: Word) { address % 4096 == 0 && InPool(address) }

    /** Foreign, with the pool unchanged, where the root lies outside it. */
    method ClearKernelEntries() returns (o: Outcome<()>)
      requires pool.Valid()
      modifies pool.mem
      ensures o == if OwnTable(root) then Done(()) else Foreign
      ensures pool.Data() ==
              if o.Done? then T.ClearUpper(old(pool.Data()), PageOf(old(pool.Data()), root), 256) else old(pool.Data())
    {
      hide Entry, Write;
      if !OwnTable(root) { return Foreign; }
      for i := 256 to 512
        invariant pool.Data() == T.ClearUpper(old(pool.Data()), PageOf(old(pool.Data()), root), i - 256)
      {
        WriteEntry(root, i, 0);
      }
      o := Done(());
    }

    /** current is the root the processor runs on, and outside the words found
        there when it is no page of the pool. A root that is none itself is
        changed outside the pool. */
    method LoadKernelMappings(current: Word, outside: seq<Word>)
      requires pool.Valid() && |outside| == 512
      modifies pool.mem
      ensures var s := old(pool.Data());
              pool.Data() ==
              if !OwnTable(root) then s
              else if OwnTable(current) then T.CopyUpper(s, PageOf(s, root), PageOf(s, current), 256)
              else T.FillUpper(s, PageOf(s, root), outside, 256)
    {
      hide Entry, Write;
      if !OwnTable(root) { return; }
      ghost var s := pool.Data();
      if OwnTable(current) {
        for i := 256 to 512
          invariant pool.Data() == T.CopyUpper(s, PageOf(s, root), PageOf(s, current), i - 256)
        {
          var e := ReadEntry(current, i);
          WriteEntry(root, i, e);
        }
      } else {
        for i := 256 to 512
          invariant pool.Data() == T.FillUpper(s, PageOf(s, root), outside, i - 256)
        {
          WriteEntry(root, i, outside[i]);
        }
      }
    }
  }

  /** Kernel::MapPhysicalMemory; tables holds the current root. */
  method MapPhysicalMemory(tables: PageTables, pa: Word, length: Word, mapStart: Word) returns (o: Outcome<Word>)
    requires tables.pool.Valid()
    modifies tables.pool.mem, tables.pool.index
    ensures var op := K.RequestOp(0, mapStart, pa, length);
            var r := T.MapPages(old(tables.pool.Data()), tables.root, op.va, op.pa, op.n, op.global);
            && (o.Done? <==> r.Done?) && (o.Bugcheck? <==> r.Bugcheck?)
            && (o.Done? ==> tables.pool.Data() == r.value && o.value == K.RequestPointer(mapStart, pa))
  {
    hide T.MapPages;
    var pageOffset := pa % 4096;
    var pageCount := (pageOffset + length + 4095) % WORDS / 4096;
    var physicalBase := pa - pageOffset;
    var mapped := tables.MapPages((mapStart + physicalBase) % WORDS, physicalBase, pageCount, true);
    if !mapped.Done? { return mapped.PropagateFailure<Word>(); }
    PointerSum(mapStart, physicalBase, pageOffset);
    o := Done(((mapStart + physicalBase) % WORDS + pageOffset) % WORDS);
  }

  lemma PointerSum(a: Word, b: Word, c: nat)
    ensures ((a + b) % WORDS + c) % WORDS == (a + b + c) % WORDS
  {
  }

  lemma AllocatedAddress(s: Pool)
    requires Allocate(s).Done?
    ensures var (t, c) := Allocate(s).value;
            PageAddress(t, c) % 4096 == 0 && Frame(PageAddress(t, c)) == s.base / 4096 + c
  {
    var (t, c) := Allocate(s).value;
    DivMod(PageAddress(t, c), 4096, s.base / 4096 + c, 0);
  }

  lemma {:induction false} NoPages(s: Pool, root: Word, va: Word, pa: Word, global: bool)
    ensures T.MapAll(s, root, T.Pages(va, pa, 0), global) == Done(s)
  {
  }

  lemma NextPage(s: Pool, root: Word, va: Word, pa: Word, i: nat, global: bool, t: Pool)
    requires T.MapAll(s, root, T.Pages(va, pa, i), global) == Done(t)
    ensures T.MapAll(s, root, T.Pages(va, pa, i + 1), global) ==
            T.MapPage(t, root, T.Advance(va, i), T.Advance(pa, i), global)
  {
    hide T.MapPage, T.Advance;
    T.PagesPrefix(va, pa, i, i + 1);
  }
}
