/** The bit layouts of src/mem/pagetables.h: 64-bit words, the fields MapPage
    sets in a table entry, and the index split of a virtual address.
    Bit-fields are written with division and remainder by powers of two. */
module Layout {
  import opened Basics

  const WORDS: int := 0x1_0000_0000_0000_0000  // 2^64
  const SLOTS: int := 0x10_0000_0000           // 2^36 virtual pages, the 16 upper bits being ignored

  type Word = w: int | 0 <= w < 0x1_0000_0000_0000_0000

  // Field reads: bit 0, bit 2, bit 7, bit 8 and the frame (bits 12 and up, as `Value & ~0xFFF` keeps them)
  predicate Present(e: Word) { e % 2 == 1 }
  predicate User(e: Word) { e / 4 % 2 == 1 }
  predicate Large(e: Word) { e / 128 % 2 == 1 }
  predicate Global(e: Word) { e / 256 % 2 == 1 }
  function Frame(e: Word): (f: nat) { e / 4096 }

  /** `Value & ~0xFFF` */
  function PageBase(e: Word): (a: Word)
    ensures a % 4096 == 0 && a / 4096 == e / 4096
  {
    e / 4096 * 4096
  }

  /** The entry MapPage writes for a freshly allocated table page, whose low
      bits are zero: Present, ReadWrite, and User and Accessed as asked.
      The level 2 entry is the one that does not get the Accessed bit. */
  function TableEntry(page: Word, user: bool, accessed: bool): (e: Word)
    requires page % 4096 == 0
    ensures e != 0 && Present(e) && !Large(e) && User(e) == user && Frame(e) == Frame(page)
  {
    var flags := 1 + 2 + (if user then 4 else 0) + (if accessed then 32 else 0);
    LowBits(page / 4096, flags);
    page + flags
  }

  /** The level 1 entry: the physical address with Present, ReadWrite, User
      (bits 0 to 2) and Global (bit 8) overwritten and its other bits kept. */
  function LeafEntry(physical: Word, global: bool): (e: Word)
    ensures e != 0 && Present(e) && User(e) == !global && Global(e) == global && Frame(e) == Frame(physical)
  {
    var j, z := physical / 512, physical % 256 / 8;
    LeafBits(physical, j, z, global);
    512 * j + (if global then 256 else 0) + 8 * z + (if global then 0 else 4) + 2 + 1
  }

  lemma LowBits(f: nat, k: nat)
    requires k < 64 && 4096 * f < WORDS
    ensures var e := 4096 * f + k;
            e < WORDS && Present(e) == (k % 2 == 1) && User(e) == (k / 4 % 2 == 1) && !Large(e) && Frame(e) == f
  {
    var e := 4096 * f + k;
    DivMod(e, 2, 2048 * f + k / 2, k % 2);
    DivMod(e, 4, 1024 * f + k / 4, k % 4);
    DivMod(1024 * f + k / 4, 2, 512 * f + k / 4 / 2, k / 4 % 2);
    DivMod(e, 128, 32 * f, k);
    DivMod(32 * f, 2, 16 * f, 0);
    DivMod(e, 4096, f, k);
  }

  lemma LeafBits(x: Word, j: nat, z: nat, global: bool)
    requires j == x / 512 && z < 32
    ensures var e := 512 * j + (if global then 256 else 0) + 8 * z + if global then 3 else 7;
            e < WORDS && Present(e) && User(e) == !global && Global(e) == global && Frame(e) == Frame(x)
  {
    var g, b := if global then 1 else 0, if global then 0 else 1;
    var low := 256 * g + 8 * z + 4 * b + 3;
    var y := x % 512;
    assert 512 * j + low < WORDS by { assert x == 512 * j + y; }
    LeafFlags(512 * j + low, j, z, g, b);
    SameFrame(512 * j + low, x, j, low, y);
  }

  lemma LeafFlags(e: Word, j: nat, z: nat, g: nat, b: nat)
    requires e == 512 * j + 256 * g + 8 * z + 4 * b + 3 && g <= 1 && b <= 1 && z < 32
    ensures Present(e) && User(e) == (b == 1) && Global(e) == (g == 1)
  {
    DivMod(e, 2, 256 * j + 128 * g + 4 * z + 2 * b + 1, 1);
    DivMod(e, 4, 128 * j + 64 * g + 2 * z + b, 3);
    DivMod(128 * j + 64 * g + 2 * z + b, 2, 64 * j + 32 * g + z, b);
    DivMod(e, 256, 2 * j + g, 8 * z + 4 * b + 3);
    DivMod(2 * j + g, 2, j, g);
  }

  lemma SameFrame(e: Word, x: Word, j: nat, low: nat, y: nat)
    requires e == 512 * j + low && x == 512 * j + y && low < 512 && y < 512
    ensures Frame(e) == Frame(x)
  {
    var f, h := j / 8, j % 8;
    DivMod(e, 4096, f, 512 * h + low);
    DivMod(x, 4096, f, 512 * h + y);
  }

  // ----- Single bits -----

  function Power2(k: nat): (p: nat)
    ensures p >= 1
  {
    if k == 0 then 1 else 2 * Power2(k - 1)
  }

  predicate Bit(x: nat, k: nat)
    decreases k
  {
    if k == 0 then x % 2 == 1 else Bit(x / 2, k - 1)
  }

  /** The bits of a number put together from an upper part and n lower bits. */
  lemma {:induction false} Joined(x: nat, upper: nat, lower: nat, n: nat, k: nat)
    requires x == Power2(n) * upper + lower && lower < Power2(n)
    ensures Bit(x, k) == if k < n then Bit(lower, k) else Bit(upper, k - n)
    decreases n
  {
    if n > 0 {
      var half := Power2(n - 1) * upper;
      assert x == 2 * half + lower by { assert Power2(n) * upper == 2 * half; }
      DivMod(x, 2, half + lower / 2, lower % 2);
      if k > 0 { Joined(x / 2, upper, lower / 2, n - 1, k - 1); }
    }
  }

  lemma {:induction false} BitOfBit(b: nat, k: nat)
    requires b <= 1
    ensures Bit(b, k) == (k == 0 && b == 1)
  {
    if k > 0 { BitOfBit(0, k - 1); }
  }

  lemma {:induction false} SmallPowers()
    ensures Power2(2) == 4 && Power2(3) == 8 && Power2(8) == 256 && Power2(9) == 512 && Power2(12) == 4096
  {
    assert Power2(2) == 2 * Power2(1) && Power2(4) == 2 * Power2(3) && Power2(6) == 2 * Power2(5);
    assert Power2(8) == 2 * Power2(7) && Power2(10) == 2 * Power2(9) && Power2(12) == 2 * Power2(11);
  }

  /** Every bit of a new table's entry: Present, ReadWrite, User and Accessed
      below bit 12, the page's own bits above. */
  lemma {:induction false} TableEntryBits(page: Word, user: bool, accessed: bool, k: nat)
    requires page % 4096 == 0
    ensures Bit(TableEntry(page, user, accessed), k) ==
            if k < 12 then k == 0 || k == 1 || (k == 2 && user) || (k == 5 && accessed) else Bit(page, k)
  {
    var u, a := if user then 1 else 0, if accessed then 1 else 0;
    var e, f := TableEntry(page, user, accessed), page / 4096;
    assert e == 4096 * f + (3 + 4 * u + 32 * a);
    hide TableEntry;
    SmallPowers();
    Joined(e, f, 3 + 4 * u + 32 * a, 12, k);
    Joined(page, f, 0, 12, k);
    FlagBits(u, a, k);
  }

  lemma {:induction false} FlagBits(u: nat, a: nat, k: nat)
    requires u <= 1 && a <= 1
    ensures Bit(3 + 4 * u + 32 * a, k) == (k <= 1 || (k == 2 && u == 1) || (k == 5 && a == 1))
  {
    SmallPowers();
    Joined(3 + 4 * u + 32 * a, u + 8 * a, 3, 2, k);
    if k >= 2 {
      Joined(u + 8 * a, a, u, 3, k - 2);
      BitOfBit(u, k - 2);
      if k >= 5 { BitOfBit(a, k - 5); }
    }
  }

  /** Every bit of a level 1 entry: four are set by MapPage, all others are
      those of the physical address. */
  lemma {:induction false} LeafEntryBits(physical: Word, global: bool, k: nat)
    ensures Bit(LeafEntry(physical, global), k) ==
            if k == 0 || k == 1 then true else if k == 2 then !global else if k == 8 then global else Bit(physical, k)
  {
    var j, w := physical / 512, physical % 512;
    var x, y := w / 256, w % 256;
    var z, h := y / 8, y % 8;
    var g, b := if global then 1 else 0, if global then 0 else 1;
    var e := LeafEntry(physical, global);
    assert e == 512 * j + 256 * g + 8 * z + (4 * b + 3) by { DivMod(physical, 256, 2 * j + x, y); }
    hide LeafEntry;
    LeafBit(e, j, g, z, 4 * b + 3, k);
    LeafBit(physical, j, x, z, h, k);
    LowThree(b, k);
  }

  lemma {:induction false} LowThree(b: nat, k: nat)
    requires b <= 1
    ensures k < 3 ==> Bit(4 * b + 3, k) == (k < 2 || b == 1)
  {
    SmallPowers();
    Joined(4 * b + 3, b, 3, 2, k);
  }

  lemma {:induction false} LeafBit(e: nat, j: nat, g: nat, z: nat, low: nat, k: nat)
    requires e == 512 * j + 256 * g + 8 * z + low && g <= 1 && z < 32 && low < 8
    ensures Bit(e, k) ==
            if k < 3 then Bit(low, k) else if k < 8 then Bit(z, k - 3) else if k == 8 then g == 1 else Bit(j, k - 9)
  {
    SmallPowers();
    Joined(e, j, 256 * g + 8 * z + low, 9, k);
    Joined(256 * g + 8 * z + low, g, 8 * z + low, 8, k);
    Joined(8 * z + low, z, low, 3, k);
    BitOfBit(g, if k >= 8 then k - 8 else 0);
  }

  /** The virtual page number of an address as the four table indices see it. */
  function Slot(va: Word): (vpn: nat)
    ensures vpn < SLOTS
  {
    va / 4096 % SLOTS
  }

  /** The part of a virtual page number that selects a table of the given level. */
  function Prefix(vpn: nat, level: nat): nat
  {
    if level == 0 then vpn else Prefix(vpn, level - 1) / 512
  }

  /** The index a walk uses in a table of the given level, 1 (PT) to 4 (PML4). */
  function Index(vpn: nat, level: nat): (i: nat)
    requires 1 <= level <= 4
    ensures i < 512
  {
    Prefix(vpn, level - 1) % 512
  }

  /** Unfolds Prefix at the four levels. */
  lemma {:induction false} Prefixes(vpn: nat)
    ensures Prefix(vpn, 0) == vpn && Prefix(vpn, 1) == vpn / 512
    ensures Prefix(vpn, 2) == vpn / 512 / 512 && Prefix(vpn, 3) == vpn / 512 / 512 / 512
    ensures Prefix(vpn, 4) == vpn / 512 / 512 / 512 / 512
    ensures vpn < SLOTS <==> Prefix(vpn, 4) == 0
  {
  }

  function Compose(i4: nat, i3: nat, i2: nat, i1: nat): (vpn: nat)
    requires i4 < 512 && i3 < 512 && i2 < 512 && i1 < 512
    ensures vpn < SLOTS
    ensures Index(vpn, 4) == i4 && Index(vpn, 3) == i3 && Index(vpn, 2) == i2 && Index(vpn, 1) == i1
  {
    var vpn := ((i4 * 512 + i3) * 512 + i2) * 512 + i1;
    Prefixes(vpn);
    vpn
  }

  /** The bit-fields index1..index4 of a VirtualAddress are the indices of its slot. */
  lemma FieldsAreIndices(va: Word)
    ensures va / 0x1000 % 512 == Index(Slot(va), 1)
    ensures va / 0x20_0000 % 512 == Index(Slot(va), 2)
    ensures va / 0x4000_0000 % 512 == Index(Slot(va), 3)
    ensures va / 0x80_0000_0000 % 512 == Index(Slot(va), 4)
  {
    var page := va / 4096;
    SlotPrefixes(page);
    Prefixes(Slot(va));
    Prefixes(page);
    assert va / 0x20_0000 == page / 512;
    assert va / 0x4000_0000 == va / 0x20_0000 / 512;
    assert va / 0x80_0000_0000 == va / 0x4000_0000 / 512;
  }

  /** Reducing a page number modulo 2^36 does not change its four indices. */
  lemma SlotPrefixes(page: nat)
    ensures forall level :: 1 <= level <= 4 ==> Index(page % SLOTS, level) == Index(page, level)
  {
    var v := page % SLOTS;
    Prefixes(v);
    Prefixes(page);
    var p1, p2, p3 := page / 512, page / 512 / 512, page / 512 / 512 / 512;
    assert v / 512 == p1 % 0x800_0000 by { Reduce(page); }
    assert p1 % 0x800_0000 / 512 == p2 % 0x4_0000 && p1 % 0x800_0000 % 512 == p1 % 512 by { Reduce(p1); }
    assert p2 % 0x4_0000 / 512 == p3 % 0x200 && p2 % 0x4_0000 % 512 == p2 % 512 by { Reduce(p2); }
    assert v % 512 == page % 512 by { Reduce(page); }
    assert Index(v, 1) == v % 512 && Index(v, 2) == p1 % 0x800_0000 % 512;
    assert Index(v, 3) == p2 % 0x4_0000 % 512 && Index(v, 4) == p3 % 0x200;
  }

  lemma Reduce(x: nat)
    ensures x % SLOTS / 512 == x / 512 % 0x800_0000 && x % SLOTS % 512 == x % 512
    ensures x % 0x800_0000 / 512 == x / 512 % 0x4_0000 && x % 0x800_0000 % 512 == x % 512
    ensures x % 0x4_0000 / 512 == x / 512 % 0x200 && x % 0x4_0000 % 512 == x % 512
  {
    ReduceBy(x, 0x800_0000);
    ReduceBy(x, 0x4_0000);
    ReduceBy(x, 0x200);
  }

  lemma ReduceBy(x: nat, m: nat)
    requires m > 0
    ensures x % (512 * m) / 512 == x / 512 % m && x % (512 * m) % 512 == x % 512
  {
    var q, r := x / (512 * m), x % (512 * m);
    assert x == 512 * m * q + r;
    var s, t := r / 512, r % 512;
    assert s < m;
    assert x == 512 * (m * q + s) + t;
    DivMod(x, 512, m * q + s, t);
    DivMod(m * q + s, m, q, s);
  }

  /** Two slots that select the same table agree on every index above it. */
  lemma {:induction false} PrefixDetermined(v: nat, w: nat, level: nat)
    requires v < SLOTS && w < SLOTS && level <= 4
    requires forall k :: level < k <= 4 ==> Index(v, k) == Index(w, k)
    ensures Prefix(v, level) == Prefix(w, level)
    decreases 4 - level
  {
    if level == 4 {
      Prefixes(v);
      Prefixes(w);
    } else {
      PrefixDetermined(v, w, level + 1);
      assert Index(v, level + 1) == Index(w, level + 1);
    }
  }

  predicate Canonical(va: Word) { va < 0x8000_0000_0000 || va >= 0xFFFF_8000_0000_0000 }

  /** PageTables::BuildAddress */
  function BuildAddress(i4: nat, i3: nat, i2: nat, i1: nat, offset: nat): (va: Word)
    requires i4 < 512 && i3 < 512 && i2 < 512 && i1 < 512 && offset < 4096
  {
    var low := Compose(i4, i3, i2, i1) * 4096 + offset;
    if i4 >= 256 then 0xFFFF_0000_0000_0000 + low else low
  }

  /** Splitting an address and building it again gives it back exactly when it
      is canonical; building and splitting always gives the indices back. */
  lemma BuildAddressRoundTrip(va: Word)
    ensures var v := Slot(va);
            BuildAddress(Index(v, 4), Index(v, 3), Index(v, 2), Index(v, 1), va % 4096) == va <==> Canonical(va)
  {
    var v := Slot(va);
    var w := Compose(Index(v, 4), Index(v, 3), Index(v, 2), Index(v, 1));
    PrefixDetermined(v, w, 0);
    TopIndex(v);
    SignExtension(va, va / 4096 / SLOTS, v, va % 4096);
  }

  lemma SignExtension(va: Word, upper: nat, v: nat, offset: nat)
    requires v < SLOTS && offset < 4096 && va == (upper * SLOTS + v) * 4096 + offset
    ensures va == v * 4096 + offset + (if v >= 0x8_0000_0000 then 0xFFFF_0000_0000_0000 else 0) <==> Canonical(va)
  {
  }

  lemma TopIndex(v: nat)
    requires v < SLOTS
    ensures Index(v, 4) >= 256 <==> v >= 0x8_0000_0000
  {
    Prefixes(v);
  }

  lemma BuildAddressSplits(i4: nat, i3: nat, i2: nat, i1: nat, offset: nat)
    requires i4 < 512 && i3 < 512 && i2 < 512 && i1 < 512 && offset < 4096
    ensures var va := BuildAddress(i4, i3, i2, i1, offset);
            Canonical(va) && va % 4096 == offset && Slot(va) == Compose(i4, i3, i2, i1)
  {
    var v := Compose(i4, i3, i2, i1);
    TopIndex(v);
    var upper := if i4 >= 256 then 0xFFFF else 0;
    DivMod(BuildAddress(i4, i3, i2, i1, offset), 4096, upper * SLOTS + v, offset);
    DivMod(upper * SLOTS + v, SLOTS, upper, v);
  }
}
