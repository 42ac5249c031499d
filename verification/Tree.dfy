/** The shape every run of the page tables keeps: each page of the pool is
    either free and zero, or a table of one level sitting at one position. */
module Tree {
  import opened Basics
  import opened Layout
  import opened PagePool
  import opened Tables

  /** What a page is: free, or a table of a level with the page and slot of
      the entry it was created for (meaningless for a root, level 4). */
  datatype Info = Free | Node(level: nat, up: nat, slot: nat)

  ghost predicate Known(s: Pool, info: seq<Info>) {
    && |info| == s.count
    && info[0].Free?
    && (forall q :: 1 <= q < s.count ==> (s.index[q] <==> info[q].Node?))
    && (forall q :: 0 <= q < s.count && info[q].Node? ==> 1 <= info[q].level <= 4)
  }

  /** A non-zero entry of a table above level 1 is present, is no large page
      and refers to a table one level down that sits at this slot. Only the
      upper half of a root may hold an entry that was created for another root. */
  ghost predicate Linked(s: Pool, info: seq<Info>, q: nat, i: nat)
    requires |info| == s.count && q < s.count && i < 512 && info[q].Node?
  {
    Entry(s, q, i) != 0 ==>
      && Present(Entry(s, q, i)) && !Large(Entry(s, q, i))
      && Child(s, q, i).Some?
      && var n := info[Child(s, q, i).value];
      && n.Node? && n.level + 1 == info[q].level && n.slot == i
      && (info[q].level < 4 || i < 256 ==> n.up == q)
  }

  ghost predicate Typed(s: Pool, info: seq<Info>) {
    && Known(s, info)
    && (forall q, i :: 1 <= q < s.count && info[q].Free? && 0 <= i < 512 ==> Entry(s, q, i) == 0)
    && (forall q, i :: 0 <= q < s.count && info[q].Node? && info[q].level >= 2 && 0 <= i < 512 ==>
       Linked(s, info, q, i))
    && (forall q, i :: 0 <= q < s.count && info[q].Node? && info[q].level == 1 && 0 <= i < 512 ==>
          Entry(s, q, i) == 0 || Present(Entry(s, q, i)))
  }

  ghost predicate IsRoot(info: seq<Info>, r: nat) {
    r < |info| && info[r].Node? && info[r].level == 4
  }

  lemma TypedCount(s: Pool, info: seq<Info>)
    requires Typed(s, info)
    ensures |info| == s.count
  {
    hide Entry, Linked;
  }

  lemma {:induction false} Below(s: Pool, r: nat, w: nat, k: nat)
    requires r < s.count && 1 <= k <= 3
    ensures Table(s, r, w, k) ==
            if Table(s, r, w, k + 1).None? then None else Child(s, Table(s, r, w, k + 1).value, Index(w, k + 1))
  {
  }

  lemma {:induction false} TopIsRoot(s: Pool, r: nat, w: nat)
    requires r < s.count
    ensures Table(s, r, w, 4) == Some(r)
  {
  }

  /** A walk from a root meets tables of the right level at the right slot. */
  lemma {:induction false} TableTyped(s: Pool, info: seq<Info>, r: nat, v: nat, level: nat)
    requires Typed(s, info) && IsRoot(info, r) && 1 <= level <= 4
    ensures Table(s, r, v, level).Some? ==>
              var n := info[Table(s, r, v, level).value];
              && n.Node? && n.level == level
              && (level < 4 ==> n.slot == Index(v, level + 1))
              && (level < 3 || (level == 3 && Index(v, 4) < 256) ==> Table(s, r, v, level + 1) == Some(n.up))
    decreases 4 - level
  {
    if level < 4 {
      TableTyped(s, info, r, v, level + 1);
      var t := Table(s, r, v, level + 1);
      if t.Some? {
        assert Linked(s, info, t.value, Index(v, level + 1));
      }
    }
  }

  /** One page, one position: two walks that meet in a table below the roots
      agree on every index above it and went through the same level 3 table. */
  lemma {:induction false} SamePosition(s: Pool, info: seq<Info>, r: nat, v: nat, r': nat, v': nat, level: nat)
    requires Typed(s, info) && IsRoot(info, r) && IsRoot(info, r') && 1 <= level <= 3
    requires Table(s, r, v, level).Some? && Table(s, r, v, level) == Table(s, r', v', level)
    ensures forall k :: level < k <= 4 ==> Index(v, k) == Index(v', k)
    ensures Table(s, r, v, 3) == Table(s, r', v', 3)
    ensures Index(v, 4) < 256 ==> r == r'
    decreases 4 - level
  {
    hide Index, Linked, Typed, Entry, Child;
    TableTyped(s, info, r, v, level);
    TableTyped(s, info, r', v', level);
    if level < 3 {
      SamePosition(s, info, r, v, r', v', level + 1);
    }
  }

  /** Two walks from one table page on agree as long as their indices do. */
  lemma {:induction false} TableCongruence(s: Pool, r: nat, v: nat, r': nat, v': nat, from: nat, level: nat)
    requires r < s.count && r' < s.count && 1 <= level <= from <= 4
    requires Table(s, r, v, from) == Table(s, r', v', from)
    requires forall k :: level < k <= from ==> Index(v, k) == Index(v', k)
    ensures Table(s, r, v, level) == Table(s, r', v', level)
    decreases 4 - level
  {
    if level < from {
      TableCongruence(s, r, v, r', v', from, level + 1);
      assert Index(v, level + 1) == Index(v', level + 1);
    }
  }

  // ----- One level of MapPage -----

  /** Growing s at entry i of page q by the free page c gives t. */
  ghost predicate Grown(s: Pool, t: Pool, q: nat, i: nat, c: nat) {
    && q < s.count && i < 512 && 1 <= c < s.count && c != q
    && t.base == s.base && t.count == s.count
    && !s.index[c] && t.index == s.index[c := true]
    && Entry(s, q, i) == 0
    && Entry(t, q, i) != 0 && Present(Entry(t, q, i)) && !Large(Entry(t, q, i)) && PageOf(t, Entry(t, q, i)) == c
    && (forall q', i' :: 0 <= q' < s.count && 0 <= i' < 512 && !(q' == q && i' == i) ==>
       Entry(t, q', i') == Entry(s, q', i'))
  }

  /** EnsureTable follows an existing link, or grows the tree, or finds the
      pool empty; it never leaves a typed tree. */
  lemma EnsureTableGrows(s: Pool, info: seq<Info>, q: nat, i: nat, global: bool, accessed: bool)
    requires Typed(s, info) && q < s.count && i < 512 && info[q].Node? && info[q].level >= 2
    ensures var r := EnsureTable(s, q, i, global, accessed);
            if Entry(s, q, i) != 0 then Child(s, q, i).Some? && r == Done((s, Child(s, q, i).value))
            else if FreePages(s) == 0 then r == Bugcheck
            else r.Done? && Grown(s, r.value.0, q, i, r.value.1)
                 && User(Entry(r.value.0, q, i)) == !global && FreePages(r.value.0) == FreePages(s) - 1
  {
    assert Linked(s, info, q, i);
    AllocateTakesOne(s);
    if Entry(s, q, i) == 0 && FreePages(s) > 0 {
      var (t, c) := Allocate(s).value;
      var w := EnsureTable(s, q, i, global, accessed).value.0;
      assert forall q', i' :: 0 <= q' < s.count && 0 <= i' < 512 ==> Entry(t, q', i') == Entry(s, q', i');
      PageAddressFrame(t, c);
      FreePagesSame(t, w, 1);
    }
  }

  lemma PageAddressFrame(s: Pool, c: nat)
    requires c < s.count
    ensures PageAddress(s, c) % 4096 == 0 && Frame(PageAddress(s, c)) == s.base / 4096 + c
    ensures PageOf(s, PageAddress(s, c)) == c
  {
    DivMod(PageAddress(s, c), 4096, s.base / 4096 + c, 0);
  }

  lemma {:induction false} FreePagesSame(s: Pool, t: Pool, i: nat)
    requires t.count == s.count && t.index == s.index && i <= s.count
    ensures FreeFrom(t, i) == FreeFrom(s, i)
    decreases s.count - i
  {
    if i < s.count { FreePagesSame(s, t, i + 1); }
  }

  function Grow(info: seq<Info>, q: nat, i: nat, c: nat): (info': seq<Info>)
    requires q < |info| && c < |info| && info[q].Node? && info[q].level >= 1
    ensures |info'| == |info|
  {
    info[c := Node(info[q].level - 1, q, i)]
  }

  lemma GrowTyped(s: Pool, info: seq<Info>, t: Pool, q: nat, i: nat, c: nat)
    requires Typed(s, info) && Grown(s, t, q, i, c) && info[q].Node? && info[q].level >= 2
    ensures Typed(t, Grow(info, q, i, c))
  {
    var info' := Grow(info, q, i, c);
    assert info[c].Free?;
    forall q', i' | 0 <= q' < t.count && info'[q'].Node? && info'[q'].level >= 2 && 0 <= i' < 512
      ensures Linked(t, info', q', i')
    {
      if q' != c && !(q' == q && i' == i) {
        assert Linked(s, info, q', i');
        assert Entry(t, q', i') == Entry(s, q', i');
      } else if q' == c {
        assert Entry(s, c, i') == 0;
      }
    }
    forall q', i' | 0 <= q' < t.count && info'[q'].Node? && info'[q'].level == 1 && 0 <= i' < 512
      ensures Entry(t, q', i') == 0 || Present(Entry(t, q', i'))
    {
      assert Entry(t, q', i') == Entry(s, q', i');
    }
    forall q', i' | 1 <= q' < t.count && info'[q'].Free? && 0 <= i' < 512
      ensures Entry(t, q', i') == 0
    {
      assert Entry(t, q', i') == Entry(s, q', i');
    }
  }

  /** Growing extends exactly the walks that stopped at that entry, by one table. */
  lemma {:induction false} GrowTable(s: Pool, info: seq<Info>, t: Pool, q: nat, i: nat, c: nat, r: nat, v: nat,
                                     level: nat)
    requires Typed(s, info) && Grown(s, t, q, i, c) && info[q].Node? && info[q].level >= 2
    requires IsRoot(info, r) && 1 <= level <= 4
    ensures Table(t, r, v, level) ==
            if level < 4 && Table(s, r, v, level + 1) == Some(q) && Index(v, level + 1) == i then Some(c)
            else Table(s, r, v, level)
    ensures level < 4 && Table(s, r, v, level + 1) == Some(q) && Index(v, level + 1) == i ==>
            Table(s, r, v, level) == None
    decreases 4 - level
  {
    hide Index, Typed, Linked, Grown, Child, Entry, Table;
    TypedCount(s, info);
    GrownCount(s, t, q, i, c);
    TopIsRoot(s, r, v);
    TopIsRoot(t, r, v);
    if level < 4 {
      GrowTable(s, info, t, q, i, c, r, v, level + 1);
      TableTyped(s, info, r, v, level + 1);
      FreshIsFree(s, info, t, q, i, c);
      Below(s, r, v, level);
      Below(t, r, v, level);
      var j := Index(v, level + 1);
      if Table(s, r, v, level + 1).Some? {
        ChildGrown(s, t, q, i, c, Table(s, r, v, level + 1).value, j);
      } else {
        FreshIsEmpty(s, info, t, q, i, c, j);
      }
    }
  }

  lemma GrownCount(s: Pool, t: Pool, q: nat, i: nat, c: nat)
    requires Grown(s, t, q, i, c)
    ensures t.count == s.count && c < s.count && q < s.count && i < 512
  {
    hide Entry;
  }

  /** The links after growing: the new one, and those there were. */
  lemma ChildGrown(s: Pool, t: Pool, q: nat, i: nat, c: nat, p: nat, j: nat)
    requires Grown(s, t, q, i, c) && p < s.count && j < 512
    ensures Child(t, p, j) == if p == q && j == i then Some(c) else Child(s, p, j)
    ensures p == q && j == i ==> Child(s, p, j).None?
  {
    if !(p == q && j == i) { assert Entry(t, p, j) == Entry(s, p, j); }
  }

  lemma FreshIsFree(s: Pool, info: seq<Info>, t: Pool, q: nat, i: nat, c: nat)
    requires Typed(s, info) && Grown(s, t, q, i, c)
    ensures info[c].Free?
  {
    hide Entry, Linked;
  }

  /** The page just linked holds no links. */
  lemma FreshIsEmpty(s: Pool, info: seq<Info>, t: Pool, q: nat, i: nat, c: nat, j: nat)
    requires Typed(s, info) && Grown(s, t, q, i, c) && j < 512
    ensures Child(t, c, j).None?
  {
    hide Linked;
    assert Entry(s, c, j) == 0;
    assert Entry(t, c, j) == Entry(s, c, j);
  }

  lemma GrowLookup(s: Pool, info: seq<Info>, t: Pool, q: nat, i: nat, c: nat, r: nat, v: nat)
    requires Typed(s, info) && Grown(s, t, q, i, c) && info[q].Node? && info[q].level >= 2
    requires IsRoot(info, r)
    ensures Lookup(t, r, v) == Lookup(s, r, v)
  {
    GrowTable(s, info, t, q, i, c, r, v, 1);
    TableTyped(s, info, r, v, 1);
    assert Entry(s, c, Index(v, 1)) == 0;
  }
}
