/** What MapPage does to every root, every slot and the pool. */
module Mapping {
  import opened Basics
  import opened Layout
  import opened PagePool
  import opened Tables
  import opened Tree

  /** Every table below the roots is still referred to by the entry it was created for. */
  ghost predicate Owned(s: Pool, info: seq<Info>)
    requires Known(s, info)
  {
    forall c :: 0 <= c < s.count && info[c].Node? && info[c].level < 4 ==>
      var n := info[c];
      && n.up < s.count && n.slot < 512 && info[n.up].Node? && info[n.up].level == n.level + 1
      && Child(s, n.up, n.slot) == Some(c)
  }

  /** No entry of a root was copied from another root. */
  ghost predicate Exclusive(s: Pool, info: seq<Info>)
    requires Known(s, info)
  {
    forall r, i :: 0 <= r < s.count && IsRoot(info, r) && 0 <= i < 512 && Child(s, r, i).Some? ==>
      info[Child(s, r, i).value].Node? && info[Child(s, r, i).value].up == r
  }

  /** Two roots use the same level 3 table at slot i. */
  predicate Shares(s: Pool, a: nat, b: nat, i: nat)
    requires a < s.count && b < s.count && i < 512
  {
    Child(s, a, i).Some? && Child(s, a, i) == Child(s, b, i)
  }

  /** The entry used at level k on the walk of w, if in use, carries the User
      bit exactly when w is in the lower half. */
  predicate UserBit(s: Pool, b: nat, w: nat, k: nat)
    requires b < s.count && 1 <= k <= 4
  {
    match Table(s, b, w, k)
    case None => true
    case Some(q) => Entry(s, q, Index(w, k)) == 0 || User(Entry(s, q, Index(w, k))) == (Index(w, 4) < 256)
  }

  ghost predicate UserBits(s: Pool, info: seq<Info>)
    requires Known(s, info)
  {
    forall b, w: nat, k :: IsRoot(info, b) && 1 <= k <= 4 ==> UserBit(s, b, w, k)
  }

  /** What every step of MapPage keeps. It is transitive. */
  ghost predicate Extends(s: Pool, info: seq<Info>, t: Pool, info': seq<Info>) {
    && Typed(s, info) && Typed(t, info')
    && t.base == s.base && t.count == s.count
    && (forall r :: IsRoot(info', r) <==> IsRoot(info, r))
    && (forall i :: 0 <= i < 512 ==> Entry(t, 0, i) == Entry(s, 0, i))
    && (forall b, w: nat, k :: IsRoot(info, b) && 1 <= k <= 4 && Table(s, b, w, k).Some? ==>
          Table(t, b, w, k) == Table(s, b, w, k))
    && (forall a, b, i :: IsRoot(info, a) && IsRoot(info, b) && a != b && 0 <= i < 512 && Shares(t, a, b, i) ==>
          Shares(s, a, b, i))
    && (Owned(s, info) ==> Owned(t, info'))
    && (Exclusive(s, info) ==> Exclusive(t, info'))
  }

  // ----- Growing by a table -----

  lemma GrowExtends(s: Pool, info: seq<Info>, t: Pool, q: nat, i: nat, c: nat)
    requires Typed(s, info) && Grown(s, t, q, i, c) && info[q].Node? && info[q].level >= 2
    ensures Extends(s, info, t, Grow(info, q, i, c))
  {
    var info' := Grow(info, q, i, c);
    GrowTyped(s, info, t, q, i, c);
    forall b, w: nat, k | IsRoot(info, b) && 1 <= k <= 4 && Table(s, b, w, k).Some?
      ensures Table(t, b, w, k) == Table(s, b, w, k)
    {
      GrowTable(s, info, t, q, i, c, b, w, k);
    }
    GrowShares(s, info, t, q, i, c);
    if Owned(s, info) { GrowOwned(s, info, t, q, i, c); }
    if Exclusive(s, info) { GrowExclusive(s, info, t, q, i, c); }
  }

  lemma GrowShares(s: Pool, info: seq<Info>, t: Pool, q: nat, i: nat, c: nat)
    requires Typed(s, info) && Grown(s, t, q, i, c) && info[q].Node? && info[q].level >= 2
    ensures forall a, b, j :: IsRoot(info, a) && IsRoot(info, b) && a != b && 0 <= j < 512 && Shares(t, a, b, j) ==>
              Shares(s, a, b, j)
  {
    forall a, b, j | IsRoot(info, a) && IsRoot(info, b) && a != b && 0 <= j < 512 && Shares(t, a, b, j)
      ensures Shares(s, a, b, j)
    {
      ChildGrown(s, t, q, i, c, a, j);
      ChildGrown(s, t, q, i, c, b, j);
      assert Linked(s, info, a, j) && Linked(s, info, b, j);
    }
  }

  lemma GrowOwned(s: Pool, info: seq<Info>, t: Pool, q: nat, i: nat, c: nat)
    requires Typed(s, info) && Grown(s, t, q, i, c) && info[q].Node? && info[q].level >= 2
    requires Owned(s, info) && Known(t, Grow(info, q, i, c))
    ensures Owned(t, Grow(info, q, i, c))
  {
    var info' := Grow(info, q, i, c);
    forall d | 0 <= d < t.count && info'[d].Node? && info'[d].level < 4
      ensures var n := info'[d];
        && n.up < s.count && n.slot < 512 && info'[n.up].Node? && info'[n.up].level == n.level + 1
        && Child(t, n.up, n.slot) == Some(d)
    {
      ChildGrown(s, t, q, i, c, info'[d].up, info'[d].slot);
    }
  }

  lemma GrowExclusive(s: Pool, info: seq<Info>, t: Pool, q: nat, i: nat, c: nat)
    requires Typed(s, info) && Grown(s, t, q, i, c) && info[q].Node? && info[q].level >= 2
    requires Exclusive(s, info) && Known(t, Grow(info, q, i, c))
    ensures Exclusive(t, Grow(info, q, i, c))
  {
    var info' := Grow(info, q, i, c);
    forall r, j | 0 <= r < t.count && IsRoot(info', r) && 0 <= j < 512 && Child(t, r, j).Some?
      ensures info'[Child(t, r, j).value].Node? && info'[Child(t, r, j).value].up == r
    {
      ChildGrown(s, t, q, i, c, r, j);
      assert IsRoot(info, r);
      assert Linked(s, info, r, j);
    }
  }

  /** Growing at an entry on the walk of v keeps the User bits, if the new
      entry follows the half of v. */
  lemma {:induction false} GrowUserBits(s: Pool, info: seq<Info>, t: Pool, q: nat, i: nat, c: nat, r: nat, v: nat,
                                        level: nat)
    requires Typed(s, info) && Grown(s, t, q, i, c) && IsRoot(info, r) && 2 <= level <= 4
    requires Table(s, r, v, level) == Some(q) && Index(v, level) == i && info[q].Node? && info[q].level >= 2
    requires UserBits(s, info) && User(Entry(t, q, i)) == (Index(v, 4) < 256)
    requires Known(t, Grow(info, q, i, c))
    ensures UserBits(t, Grow(info, q, i, c))
  {
    var info' := Grow(info, q, i, c);
    forall b, w: nat, k | IsRoot(info', b) && 1 <= k <= 4
      ensures UserBit(t, b, w, k)
    {
      assert IsRoot(info, b);
      GrowTable(s, info, t, q, i, c, b, w, k);
      assert UserBit(s, b, w, k);
      var j := Index(w, k);
      assert Entry(s, c, j) == 0 && Entry(t, c, j) == 0;
      if Table(s, b, w, k) == Some(q) && j == i {
        TableTyped(s, info, b, w, k);
        TableTyped(s, info, r, v, level);
        if level < 4 { SamePosition(s, info, r, v, b, w, level); }
      }
    }
  }

  // ----- One level of MapPage, then all three -----

  /** Whether the table of a level is missing on the walk of v. */
  function Missing(s: Pool, r: nat, v: nat, level: nat): (m: nat)
    requires r < s.count && 1 <= level <= 4
    ensures m <= 1
  {
    if Table(s, r, v, level).None? then 1 else 0
  }

  lemma EnsureLevel(s: Pool, info: seq<Info>, r: nat, v: nat, level: nat, global: bool, accessed: bool)
    returns (info': seq<Info>)
    requires Typed(s, info) && IsRoot(info, r) && 2 <= level <= 4 && Table(s, r, v, level).Some?
    ensures var o := EnsureTable(s, Table(s, r, v, level).value, Index(v, level), global, accessed);
            if Missing(s, r, v, level - 1) > FreePages(s) then o == Bugcheck
            else
              && o.Done? && Ensured(s, info, r, v, global, o.value.0, info', o.value.1, level - 1)
              && FreePages(o.value.0) == FreePages(s) - Missing(s, r, v, level - 1)
  {
    var q, i := Table(s, r, v, level).value, Index(v, level);
    TableTyped(s, info, r, v, level);
    EnsureTableGrows(s, info, q, i, global, accessed);
    assert Linked(s, info, q, i);
    info' := info;
    if Entry(s, q, i) == 0 && FreePages(s) > 0 {
      var (t, c) := EnsureTable(s, q, i, global, accessed).value;
      info' := Grow(info, q, i, c);
      GrowExtends(s, info, t, q, i, c);
      GrowLevel(s, info, t, q, i, c, r, v, level);
      if UserBits(s, info) && global == (Index(v, 4) >= 256) {
        GrowUserBits(s, info, t, q, i, c, r, v, level);
      }
    }
  }

  lemma GrowLevel(s: Pool, info: seq<Info>, t: Pool, q: nat, i: nat, c: nat, r: nat, v: nat, level: nat)
    requires Typed(s, info) && Grown(s, t, q, i, c) && IsRoot(info, r) && 2 <= level <= 4
    requires Table(s, r, v, level) == Some(q) && Index(v, level) == i && info[q].Node? && info[q].level >= 2
    ensures Table(s, r, v, level - 1).None? && Table(t, r, v, level - 1) == Some(c)
    ensures forall b, w: nat :: IsRoot(info, b) ==> Lookup(t, b, w) == Lookup(s, b, w)
    ensures forall k :: 1 <= k < level - 1 ==> Missing(t, r, v, k) == Missing(s, r, v, k)
  {
    hide Index, Present, Large, PageOf, Typed, Lookup, Linked, Grown, Table, Entry, Child;
    TypedCount(s, info);
    GrownCount(s, t, q, i, c);
    GrowTable(s, info, t, q, i, c, r, v, level - 1);
    forall b, w: nat | IsRoot(info, b) ensures Lookup(t, b, w) == Lookup(s, b, w) {
      GrowLookup(s, info, t, q, i, c, b, w);
    }
    if level > 2 {
      GrownIsEmpty(s, info, t, q, i, c, r, v, level - 1);
      forall k | 1 <= k < level - 1 ensures Missing(t, r, v, k) == Missing(s, r, v, k) {
        MissingBelow(s, r, v, level - 1, k);
        MissingBelow(t, r, v, level - 2, k);
      }
    }
  }

  /** A walk ends at the table just linked. */
  lemma GrownIsEmpty(s: Pool, info: seq<Info>, t: Pool, q: nat, i: nat, c: nat, r: nat, v: nat, level: nat)
    requires Typed(s, info) && Grown(s, t, q, i, c) && r < t.count && 2 <= level <= 3
    requires Table(t, r, v, level) == Some(c)
    ensures Table(t, r, v, level - 1).None?
  {
    hide Index, Present, Large, PageOf, Linked;
    var j := Index(v, level);
    assert Entry(s, c, j) == 0;
    assert Child(s, c, j).None?;
    hide Typed;
    ChildGrown(s, t, q, i, c, c, j);
  }

  lemma {:induction false} MissingBelow(s: Pool, r: nat, v: nat, level: nat, k: nat)
    requires r < s.count && 1 <= k <= level <= 4 && Table(s, r, v, level).None?
    ensures Table(s, r, v, k).None?
    decreases level - k
  {
    if k < level { MissingBelow(s, r, v, level, k + 1); }
  }

  // ----- The level 1 entry -----

  ghost predicate SameAbove(s: Pool, info: seq<Info>, t: Pool)
    requires |info| == s.count
  {
    && t.base == s.base && t.count == s.count && t.index == s.index
    && forall q, i :: 0 <= q < s.count && 0 <= i < 512 && !(info[q].Node? && info[q].level == 1) ==>
       Entry(t, q, i) == Entry(s, q, i)
  }

  lemma SameAboveChild(s: Pool, info: seq<Info>, t: Pool, q: nat, i: nat)
    requires |info| == s.count && SameAbove(s, info, t) && q < s.count && i < 512
    requires !(info[q].Node? && info[q].level == 1)
    ensures Entry(t, q, i) == Entry(s, q, i) && Child(t, q, i) == Child(s, q, i)
  {
  }

  lemma {:induction false} SameAboveTable(s: Pool, info: seq<Info>, t: Pool, b: nat, w: nat, k: nat)
    requires Typed(s, info) && SameAbove(s, info, t) && IsRoot(info, b) && 1 <= k <= 4
    ensures Table(t, b, w, k) == Table(s, b, w, k)
    decreases 4 - k
  {
    if k < 4 {
      SameAboveTable(s, info, t, b, w, k + 1);
      TableTyped(s, info, b, w, k + 1);
      match Table(s, b, w, k + 1)
      case Some(q) => SameAboveChild(s, info, t, q, Index(w, k + 1));
      case None =>
    }
  }

  /** Writing a present level 1 entry on the walk of v changes no walk. */
  lemma LeafTyped(s: Pool, info: seq<Info>, p: nat, i: nat, e: Word)
    requires Typed(s, info) && p < s.count && info[p].Node? && info[p].level == 1 && i < 512 && Present(e)
    ensures Typed(Write(s, p, i, e), info) && SameAbove(s, info, Write(s, p, i, e))
  {
    var t := Write(s, p, i, e);
    assert SameAbove(s, info, t);
    forall q, j | 0 <= q < t.count && info[q].Node? && info[q].level >= 2 && 0 <= j < 512
      ensures Linked(t, info, q, j)
    {
      assert Linked(s, info, q, j);
      SameAboveChild(s, info, t, q, j);
    }
  }

  lemma LeafExtends(s: Pool, info: seq<Info>, p: nat, i: nat, e: Word)
    requires Typed(s, info) && p < s.count && info[p].Node? && info[p].level == 1 && i < 512 && Present(e)
    ensures Extends(s, info, Write(s, p, i, e), info)
  {
    var t := Write(s, p, i, e);
    LeafTyped(s, info, p, i, e);
    forall b, w: nat, k | IsRoot(info, b) && 1 <= k <= 4 ensures Table(t, b, w, k) == Table(s, b, w, k) {
      SameAboveTable(s, info, t, b, w, k);
    }
    forall q, j | 0 <= q < s.count && info[q].Node? && info[q].level > 1 && 0 <= j < 512
      ensures Child(t, q, j) == Child(s, q, j)
    {
      SameAboveChild(s, info, t, q, j);
    }
  }

  /** Which slots a level 1 entry belongs to: slot v alone, in root r and in
      every root that shares r's table for it. */
  lemma {:induction false} LeafPosition(s: Pool, info: seq<Info>, r: nat, v: nat, b: nat, w: nat)
    requires Typed(s, info) && IsRoot(info, r) && IsRoot(info, b) && v < SLOTS && w < SLOTS
    requires Table(s, r, v, 1).Some?
    ensures Table(s, b, w, 1) == Table(s, r, v, 1) && Index(w, 1) == Index(v, 1) <==>
            w == v && (b == r || Shares(s, r, b, Index(v, 4)))
  {
    MissingAbove(s, r, v);
    if Table(s, b, w, 1) == Table(s, r, v, 1) && Index(w, 1) == Index(v, 1) {
      SamePosition(s, info, r, v, b, w, 1);
      PrefixDetermined(v, w, 0);
      assert Table(s, r, v, 3) == Child(s, r, Index(v, 4));
      assert Table(s, b, v, 3) == Child(s, b, Index(v, 4));
    }
    if w == v && (b == r || Shares(s, r, b, Index(v, 4))) {
      assert Table(s, r, v, 3) == Child(s, r, Index(v, 4));
      assert Table(s, b, v, 3) == Child(s, b, Index(v, 4));
      TableCongruence(s, r, v, b, v, 3, 1);
    }
  }

  lemma {:induction false} MissingAbove(s: Pool, r: nat, v: nat)
    requires r < s.count && Table(s, r, v, 1).Some?
    ensures Table(s, r, v, 2).Some? && Table(s, r, v, 3).Some?
  {
  }

  lemma {:induction false} LeafLookup(s: Pool, info: seq<Info>, r: nat, v: nat, e: Word, b: nat, w: nat)
    requires Typed(s, info) && IsRoot(info, r) && IsRoot(info, b) && v < SLOTS && w < SLOTS
    requires Table(s, r, v, 1).Some? && Present(e)
    ensures Lookup(Write(s, Table(s, r, v, 1).value, Index(v, 1), e), b, w) ==
            if w == v && (b == r || Shares(s, r, b, Index(v, 4))) then Some(Frame(e)) else Lookup(s, b, w)
  {
    assert e != 0;
    LeafTableSame(s, info, r, v, e, b, w);
    LeafPosition(s, info, r, v, b, w);
    hide Typed, Known, Table, Shares, Index, Frame, Present;
    var p := Table(s, r, v, 1).value;
    var t := Write(s, p, Index(v, 1), e);
    match Table(s, b, w, 1)
    case None =>
    case Some(q) =>
      assert !(q == p && Index(w, 1) == Index(v, 1)) ==> Entry(t, q, Index(w, 1)) == Entry(s, q, Index(w, 1));
  }

  lemma {:induction false} LeafTableSame(s: Pool, info: seq<Info>, r: nat, v: nat, e: Word, b: nat, w: nat)
    requires Typed(s, info) && IsRoot(info, r) && IsRoot(info, b) && Table(s, r, v, 1).Some? && Present(e)
    ensures Table(Write(s, Table(s, r, v, 1).value, Index(v, 1), e), b, w, 1) == Table(s, b, w, 1)
  {
    hide Index, Present;
    var p := Table(s, r, v, 1).value;
    TableTyped(s, info, r, v, 1);
    LeafTyped(s, info, p, Index(v, 1), e);
    SameAboveTable(s, info, Write(s, p, Index(v, 1), e), b, w, 1);
  }

  lemma {:induction false} LeafUserBits(s: Pool, info: seq<Info>, r: nat, v: nat, e: Word)
    requires Typed(s, info) && IsRoot(info, r) && Table(s, r, v, 1).Some? && Present(e)
    requires UserBits(s, info) && User(e) == (Index(v, 4) < 256)
    ensures Known(s, info) && UserBits(Write(s, Table(s, r, v, 1).value, Index(v, 1), e), info)
  {
    hide Index, Present, User;
    var p := Table(s, r, v, 1).value;
    var t := Write(s, p, Index(v, 1), e);
    TableTyped(s, info, r, v, 1);
    LeafTyped(s, info, p, Index(v, 1), e);
    forall b, w: nat, k | IsRoot(info, b) && 1 <= k <= 4 ensures UserBit(t, b, w, k) {
      SameAboveTable(s, info, t, b, w, k);
      TableTyped(s, info, b, w, k);
      assert UserBit(s, b, w, k);
      if Table(s, b, w, k) == Some(p) { SamePosition(s, info, r, v, b, w, 1); }
    }
  }

  /** The number of tables MapPage has to create for a slot. */
  function Needed(s: Pool, r: nat, v: nat): nat
    requires r < s.count
  {
    Missing(s, r, v, 3) + Missing(s, r, v, 2) + Missing(s, r, v, 1)
  }

  /** What creating the missing tables of slot v does, down to a level. */
  ghost predicate Ensured(s: Pool, info: seq<Info>, r: nat, v: nat, global: bool, t: Pool, info': seq<Info>, p: nat,
                          level: nat)
  {
    && Extends(s, info, t, info') && IsRoot(info, r) && 1 <= level <= 3
    && Table(t, r, v, level) == Some(p)
    && (forall b, w: nat :: IsRoot(info, b) ==> Lookup(t, b, w) == Lookup(s, b, w))
    && (forall k :: 1 <= k < level ==> Missing(t, r, v, k) == Missing(s, r, v, k))
    && (UserBits(s, info) && global == (Index(v, 4) >= 256) ==> UserBits(t, info'))
  }

  lemma ExtendsTransitive(s: Pool, info: seq<Info>, t: Pool, info': seq<Info>, u: Pool, info'': seq<Info>)
    requires Extends(s, info, t, info') && Extends(t, info', u, info'')
    ensures Extends(s, info, u, info'')
  {
  }

  lemma EnsuredTransitive(s: Pool, info: seq<Info>, r: nat, v: nat, global: bool, t: Pool, info': seq<Info>, p: nat,
                          u: Pool, info'': seq<Info>, p': nat, level: nat)
    requires 1 <= level <= 2
    requires Ensured(s, info, r, v, global, t, info', p, level + 1)
             && Ensured(t, info', r, v, global, u, info'', p', level)
    ensures Ensured(s, info, r, v, global, u, info'', p', level)
  {
    ExtendsTransitive(s, info, t, info', u, info'');
  }

  lemma EnsureTablesEffect(s: Pool, info: seq<Info>, r: nat, v: nat, global: bool)
    returns (info': seq<Info>)
    requires Typed(s, info) && IsRoot(info, r)
    ensures var o := EnsureTables(s, r, v, global);
            if Needed(s, r, v) > FreePages(s) then o == Bugcheck
            else
              && o.Done? && Ensured(s, info, r, v, global, o.value.0, info', o.value.1, 1)
              && FreePages(o.value.0) == FreePages(s) - Needed(s, r, v)
  {
    info' := EnsureLevel(s, info, r, v, 4, global, true);
    if Missing(s, r, v, 3) > FreePages(s) { return; }
    var (s3, p3) := EnsureTable(s, r, Index(v, 4), global, true).value;
    var info2 := EnsureLevel(s3, info', r, v, 3, global, true);
    if Missing(s, r, v, 2) > FreePages(s3) { return; }
    var (s2, p2) := EnsureTable(s3, p3, Index(v, 3), global, true).value;
    EnsuredTransitive(s, info, r, v, global, s3, info', p3, s2, info2, p2, 2);
    var info1 := EnsureLevel(s2, info2, r, v, 2, global, false);
    if Missing(s, r, v, 1) > FreePages(s2) { return; }
    var (s1, p1) := EnsureTable(s2, p2, Index(v, 2), global, false).value;
    EnsuredTransitive(s, info, r, v, global, s2, info2, p2, s1, info1, p1, 1);
    info' := info1;
  }

  /** The abstract map after writing a range through root r, seen from root b. */
  function Overlay(s: Pool, r: nat, b: nat, w: nat, range: map<nat, nat>): Option<nat>
    requires r < s.count && b < s.count
  {
    if w in range && (b == r || Shares(s, r, b, Index(w, 4))) then Some(range[w]) else Lookup(s, b, w)
  }

  /** t maps what s maps with the range overlaid on root r and on the roots
      that share r's top tables. */
  ghost predicate RangeMapped(s: Pool, info: seq<Info>, r: nat, range: map<nat, nat>, t: Pool)
    requires |info| == s.count == t.count && r < s.count
  {
    forall b, w :: IsRoot(info, b) && 0 <= w < SLOTS ==> Lookup(t, b, w) == Overlay(s, r, b, w, range)
  }

  ghost predicate PageMapped(s: Pool, info: seq<Info>, r: nat, v: nat, f: nat, t: Pool)
    requires |info| == s.count == t.count && r < s.count
  {
    RangeMapped(s, info, r, map[v := f], t)
  }

  /** MapPage on a typed tree bugchecks exactly when the pool cannot supply the
      missing tables; otherwise it takes exactly those, maps slot v in root r
      and in the roots that share its top table, and changes no other mapping
      of any root. */
  lemma MapPageEffect(s: Pool, info: seq<Info>, r: nat, va: Word, pa: Word, global: bool)
    returns (info': seq<Info>)
    requires Typed(s, info) && IsRoot(info, r)
    ensures var o := MapPage(s, PageAddress(s, r), va, pa, global);
            var v := Slot(va);
            if Needed(s, r, v) > FreePages(s) then o == Bugcheck
            else
              && o.Done? && Extends(s, info, o.value, info')
              && FreePages(o.value) == FreePages(s) - Needed(s, r, v)
              && Table(o.value, r, v, 1).Some?
              && PageMapped(s, info, r, v, Frame(pa), o.value)
              && (UserBits(s, info) && global == (Index(v, 4) >= 256) ==> UserBits(o.value, info'))
  {
    hide Linked, Table, Lookup, Entry, Child, Owned, Exclusive, UserBits, Shares, Slot, Index, Frame, PageMapped;
    var v := Slot(va);
    PageAddressFrame(s, r);
    assert r >= 1;
    info' := EnsureTablesEffect(s, info, r, v, global);
    if Needed(s, r, v) > FreePages(s) { return; }
    var (t, p) := EnsureTables(s, r, v, global).value;
    LeafEffect(s, info, r, v, global, t, info', p, LeafEntry(pa, global));
    FreePagesSame(t, Write(t, p, Index(v, 1), LeafEntry(pa, global)), 1);
  }

  lemma {:induction false} LeafEffect(s: Pool, info: seq<Info>, r: nat, v: nat, global: bool, t: Pool,
                                      info': seq<Info>, p: nat, e: Word)
    requires Ensured(s, info, r, v, global, t, info', p, 1) && v < SLOTS
    requires Present(e) && User(e) == !global
    ensures var u := Write(t, p, Index(v, 1), e);
            && Extends(s, info, u, info') && Table(u, r, v, 1).Some? && PageMapped(s, info, r, v, Frame(e), u)
            && (UserBits(s, info) && global == (Index(v, 4) >= 256) ==> UserBits(u, info'))
  {
    var u := Write(t, p, Index(v, 1), e);
    TableTyped(t, info', r, v, 1);
    LeafExtends(t, info', p, Index(v, 1), e);
    ExtendsTransitive(s, info, t, info', u, info');
    ExtendsShares(s, info, t, info');
    LeafMapped(s, info, r, v, t, info', e);
    if UserBits(s, info) && global == (Index(v, 4) >= 256) { LeafUserBits(t, info', r, v, e); }
  }

  /** No two roots start or stop sharing a top table. */
  ghost predicate SharesSame(s: Pool, info: seq<Info>, t: Pool)
    requires |info| == s.count == t.count
  {
    forall a, b, i :: IsRoot(info, a) && IsRoot(info, b) && a != b && 0 <= i < 512 ==>
        Shares(t, a, b, i) == Shares(s, a, b, i)
  }

  lemma ExtendsShares(s: Pool, info: seq<Info>, t: Pool, info': seq<Info>)
    requires Extends(s, info, t, info')
    ensures SharesSame(s, info, t)
  {
    forall a, b, i | IsRoot(info, a) && IsRoot(info, b) && a != b && 0 <= i < 512
      ensures Shares(t, a, b, i) == Shares(s, a, b, i)
    {
      var v := Compose(i, 0, 0, 0);
      assert Table(s, a, v, 3) == Child(s, a, i) && Table(s, b, v, 3) == Child(s, b, i);
      assert Table(t, a, v, 3) == Child(t, a, i) && Table(t, b, v, 3) == Child(t, b, i);
    }
  }

  lemma {:induction false} LeafMapped(s: Pool, info: seq<Info>, r: nat, v: nat, t: Pool, info': seq<Info>, e: Word)
    requires Typed(t, info') && |info| == s.count == t.count && IsRoot(info, r) && v < SLOTS
    requires forall b :: IsRoot(info, b) <==> IsRoot(info', b)
    requires forall b, w: nat :: IsRoot(info, b) ==> Lookup(t, b, w) == Lookup(s, b, w)
    requires SharesSame(s, info, t) && Table(t, r, v, 1).Some? && Present(e)
    ensures PageMapped(s, info, r, v, Frame(e), Write(t, Table(t, r, v, 1).value, Index(v, 1), e))
  {
    var u := Write(t, Table(t, r, v, 1).value, Index(v, 1), e);
    forall b, w | IsRoot(info, b) && 0 <= w < SLOTS
      ensures Lookup(u, b, w) == Overlay(s, r, b, w, map[v := Frame(e)])
    {
      LeafLookup(t, info', r, v, e, b, w);
    }
  }
}
