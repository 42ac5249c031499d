/** Kernel::MapPhysicalMemory (src/kernel/Kernel.cpp): physical ranges, of any
    alignment, seen through one window of the kernel half. */
module KernelMaps {
  import opened Basics
  import opened Layout
  import opened PagePool
  import opened Tables
  import opened Tree
  import opened Mapping
  import opened Ranges
  import opened Roots
  import opened Runs
  import opened PageTheorems

  /** The MapPages call a request makes, with its 64-bit arithmetic. */
  function RequestOp(root: nat, window: Word, pa: Word, length: Word): (op: Op)
    ensures op.Map? && op.root == root && op.global
  {
    var pageOffset := pa % 4096;
    var pageCount := (pageOffset + length + 4095) % WORDS / 4096;
    var physicalBase := pa - pageOffset;
    Map(root, (window + physicalBase) % WORDS, physicalBase, pageCount, true)
  }

  /** The pointer a request returns. */
  function RequestPointer(window: Word, pa: Word): Word { (window + pa) % WORDS }

  /** The window lies in the upper half and the request does not run past 2^64. */
  predicate InWindow(window: Word, pa: Word, length: Word) {
    window % 4096 == 0 && window >= 0xFFFF_8000_0000_0000 && window + pa < WORDS && window + pa + length <= WORDS
  }

  /** The step writes no other frame into slot w. */
  ghost predicate Spares(op: Op, w: nat, f: nat) {
    op.Map? ==> forall i :: 0 <= i < op.n && Slot(Advance(op.va, i)) == w ==> Frame(Advance(op.pa, i)) == f
  }

  /** The step writes no other frame into the slots of the request. */
  ghost predicate Leaves(op: Op, request: Op)
    requires request.Map?
  {
    forall j :: 0 <= j < request.n ==> Spares(op, Slot(Advance(request.va, j)), Frame(Advance(request.pa, j)))
  }

  /** The slot of page f of the window. */
  lemma WindowSlot(window: Word, f: nat)
    requires window % 4096 == 0 && window >= 0xFFFF_8000_0000_0000 && window + f * 4096 < WORDS
    ensures Slot(window + f * 4096) == Slot(window) + f
  {
    var a := window / 4096;
    DivMod(window + f * 4096, 4096, a + f, 0);
    CanonicalReduced(a);
    CanonicalReduced(a + f);
  }

  /** The numbers of a request that does not wrap. */
  lemma RequestShape(root: nat, window: Word, pa: Word, length: Word)
    requires InWindow(window, pa, length)
    ensures var op := RequestOp(root, window, pa, length);
            && op.Map? && op.root == root && op.va == window + op.pa && op.pa == pa / 4096 * 4096
            && op.va % 4096 == 0 && op.pa % 4096 == 0
            && op.va + op.n * 4096 <= WORDS && op.pa + op.n * 4096 <= WORDS && op.n <= SLOTS
            && pa + length <= op.pa + op.n * 4096 < pa + length + 4096
  {
    var w, p, off := window / 4096, pa / 4096, pa % 4096;
    var total := off + length + 4095;
    var n, rest := total / 4096, total % 4096;
    PagesFit(w, p, off, length, n, rest);
    DivMod(total, WORDS, 0, total);
    DivMod(window + p * 4096, WORDS, 0, window + p * 4096);
    DivMod(window + p * 4096, 4096, w + p, 0);
    DivMod(p * 4096, 4096, p, 0);
  }

  lemma PagesFit(w: nat, p: nat, off: nat, length: nat, n: nat, rest: nat)
    requires w * 4096 + p * 4096 + off + length <= WORDS && w * 4096 + p * 4096 + off < WORDS
    requires w >= 0xF_FFF8_0000_0000 && off < 4096 && rest < 4096 && off + length + 4095 == n * 4096 + rest
    ensures off + length + 4095 < WORDS && (w + p + n) * 4096 <= WORDS && n <= SLOTS
    ensures off + length <= n * 4096 < off + length + 4096
  {
  }

  /** Requests in one window, overlapping or not, leave each other alone:
      each maps slot k of the window to frame k. */
  lemma RequestsAgree(root: nat, root': nat, window: Word, pa: Word, length: Word, pa': Word, length': Word)
    requires InWindow(window, pa, length) && InWindow(window, pa', length')
    ensures Leaves(RequestOp(root, window, pa, length), RequestOp(root', window, pa', length'))
  {
    hide Slot, Frame, Advance, RequestOp;
    RequestShape(root, window, pa, length);
    RequestShape(root', window, pa', length');
    var op, op' := RequestOp(root, window, pa, length), RequestOp(root', window, pa', length');
    forall i, j | 0 <= i < op.n && 0 <= j < op'.n && Slot(Advance(op.va, i)) == Slot(Advance(op'.va, j))
      ensures Frame(Advance(op.pa, i)) == Frame(Advance(op'.pa, j))
    {
      PageOfRequest(window, op.pa, op.n, i);
      PageOfRequest(window, op'.pa, op'.n, j);
    }
  }

  lemma PageOfRequest(window: Word, base: Word, n: nat, i: nat)
    requires window % 4096 == 0 && window >= 0xFFFF_8000_0000_0000 && base % 4096 == 0
    requires window + base + n * 4096 <= WORDS && i < n
    ensures Slot(Advance(window + base, i)) == Slot(window) + Frame(Advance(base, i))
  {
    var f := base / 4096 + i;
    DivMod(window + base + i * 4096, WORDS, 0, window + base + i * 4096);
    DivMod(base + i * 4096, WORDS, 0, base + i * 4096);
    DivMod(base + i * 4096, 4096, f, 0);
    WindowSlot(window, f);
  }

  /** A mapped slot stays mapped as it is through any step that spares it, in
      any root. */
  lemma StepKeepsSlot(c: Config, op: Op, d: Config, b: nat, w: nat, f: nat)
    requires WellFormed(c) && Apply(c, op) == Done(d) && Spares(op, w, f)
    requires b in c.roots && b < c.pool.count && w < SLOTS && Lookup(c.pool, b, w) == Some(f)
    ensures WellFormed(d) && b in d.roots && b < d.pool.count && Lookup(d.pool, b, w) == Some(f)
  {
    hide Lookup, Slot, Frame, Advance, MapPages, Table;
    var info :| Shape(c, info);
    assert WellFormed(d) && Kept(c, d) by {
      var info' := ApplyStep(c, info, op);
      assert Shape(d, info');
    }
    match op
    case Create => OtherRootsKept(c, info, b, w);
    case Spawn(src) => SpawnKept(c, info, src, b, w);
    case Map(_, _, _, _, _) => MapKeepsSlot(c, op, d, b, w, f);
  }

  lemma MapKeepsSlot(c: Config, op: Op, d: Config, b: nat, w: nat, f: nat)
    requires WellFormed(c) && op.Map? && Apply(c, op) == Done(d) && Spares(op, w, f)
    requires b in c.roots && b < c.pool.count && w < SLOTS && Lookup(c.pool, b, w) == Some(f)
    ensures b < d.pool.count && Lookup(d.pool, b, w) == Some(f)
  {
    hide Lookup, Slot, Frame, Advance, MapPages, Table, Typed, WellFormed;
    var pages := Pages(op.va, op.pa, op.n);
    var info1, info2 := MapPagesLookup(c, op.root, op.va, op.pa, op.n, op.global, d.pool);
    assert Lookup(d.pool, b, w) == Overlay(c.pool, op.root, b, w, Range(pages));
    if w in Range(pages) {
      forall i | 0 <= i < |pages| && Slot(pages[i].0) == w ensures Frame(pages[i].1) == f {
        assert pages[i] == (Advance(op.va, i), Advance(op.pa, i));
      }
      RangeSpares(pages, w, f);
    }
  }

  lemma OtherRootsKept(c: Config, info: seq<Info>, b: nat, w: nat)
    requires Shape(c, info) && Apply(c, Create).Done? && b in c.roots && b < c.pool.count
    ensures b < Apply(c, Create).value.pool.count && Lookup(Apply(c, Create).value.pool, b, w) == Lookup(c.pool, b, w)
  {
    var (t, r) := CreateNew(c.pool).value;
    CreatedEffect(c.pool, info, t, r);
    assert IsRoot(info, b);
  }

  lemma SpawnKept(c: Config, info: seq<Info>, src: nat, b: nat, w: nat)
    requires Shape(c, info) && Apply(c, Spawn(src)).Done? && b in c.roots && b < c.pool.count
    ensures b < Apply(c, Spawn(src)).value.pool.count
            && Lookup(Apply(c, Spawn(src)).value.pool, b, w) == Lookup(c.pool, b, w)
  {
    var (t, r) := CreateNew(c.pool).value;
    OtherRootsKept(c, info, b, w);
    CreateStep(c, info);
    var d := Apply(c, Spawn(src)).value;
    assert IsRoot(info, b) && IsRoot(info, src) && info[r].Free?;
    UpperEffect(t, AddRoot(info, r), d.pool, r, src, false, b, w);
  }

  lemma {:induction false} RangeSpares(pages: seq<(Word, Word)>, w: nat, f: nat)
    requires w in Range(pages)
    requires forall i :: 0 <= i < |pages| && Slot(pages[i].0) == w ==> Frame(pages[i].1) == f
    ensures Range(pages)[w] == f
    decreases |pages|
  {
    hide Slot, Frame;
    var n := |pages| - 1;
    if w != Slot(pages[n].0) { RangeSpares(pages[..n], w, f); }
  }

  lemma {:induction false} RunKeepsSlot(c: Config, ops: seq<Op>, d: Config, b: nat, w: nat, f: nat)
    requires WellFormed(c) && Execute(c, ops) == Done(d) && (forall op :: op in ops ==> Spares(op, w, f))
    requires b in c.roots && b < c.pool.count && w < SLOTS && Lookup(c.pool, b, w) == Some(f)
    ensures WellFormed(d) && b in d.roots && b < d.pool.count && Lookup(d.pool, b, w) == Some(f)
    decreases |ops|
  {
    hide Lookup, WellFormed, Apply, Spares;
    if |ops| > 0 {
      var n := |ops| - 1;
      var e := Execute(c, ops[..n]).value;
      assert ops[n] in ops && forall op :: op in ops[..n] ==> op in ops;
      RunKeepsSlot(c, ops[..n], e, b, w, f);
      StepKeepsSlot(e, ops[n], d, b, w, f);
    }
  }

  /** The root itself, or one that shares its top entry at slot w. */
  predicate SeesTop(s: Pool, root: nat, b: nat, w: nat)
    requires root < s.count && b < s.count
  {
    b == root || Shares(s, root, b, Index(w, 4))
  }

  /** A pointer returned by MapPhysicalMemory resolves to the byte it was asked
      for, over its whole length, in the requesting root and in every root that
      shares its top entry, after any later run of process creations, further
      requests, and mappings that write no other frame into its own slots. */
  lemma {:induction false} PointersStayValid(c: Config, root: nat, window: Word, pa: Word, length: Word,
                                             d: Config, later: seq<Op>, e: Config, k: nat)
    requires WellFormed(c) && InWindow(window, pa, length)
    requires Apply(c, RequestOp(root, window, pa, length)) == Done(d) && Execute(d, later) == Done(e)
    requires forall op :: op in later ==> Leaves(op, RequestOp(root, window, pa, length))
    requires k < length
    ensures root < e.pool.count && RequestPointer(window, pa) + k < WORDS
    ensures var x := RequestPointer(window, pa) + k;
            forall b :: b in e.roots && b < e.pool.count && SeesTop(e.pool, root, b, Slot(x)) ==>
                          Resolve(e.pool, PageAddress(e.pool, b), x) == Some(pa + k)
  {
    hide Slot, Frame, Advance, Lookup, Resolve, Apply, Execute, Spares, RequestOp, SeesTop, WellFormed, Leaves;
    hide PageAddress, RequestPointer, InWindow;
    var op := RequestOp(root, window, pa, length);
    var i := RequestByte(root, window, pa, length, k);
    var x, f := RequestPointer(window, pa) + k, (pa + k) / 4096;
    RequestLookup(c, op, d, i, x);
    forall op' | op' in later ensures Spares(op', Slot(x), f) { LeavesAt(op', op, i); }
    RunKeepsSlot(d, later, e, root, Slot(x), f);
    forall b | b in e.roots && b < e.pool.count && SeesTop(e.pool, root, b, Slot(x))
      ensures Resolve(e.pool, PageAddress(e.pool, b), x) == Some(pa + k)
    {
      SeenAlike(e.pool, root, b, Slot(x));
      ResolveWindow(e, b, x, f);
    }
  }

  lemma LeavesAt(op: Op, request: Op, i: nat)
    requires request.Map? && Leaves(op, request) && i < request.n
    ensures Spares(op, Slot(Advance(request.va, i)), Frame(Advance(request.pa, i)))
  {
    hide Slot, Advance, Frame, Spares;
  }

  /** Byte k of a request lies in its page i, at its own place. */
  lemma RequestByte(root: nat, window: Word, pa: Word, length: Word, k: nat) returns (i: nat)
    requires InWindow(window, pa, length) && k < length
    ensures var op := RequestOp(root, window, pa, length);
            && op.Map? && op.root == root && i < op.n <= SLOTS
            && RequestPointer(window, pa) + k < WORDS
            && var x, f := RequestPointer(window, pa) + k, (pa + k) / 4096;
            && Slot(x) == Slot(Advance(op.va, i)) && Frame(Advance(op.pa, i)) == f && f * 4096 + x % 4096 == pa + k
  {
    hide Slot, Frame, Advance, RequestOp;
    RequestShape(root, window, pa, length);
    var op := RequestOp(root, window, pa, length);
    DivMod(window + pa, WORDS, 0, window + pa);
    ByteInWindow(window, op.pa, op.n, pa + k);
    i := (pa + k) / 4096 - op.pa / 4096;
  }

  lemma SeenAlike(s: Pool, root: nat, b: nat, w: nat)
    requires root < s.count && b < s.count && SeesTop(s, root, b, w)
    ensures Lookup(s, b, w) == Lookup(s, root, w)
  {
    hide Lookup;
    if b != root {
      WalkUnfolds(s, root, w);
      WalkUnfolds(s, b, w);
      SameTopSameLookup(s, b, root, w);
    }
  }

  lemma ByteInWindow(window: Word, base: Word, n: nat, y: nat)
    requires window % 4096 == 0 && window >= 0xFFFF_8000_0000_0000 && base % 4096 == 0
    requires window + base + n * 4096 <= WORDS && base <= y < base + n * 4096
    ensures var f := y / 4096;
            && window + y < WORDS && (window + y) % 4096 == y % 4096 && f * 4096 + y % 4096 == y
            && base / 4096 <= f < base / 4096 + n
            && Slot(window + y) == Slot(window) + f
            && Slot(window + y) == Slot(Advance(window + base, f - base / 4096))
               && Frame(Advance(base, f - base / 4096)) == f
  {
    var f, o := y / 4096, y % 4096;
    var b := base / 4096;
    var i := f - b;
    DivMod(window + y, 4096, window / 4096 + f, o);
    WindowSlot(window, f);
    DivMod(window + f * 4096, 4096, window / 4096 + f, 0);
    DivMod(window + base + i * 4096, WORDS, 0, window + base + i * 4096);
    DivMod(base + i * 4096, WORDS, 0, base + i * 4096);
    DivMod(base + i * 4096, 4096, f, 0);
  }

  lemma RequestLookup(c: Config, op: Op, d: Config, i: nat, x: Word)
    requires WellFormed(c) && op.Map? && Apply(c, op) == Done(d) && i < op.n <= SLOTS
    requires Slot(x) == Slot(Advance(op.va, i))
    ensures WellFormed(d) && op.root in d.roots && op.root < d.pool.count && Slot(x) < SLOTS
    ensures Lookup(d.pool, op.root, Slot(x)) == Some(Frame(Advance(op.pa, i)))
  {
    var info :| Shape(c, info);
    var info' := ApplyStep(c, info, op);
    assert Shape(d, info');
    MapPagesByte(c, op.root, op.va, op.pa, op.n, op.global, d.pool, i, x);
  }

  lemma ResolveWindow(e: Config, root: nat, x: Word, f: nat)
    requires WellFormed(e) && root in e.roots && root < e.pool.count
    requires Lookup(e.pool, root, Slot(x)) == Some(f)
    ensures Resolve(e.pool, PageAddress(e.pool, root), x) == Some(f * 4096 + x % 4096)
  {
    hide Resolve, Lookup, Slot, Table, PageAddress;
    var info :| Shape(e, info);
    ResolveReads(e.pool, info, root, x);
  }

  /** The step is no mapping, or a request in the window. */
  ghost predicate OfWindow(window: Word, op: Op) {
    op.Map? ==> exists root, pa, length :: InWindow(window, pa, length) && op == RequestOp(root, window, pa, length)
  }

  lemma {:induction false} ExecuteSplits(c: Config, ops: seq<Op>, n: nat)
    requires n <= |ops| && Execute(c, ops).Done?
    ensures Execute(c, ops[..n]).Done? && Execute(c, ops) == Execute(Execute(c, ops[..n]).value, ops[n..])
    decreases |ops| - n
  {
    hide Apply;
    if n == |ops| {
      assert ops[..n] == ops && ops[n..] == [];
    } else {
      ExecuteSplits(c, ops, n + 1);
      assert ops[..n + 1][..n] == ops[..n] && ops[n..][1..] == ops[n + 1..];
      ExecuteFirst(Execute(c, ops[..n]).value, ops[n..]);
    }
  }

  lemma {:induction false} ExecuteFirst(c: Config, ops: seq<Op>)
    requires |ops| > 0 && Apply(c, ops[0]).Done?
    ensures Execute(c, ops) == Execute(Apply(c, ops[0]).value, ops[1..])
    decreases |ops|
  {
    hide Apply;
    var n := |ops| - 1;
    if n == 0 {
      assert ops[..0] == [] && ops[1..] == [];
    } else {
      ExecuteFirst(c, ops[..n]);
      assert ops[..n][1..] == ops[1..][..n - 1] && ops[1..][n - 1] == ops[n];
    }
  }

  /** In a run of requests in one window, by any roots, with roots created and
      copied between them, every pointer ever returned still resolves, over its
      whole length, in every root that shares the requester's top entry. */
  lemma {:induction false} AllPointersStayValid(c: Config, ops: seq<Op>, e: Config, j: nat, root: nat, window: Word,
                                                pa: Word, length: Word, k: nat)
    requires WellFormed(c) && Execute(c, ops) == Done(e) && (forall op :: op in ops ==> OfWindow(window, op))
    requires j < |ops| && InWindow(window, pa, length) && ops[j] == RequestOp(root, window, pa, length) && k < length
    ensures root < e.pool.count && RequestPointer(window, pa) + k < WORDS
    ensures var x := RequestPointer(window, pa) + k;
            forall b :: b in e.roots && b < e.pool.count && SeesTop(e.pool, root, b, Slot(x)) ==>
                          Resolve(e.pool, PageAddress(e.pool, b), x) == Some(pa + k)
  {
    hide Apply, Slot, Resolve, SeesTop, WellFormed, RequestOp, InWindow, Leaves, PageAddress, RequestPointer;
    var later := ops[j + 1..];
    ExecuteSplits(c, ops, j);
    ExecuteSplits(c, ops, j + 1);
    assert ops[..j + 1][..j] == ops[..j] && ops[..j + 1][j] == ops[j];
    var before := Execute(c, ops[..j]).value;
    RunKeeps(c, ops[..j], before);
    forall op | op in later ensures Leaves(op, RequestOp(root, window, pa, length)) {
      WindowLeaves(window, op, root, pa, length);
    }
    PointersStayValid(before, root, window, pa, length, Execute(c, ops[..j + 1]).value, later, e, k);
  }

  lemma WindowLeaves(window: Word, op: Op, root: nat, pa: Word, length: Word)
    requires OfWindow(window, op) && InWindow(window, pa, length)
    ensures Leaves(op, RequestOp(root, window, pa, length))
  {
    hide InWindow;
    if op.Map? {
      var root', pa', length' :| && InWindow(window, pa', length') && op == RequestOp(root', window, pa', length');
      RequestsAgree(root', root, window, pa', length', pa, length);
    }
  }
}
