/** Runs of the page tables over any number of roots: the kernel's own root,
    the root of each process, and every MapPages through any of them. */
module Runs {
  import opened Layout
  import opened PagePool
  import opened Tables
  import opened Tree
  import opened Mapping
  import opened Ranges
  import opened Roots

  /** The pool and the pages handed out as roots so far. */
  datatype Config = Config(pool: Pool, roots: set<nat>)

  /** CreateNew; CreateNew and LoadKernelMappings while src is the current
      root, as a process does it; MapPages. */
  datatype Op =
    | Create
    | Spawn(src: nat)
    | Map(root: nat, va: Word, pa: Word, n: nat, global: bool)

  function Apply(c: Config, op: Op): (o: Outcome<Config>) {
    match op
    case Create =>
      var (t, r) :- CreateNew(c.pool);
      Done(Config(t, c.roots + {r}))
    case Spawn(src) =>
      if src !in c.roots || src >= c.pool.count then Foreign
      else
        var (t, r) :- CreateNew(c.pool);
        Done(Config(CopyUpper(t, r, src, 256), c.roots + {r}))
    case Map(root, va, pa, n, global) =>
      if root !in c.roots || root >= c.pool.count then Foreign
      else
        var t :- MapPages(c.pool, PageAddress(c.pool, root), va, pa, n, global);
        Done(Config(t, c.roots))
  }

  function Execute(c: Config, ops: seq<Op>): (o: Outcome<Config>)
    decreases |ops|
  {
    if |ops| == 0 then Done(c)
    else
      var d :- Execute(c, ops[..|ops| - 1]);
      Apply(d, ops[|ops| - 1])
  }

  /** Initialize clears the index page; the pool's other pages are as the
      loader left them. */
  function Initialize(s: Pool): (t: Pool) { s.(index := seq(4096, _ => false)) }

  ghost predicate Zeroed(s: Pool) {
    forall q, i :: 1 <= q < s.count && 0 <= i < 512 ==> Entry(s, q, i) == 0
  }

  // ----- The invariant -----

  ghost predicate Shape(c: Config, info: seq<Info>) {
    && Typed(c.pool, info) && Owned(c.pool, info)
    && (forall r :: r in c.roots <==> IsRoot(info, r))
  }

  ghost predicate WellFormed(c: Config) {
    exists info :: Shape(c, info)
  }

  lemma StartShape(s: Pool)
    requires Zeroed(s)
    ensures var info := seq(s.count, _ => Free);
            var c := Config(Initialize(s), {});
            Shape(c, info) && Exclusive(c.pool, info) && UserBits(c.pool, info)
  {
    var t := Initialize(s);
    assert forall q, i :: 0 <= q < s.count && 0 <= i < 512 ==> Entry(t, q, i) == Entry(s, q, i);
  }

  /** What a step keeps of an earlier configuration. It is transitive. */
  ghost predicate Kept(c: Config, d: Config) {
    && d.pool.count == c.pool.count && d.pool.base == c.pool.base && c.roots <= d.roots
    && (forall i :: 0 <= i < 512 ==> Entry(d.pool, 0, i) == Entry(c.pool, 0, i))
    && (forall b, w: nat, k :: b in c.roots && b < c.pool.count && 1 <= k <= 4 && Table(c.pool, b, w, k).Some? ==>
          Table(d.pool, b, w, k) == Table(c.pool, b, w, k))
  }

  /** A step that keeps pages in their half. */
  ghost predicate OpInItsHalf(op: Op) {
    op.Map? ==> InItsHalf(Pages(op.va, op.pa, op.n), op.global)
  }

  ghost predicate StepOk(c: Config, info: seq<Info>, op: Op, d: Config, info': seq<Info>) {
    && Shape(c, info) && Shape(d, info') && Kept(c, d)
    && (Exclusive(c.pool, info) && !op.Spawn? ==> Exclusive(d.pool, info'))
    && (UserBits(c.pool, info) && OpInItsHalf(op) ==> UserBits(d.pool, info'))
  }

  lemma CreateStep(c: Config, info: seq<Info>)
    requires Shape(c, info) && Apply(c, Create).Done?
    ensures var (t, r) := CreateNew(c.pool).value;
            StepOk(c, info, Create, Config(t, c.roots + {r}), AddRoot(info, r)) && Created(c.pool, info, t, r)
  {
    hide Index, Linked, Lookup, UserBits, Exclusive;
    var (t, r) := CreateNew(c.pool).value;
    CreatedEffect(c.pool, info, t, r);
    CreatedTyped(c.pool, info, t, r);
    hide Owned, Typed;
    forall b, w: nat, k | b in c.roots && b < c.pool.count && 1 <= k <= 4 && Table(c.pool, b, w, k).Some?
      ensures Table(t, b, w, k) == Table(c.pool, b, w, k)
    {
      SameEntriesTable(c.pool, t, b, w, k);
    }
  }

  lemma SpawnStep(c: Config, info: seq<Info>, src: nat)
    requires Shape(c, info) && Apply(c, Spawn(src)).Done?
    ensures StepOk(c, info, Spawn(src), Apply(c, Spawn(src)).value, AddRoot(info, CreateNew(c.pool).value.1))
  {
    var (t, r) := CreateNew(c.pool).value;
    CreateStep(c, info);
    var u := CopyUpper(t, r, src, 256);
    var info' := AddRoot(info, r);
    CreatedTyped(c.pool, info, t, r);
    assert UpperReplaced(t, u, r, src, false);
    UpperTyped(t, info', u, r, src, false);
    forall i | 256 <= i < 512 ensures Entry(t, r, i) == 0 { assert Entry(c.pool, r, i) == 0; }
    LoadOwned(t, info', u, r, src);
    forall b, w: nat, k | b in c.roots && b < c.pool.count && 1 <= k <= 4 && Table(c.pool, b, w, k).Some?
      ensures Table(u, b, w, k) == Table(c.pool, b, w, k)
    {
      assert IsRoot(info', b) && b != r;
      if k < 4 { UpperTable(t, info', u, r, src, false, b, w, k); }
    }
    if UserBits(c.pool, info) { UpperUserBits(t, info', u, r, src, false); }
  }

  lemma MapStep(c: Config, info: seq<Info>, op: Op) returns (info': seq<Info>)
    requires op.Map? && Shape(c, info) && Apply(c, op).Done?
    ensures StepOk(c, info, op, Apply(c, op).value, info')
    ensures MappedTo(c.pool, info, op.root, Range(Pages(op.va, op.pa, op.n)),
            InItsHalf(Pages(op.va, op.pa, op.n), op.global),
                     Apply(c, op).value.pool, info')
  {
    hide Range, Pages, MapAll, Table, Lookup, Entry, Typed, Linked, Owned, Exclusive, UserBits, InItsHalf, RangeMapped;
    info' := MapAllEffect(c.pool, info, op.root, Pages(op.va, op.pa, op.n), op.global);
  }

  lemma ApplyStep(c: Config, info: seq<Info>, op: Op) returns (info': seq<Info>)
    requires Shape(c, info) && Apply(c, op).Done?
    ensures StepOk(c, info, op, Apply(c, op).value, info')
  {
    match op
    case Create => CreateStep(c, info); info' := AddRoot(info, CreateNew(c.pool).value.1);
    case Spawn(src) => SpawnStep(c, info, src); info' := AddRoot(info, CreateNew(c.pool).value.1);
    case Map(_, _, _, _, _) => info' := MapStep(c, info, op);
  }

  lemma {:induction false} ExecuteRun(c: Config, info: seq<Info>, ops: seq<Op>) returns (info': seq<Info>)
    requires Shape(c, info) && Execute(c, ops).Done?
    ensures var d := Execute(c, ops).value;
            && Shape(d, info') && Kept(c, d)
            && (Exclusive(c.pool, info) && (forall op :: op in ops ==> !op.Spawn?) ==> Exclusive(d.pool, info'))
            && (UserBits(c.pool, info) && (forall op :: op in ops ==> OpInItsHalf(op)) ==> UserBits(d.pool, info'))
    decreases |ops|
  {
    info' := info;
    var n := |ops|;
    if n > 0 {
      var d := Execute(c, ops[..n - 1]).value;
      var info1 := ExecuteRun(c, info, ops[..n - 1]);
      info' := ApplyStep(d, info1, ops[n - 1]);
      assert ops[n - 1] in ops && forall op :: op in ops[..n - 1] ==> op in ops;
    }
  }
}
