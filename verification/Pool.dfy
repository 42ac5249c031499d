/** PageTablesPool (src/mem/PageTablesPool.cpp) as a value: the bool index of
    page 0 and the pool's pages as one flat array of 64-bit words, 512 a page. */
module PagePool {
  import opened Basics
  import opened Layout

  /** What an operation of the page tables ends in: a value, a failed Assert
      (Bugcheck does not return), or a walk that leaves the pool's own pages
      for tables reached by their identity address, which are not modelled. */
  datatype Outcome<+T> = Done(value: T) | Bugcheck | Foreign {
    predicate IsFailure() { !Done? }
    function PropagateFailure<U>(): Outcome<U> requires IsFailure() {
      if Bugcheck? then Bugcheck else Foreign
    }
    function Extract(): T requires Done? { value }
  }

  datatype PoolData = PoolData(base: Word, count: nat, index: seq<bool>, mem: seq<Word>) {
    predicate Valid() {
      && base % 4096 == 0
      && 1 <= count < 4096
      && base + count * 4096 <= WORDS
      && |index| == 4096
      && |mem| == count * 512
    }
  }

  type Pool = s: PoolData | s.Valid()
    witness PoolData(0, 1, seq(4096, _ => false), seq(512, _ => 0))

  function Entry(s: Pool, q: nat, i: nat): Word
    requires q < s.count && i < 512
  {
    s.mem[q * 512 + i]
  }

  function Write(s: Pool, q: nat, i: nat, e: Word): (t: Pool)
    requires q < s.count && i < 512
    ensures t.base == s.base && t.count == s.count && t.index == s.index
    ensures Entry(t, q, i) == e
    ensures forall q', i' :: 0 <= q' < s.count && 0 <= i' < 512 && !(q' == q && i' == i) ==>
              Entry(t, q', i') == Entry(s, q', i')
  {
    s.(mem := s.mem[q * 512 + i := e])
  }

  function PageAddress(s: Pool, page: nat): (a: Word)
    requires page < s.count
  {
    s.base + page * 4096
  }

  /** The pool page holding a physical address; outside 1..count-1 when the
      address is not in a table page of the pool (GetVirtualAddress then falls
      back on the identity address, or lands on the index page). */
  function PageOf(s: Pool, address: Word): int
  {
    address / 4096 - s.base / 4096
  }

  /** The first unset index entry at or after i, or count. */
  function FirstFree(s: Pool, i: nat): (k: nat)
    requires i <= s.count
    ensures i <= k <= s.count
    ensures forall j :: i <= j < k ==> s.index[j]
    ensures k < s.count ==> !s.index[k]
    decreases s.count - i
  {
    if i == s.count || !s.index[i] then i else FirstFree(s, i + 1)
  }

  function Allocate(s: Pool): (r: Outcome<(Pool, nat)>)
    ensures !r.Foreign?
    ensures r.Done? ==> 1 <= r.value.1 < s.count && !s.index[r.value.1]
    ensures r.Done? ==> forall j :: 1 <= j < r.value.1 ==> s.index[j]
    ensures r.Done? ==> r.value.0 == s.(index := s.index[r.value.1 := true])
    ensures r.Bugcheck? <==> forall j :: 1 <= j < s.count ==> s.index[j]
  {
    var k := FirstFree(s, 1);
    if k < s.count then Done((s.(index := s.index[k := true]), k)) else Bugcheck
  }

  /** DeallocatePage: three asserts, then the index entry is cleared. */
  function Deallocate(s: Pool, address: Word): (r: Outcome<Pool>)
  {
    var page := PageOf(s, address);
    // address - base is unsigned: below the base it wraps to an index past count
    if address % 4096 == 0 && 0 <= page < s.count && s.index[page]
    then Done(s.(index := s.index[page := false]))
    else Bugcheck
  }

  /** The number of free table pages from page i on. */
  function FreeFrom(s: Pool, i: nat): nat
    requires i <= s.count
    decreases s.count - i
  {
    if i == s.count then 0 else (if s.index[i] then 0 else 1) + FreeFrom(s, i + 1)
  }

  function FreePages(s: Pool): nat { FreeFrom(s, 1) }

  lemma {:induction false} FreeFromUpdate(s: Pool, t: Pool, i: nat, k: nat)
    requires t.count == s.count && k < s.count && i <= s.count
    requires !s.index[k] && t.index == s.index[k := true]
    ensures FreeFrom(t, i) == FreeFrom(s, i) - (if i <= k then 1 else 0)
    decreases s.count - i
  {
    if i < s.count { FreeFromUpdate(s, t, i + 1, k); }
  }

  lemma {:induction false} FreeFromZero(s: Pool, i: nat)
    requires i <= s.count
    ensures FreeFrom(s, i) == 0 <==> forall j :: i <= j < s.count ==> s.index[j]
    decreases s.count - i
  {
    if i < s.count { FreeFromZero(s, i + 1); }
  }

  /** AllocatePage succeeds exactly when a page is free, and takes one. */
  lemma AllocateTakesOne(s: Pool)
    ensures Allocate(s).Done? <==> FreePages(s) > 0
    ensures Allocate(s).Done? ==> FreePages(Allocate(s).value.0) == FreePages(s) - 1
  {
    FreeFromZero(s, 1);
    if Allocate(s).Done? { FreeFromUpdate(s, Allocate(s).value.0, 1, Allocate(s).value.1); }
  }

  /** DeallocatePage succeeds exactly for the address of an allocated page, and
      then marks that page free and no other. */
  lemma DeallocateExactly(s: Pool, address: Word)
    ensures Deallocate(s, address).Done? <==> exists k :: 0 <= k < s.count && address == PageAddress(s, k) && s.index[k]
    ensures forall k :: 0 <= k < s.count && address == PageAddress(s, k) && s.index[k] ==>
              var t := Deallocate(s, address).value;
              && t.mem == s.mem && t.base == s.base && t.count == s.count && |t.index| == |s.index|
              && forall j :: 0 <= j < |s.index| ==> t.index[j] == (s.index[j] && j != k)
  {
    var page := PageOf(s, address);
    if Deallocate(s, address).Done? { assert address == PageAddress(s, page); }
    forall k | 0 <= k < s.count && address == PageAddress(s, k) ensures page == k && address % 4096 == 0 {
      DivMod(address, 4096, s.base / 4096 + k, 0);
    }
  }

  /** Deallocating the page just allocated restores the pool. */
  lemma DeallocateUndoesAllocate(s: Pool)
    requires Allocate(s).Done?
    ensures var (t, k) := Allocate(s).value; Deallocate(t, PageAddress(t, k)) == Done(s)
  {
    var (t, k) := Allocate(s).value;
    assert PageOf(t, PageAddress(t, k)) == k;
    assert t.index[k := false] == s.index;
  }

  /** The state MapPage relies on: pages not handed out hold only zeroes. */
  ghost predicate ZeroedFree(s: Pool) {
    forall q, i :: 1 <= q < s.count && !s.index[q] && 0 <= i < 512 ==> Entry(s, q, i) == 0
  }

  /** DeallocatePage does not clear the page, so it keeps that state exactly
      when the page was already clear. */
  lemma DeallocateKeepsZeroed(s: Pool, page: nat)
    requires ZeroedFree(s) && 1 <= page < s.count && s.index[page]
    ensures Deallocate(s, PageAddress(s, page)).Done?
    ensures ZeroedFree(Deallocate(s, PageAddress(s, page)).value) <==>
            forall i :: 0 <= i < 512 ==> Entry(s, page, i) == 0
  {
    assert PageOf(s, PageAddress(s, page)) == page;
    var t := Deallocate(s, PageAddress(s, page)).value;
    assert forall q, i :: 1 <= q < s.count && 0 <= i < 512 ==> Entry(t, q, i) == Entry(s, q, i);
    if ZeroedFree(t) {
      forall i | 0 <= i < 512 ensures Entry(s, page, i) == 0 { assert Entry(t, page, i) == 0; }
    }
  }
}
