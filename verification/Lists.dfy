/** The intrusive circular lists of src/OS.List.h. */
module Lists {

  class ListEntry {
    var Flink: ListEntry
    var Blink: ListEntry

    constructor ()
      ensures Flink == this && Blink == this
    {
      Flink, Blink := this, this;
    }
  }

  ghost predicate Distinct(ring: seq<ListEntry>) {
    forall i, j :: 0 <= i < j < |ring| ==> ring[i] != ring[j]
  }

  /** Flink spells the ring forwards and Blink spells it backwards. */
  ghost predicate IsRing(ring: seq<ListEntry>)
    reads ring
  {
    && |ring| > 0 && Distinct(ring)
    && (forall i {:trigger ring[i].Flink} :: 0 <= i < |ring| - 1 ==> ring[i].Flink == ring[i + 1])
    && (forall i {:trigger ring[i].Blink} :: 0 < i < |ring| ==> ring[i].Blink == ring[i - 1])
    && ring[|ring| - 1].Flink == ring[0] && ring[0].Blink == ring[|ring| - 1]
  }

  /** ListInitializeHead */
  method ListInitializeHead(listHead: ListEntry)
    modifies listHead
    ensures IsRing([listHead])
  {
    listHead.Flink, listHead.Blink := listHead, listHead;
  }

  method ListIsEmpty(listHead: ListEntry, ghost ring: seq<ListEntry>) returns (empty: bool)
    requires IsRing(ring) && ring[0] == listHead
    ensures empty <==> |ring| == 1
  {
    empty := listHead.Flink == listHead;
  }

  /** ListRemoveEntry: the code knows only the entry; the ring closes around it. */
  method ListRemoveEntry(entry: ListEntry, ghost ring: seq<ListEntry>, ghost k: nat)
    requires IsRing(ring) && 0 < k < |ring| && ring[k] == entry
    modifies ring
    ensures IsRing(ring[..k] + ring[k + 1..])
  {
    var flink, blink := entry.Flink, entry.Blink;
    blink.Flink := flink;
    flink.Blink := blink;
  }

  method ListInsertHead(listHead: ListEntry, entry: ListEntry, ghost ring: seq<ListEntry>)
    requires IsRing(ring) && ring[0] == listHead && entry !in ring
    modifies entry, ring
    ensures IsRing([listHead, entry] + ring[1..])
  {
    var flink := listHead.Flink;
    entry.Flink := flink;
    entry.Blink := listHead;
    flink.Blink := entry;
    listHead.Flink := entry;
  }

  method ListInsertTail(listHead: ListEntry, entry: ListEntry, ghost ring: seq<ListEntry>)
    requires IsRing(ring) && ring[0] == listHead && entry !in ring
    modifies entry, ring
    ensures IsRing(ring + [entry])
  {
    var blink := listHead.Blink;
    entry.Flink := listHead;
    entry.Blink := blink;
    blink.Flink := entry;
    listHead.Blink := entry;
  }

  /** ListRemoveHead; on an empty list it unlinks the head from itself and returns it. */
  method ListRemoveHead(listHead: ListEntry, ghost ring: seq<ListEntry>) returns (entry: ListEntry)
    requires IsRing(ring) && ring[0] == listHead
    modifies ring
    ensures if |ring| == 1 then entry == listHead && IsRing(ring)
            else entry == ring[1] && IsRing([listHead] + ring[2..])
  {
    var flink := listHead.Flink;
    if flink != listHead {
      ListRemoveEntry(flink, ring, 1);
      assert ring[..1] + ring[2..] == [listHead] + ring[2..];
    } else {
      // ListRemoveEntry(flink) stores the head's links back into it
      flink.Blink.Flink := flink.Flink;
      flink.Flink.Blink := flink.Blink;
    }
    entry := flink;
  }

  /** A ring none of whose entries changed is still a ring. */
  twostate lemma RingKept(ring: seq<ListEntry>)
    requires old(IsRing(ring)) && forall e :: e in ring ==> unchanged(e)
    ensures IsRing(ring)
  {
    assert forall i :: 0 <= i < |ring| ==> ring[i] in ring;
  }

  lemma WithoutEntry(ring: seq<ListEntry>, k: nat)
    requires IsRing(ring) && 0 < k < |ring|
    ensures var r := ring[..k] + ring[k + 1..];
            r[0] == ring[0] && ring[k] !in r && forall e :: e in r ==> e in ring
  {
  }

  /** Any number of lists, each entry in at most one of them: for every head
      its ring, the head first and then the contents, and for every linked
      entry its head, kept by every operation. */
  class ListSpace {
    ghost var rings: map<ListEntry, seq<ListEntry>>
    ghost var home: map<ListEntry, ListEntry>

    ghost predicate Valid()
      reads this, home.Keys
    {
      forall h :: h in rings ==> Homed(rings[h], h) && rings[h][0] == h && IsRing(rings[h])
    }

    /** Every entry of the ring has h for its head. */
    ghost predicate Homed(ring: seq<ListEntry>, h: ListEntry)
      reads this
    {
      |ring| > 0 && forall e :: e in ring ==> e in home && home[e] == h
    }

    constructor ()
      ensures Valid() && rings == map[] && home == map[]
    {
      rings, home := map[], map[];
    }

    /** Changes to the entries of one list leave the other rings alone. */
    twostate lemma OthersKept(h: ListEntry)
      requires old(Valid()) && forall e :: e in old(home) && old(home)[e] != h ==> unchanged(e)
      ensures forall g :: g in old(rings) && g != h ==> IsRing(old(rings)[g])
    {
      hide IsRing;
      forall g | g in old(rings) && g != h ensures IsRing(old(rings)[g]) {
        assert forall e :: e in old(rings)[g] ==> e in old(home) && old(home)[e] == g;
        RingKept(old(rings)[g]);
      }
    }

    method InitializeHead(h: ListEntry)
      requires Valid() && h !in home
      modifies this, h
      ensures Valid() && rings == old(rings)[h := [h]] && home == old(home)[h := h]
    {
      ListInitializeHead(h);
      rings, home := rings[h := [h]], home[h := h];
    }

    method IsEmpty(h: ListEntry) returns (empty: bool)
      requires Valid() && h in rings
      ensures empty <==> rings[h] == [h]
    {
      empty := ListIsEmpty(h, rings[h]);
    }

    method InsertHead(h: ListEntry, entry: ListEntry)
      requires Valid() && h in rings && entry !in home
      modifies this, entry, home.Keys
      ensures Valid() && rings == old(rings)[h := [h, entry] + old(rings)[h][1..]] && home == old(home)[entry := h]
    {
      hide IsRing;
      ghost var ring := rings[h];
      ListInsertHead(h, entry, ring);
      OthersKept(h);
      rings, home := rings[h := [h, entry] + ring[1..]], home[entry := h];
    }

    method InsertTail(h: ListEntry, entry: ListEntry)
      requires Valid() && h in rings && entry !in home
      modifies this, entry, home.Keys
      ensures Valid() && rings == old(rings)[h := old(rings)[h] + [entry]] && home == old(home)[entry := h]
    {
      hide IsRing;
      ghost var ring := rings[h];
      ListInsertTail(h, entry, ring);
      OthersKept(h);
      rings, home := rings[h := ring + [entry]], home[entry := h];
    }

    /** The head h is known to the proof only. */
    method RemoveEntry(entry: ListEntry, ghost h: ListEntry, ghost k: nat)
      requires Valid() && h in rings && 0 < k < |rings[h]| && rings[h][k] == entry
      modifies this, home.Keys
      ensures Valid() && rings == old(rings)[h := old(rings)[h][..k] + old(rings)[h][k + 1..]]
              && home == old(home) - {entry}
    {
      hide IsRing;
      ghost var ring := rings[h];
      WithoutEntry(ring, k);
      ListRemoveEntry(entry, ring, k);
      OthersKept(h);
      rings, home := rings[h := ring[..k] + ring[k + 1..]], home - {entry};
    }

    method RemoveHead(h: ListEntry) returns (entry: ListEntry)
      requires Valid() && h in rings
      modifies this, home.Keys
      ensures Valid()
      ensures if old(rings)[h] == [h] then entry == h && rings == old(rings) && home == old(home)
              else
                && entry == old(rings)[h][1] && rings == old(rings)[h := [h] + old(rings)[h][2..]]
                && home == old(home) - {entry}
    {
      hide IsRing;
      ghost var ring := rings[h];
      if |ring| > 1 {
        WithoutEntry(ring, 1);
        assert ring[..1] + ring[2..] == [h] + ring[2..];
      }
      entry := ListRemoveHead(h, ring);
      OthersKept(h);
      if |ring| > 1 { rings, home := rings[h := [h] + ring[2..]], home - {entry}; }
    }
  }
}
