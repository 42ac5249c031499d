/** The watermark allocator of src/RamDrive.cpp and its superblock of names. */
module RamDrives {
  import opened Basics

  const MAX_NAME: nat := 20
  const MAX_ENTRIES: nat := 128

  /** A superblock entry. */
  datatype Entry = Entry(name: seq<byte>, page: nat, length: nat)

  /** A C string: its bytes without the terminator. */
  ghost predicate IsString(name: seq<byte>) {
    forall i :: 0 <= i < |name| ==> name[i] != 0
  }

  /** A string that fits the name field and is not taken for a free entry. */
  ghost predicate IsName(name: seq<byte>) {
    0 < |name| < MAX_NAME && IsString(name)
  }

  function Zeroes(n: nat): (s: seq<byte>)
    ensures |s| == n && forall i :: 0 <= i < n ==> s[i] == 0
  {
    seq(n, _ => 0)
  }

  /** A name field holding a name and zeroes behind it. */
  function Padded(name: seq<byte>): (s: seq<byte>)
    requires |name| <= MAX_NAME
    ensures |s| == MAX_NAME
  {
    name + Zeroes(MAX_NAME - |name|)
  }

  /** strcmp(name, field) == 0, for a field that ends in a zero. */
  predicate SameName(name: seq<byte>, field: seq<byte>) {
    |name| < |field| && field[..|name|] == name && field[|name|] == 0
  }

  /** A padded field equals exactly the name it was padded from. */
  lemma SameNamePadded(name: seq<byte>, other: seq<byte>)
    requires IsString(name) && IsName(other)
    ensures SameName(name, Padded(other)) <==> name == other
  {
    var field := Padded(other);
    assert field[..|other|] == other && field[|other|] == 0;
    assert forall i :: 0 <= i < |other| ==> field[i] == other[i] && field[i] != 0;
    if SameName(name, field) {
      assert forall i :: 0 <= i < |name| ==> name[i] == field[..|name|][i] && field[i] != 0;
      assert |name| == |other|;
    }
  }

  // ----- The drive as a value -----

  datatype File = File(name: seq<byte>, page: nat, length: nat)

  datatype Drive = Drive(files: seq<File>, watermark: nat)

  /** The position of a name, or the number of files. */
  function Find(files: seq<File>, name: seq<byte>): (i: nat)
    ensures i <= |files|
    ensures i < |files| ==> files[i].name == name
    ensures forall j :: 0 <= j < i ==> files[j].name != name
  {
    if |files| == 0 || files[0].name == name then 0 else 1 + Find(files[1..], name)
  }

  function SizeToPages(bytes: nat): nat { (bytes + 4095) / 4096 }

  /** Allocate: a new file, or a new place for an old one; the page number is
      kept in 32 bits. */
  function Allocated(d: Drive, name: seq<byte>, size: nat): Drive {
    var file := File(name, d.watermark % 0x1_0000_0000, size);
    var i := Find(d.files, name);
    Drive(if i < |d.files| then d.files[i := file] else d.files + [file], d.watermark + SizeToPages(size))
  }

  datatype Request = Request(name: seq<byte>, size: nat)

  function After(reqs: seq<Request>): Drive {
    if |reqs| == 0 then Drive([], 1)
    else Allocated(After(reqs[..|reqs| - 1]), reqs[|reqs| - 1].name, reqs[|reqs| - 1].size)
  }

  /** The first page given to request k. */
  function FirstPage(reqs: seq<Request>, k: nat): nat
    requires k <= |reqs|
  {
    After(reqs[..k]).watermark
  }

  /** The pages of a size hold it, and the last one is needed. */
  lemma PagesHold(size: nat)
    ensures size <= SizeToPages(size) * 4096 < size + 4096
  {
    var q, r := (size + 4095) / 4096, (size + 4095) % 4096;
    assert q * 4096 + r == size + 4095;
  }

  lemma {:induction false} NextPage(reqs: seq<Request>, j: nat)
    requires j < |reqs|
    ensures FirstPage(reqs, j + 1) == FirstPage(reqs, j) + SizeToPages(reqs[j].size)
  {
    hide SizeToPages, Find;
    assert reqs[..j + 1][..j] == reqs[..j];
  }

  lemma {:induction false} StartsAtOne(reqs: seq<Request>)
    ensures FirstPage(reqs, 0) == 1
  {
    assert reqs[..0] == [];
  }

  lemma {:induction false} FromPageOne(reqs: seq<Request>, j: nat)
    requires j <= |reqs|
    ensures FirstPage(reqs, j) >= 1
    decreases j
  {
    hide FirstPage, SizeToPages;
    if j == 0 {
      StartsAtOne(reqs);
    } else {
      FromPageOne(reqs, j - 1);
      NextPage(reqs, j - 1);
    }
  }

  /** No byte of an allocation belongs to a later one or to the superblock's page. */
  lemma {:induction false} RangesDisjoint(reqs: seq<Request>, j: nat, k: nat)
    requires j < k <= |reqs|
    ensures 4096 <= FirstPage(reqs, j) * 4096
    ensures FirstPage(reqs, j) * 4096 + reqs[j].size <= FirstPage(reqs, k) * 4096
    decreases k
  {
    hide FirstPage, SizeToPages;
    FromPageOne(reqs, j);
    NextPage(reqs, k - 1);
    if j < k - 1 { RangesDisjoint(reqs, j, k - 1); } else { PagesHold(reqs[j].size); }
  }

  /** And no page is left unused between one allocation and the next. */
  lemma {:induction false} NoPageWasted(reqs: seq<Request>, j: nat)
    requires j < |reqs|
    ensures FirstPage(reqs, 0) == 1
    ensures FirstPage(reqs, j + 1) * 4096 < FirstPage(reqs, j) * 4096 + reqs[j].size + 4096
  {
    hide FirstPage, SizeToPages;
    StartsAtOne(reqs);
    NextPage(reqs, j);
    PagesHold(reqs[j].size);
  }

  ghost predicate DistinctNames(files: seq<File>) {
    forall i, j :: 0 <= i < j < |files| ==> files[i].name != files[j].name
  }

  function Names(files: seq<File>): set<seq<byte>> { set i | 0 <= i < |files| :: files[i].name }
  function Requested(reqs: seq<Request>): set<seq<byte>> { set i | 0 <= i < |reqs| :: reqs[i].name }

  /** The files are the names requested, each once. */
  lemma {:induction false} FilesAreNames(reqs: seq<Request>)
    ensures DistinctNames(After(reqs).files) && Names(After(reqs).files) == Requested(reqs)
    decreases |reqs|
  {
    if |reqs| > 0 {
      var n := |reqs| - 1;
      var d, name := After(reqs[..n]), reqs[n].name;
      FilesAreNames(reqs[..n]);
      assert Requested(reqs) == Requested(reqs[..n]) + {name} by {
        forall x | x in Requested(reqs[..n]) ensures x in Requested(reqs) {
          var i :| 0 <= i < n && reqs[..n][i].name == x;
          assert reqs[i].name == x;
        }
        assert reqs[n].name in Requested(reqs);
        forall x | x in Requested(reqs) ensures x in Requested(reqs[..n]) + {name} {
          var i :| 0 <= i < |reqs| && reqs[i].name == x;
          if i < n { assert reqs[..n][i].name == x; }
        }
      }
      NamesAfter(d, name, reqs[n].size);
    }
  }

  lemma NamesAfter(d: Drive, name: seq<byte>, size: nat)
    requires DistinctNames(d.files)
    ensures var files := Allocated(d, name, size).files;
            DistinctNames(files) && Names(files) == Names(d.files) + {name}
  {
    var files := Allocated(d, name, size).files;
    var k := Find(d.files, name);
    assert forall i :: 0 <= i < |files| && i != k ==> i < |d.files| && files[i] == d.files[i];
    assert files[k].name == name && name in Names(files);
    forall x | x in Names(d.files) ensures x in Names(files) {
      var i :| 0 <= i < |d.files| && d.files[i].name == x;
      assert files[i].name == x;
    }
    forall x | x in Names(files) ensures x in Names(d.files) + {name} {
      var i :| 0 <= i < |files| && files[i].name == x;
    }
  }

  /** FileCount is the number of distinct names requested. */
  lemma {:induction false} FileCountIsNames(reqs: seq<Request>)
    ensures |After(reqs).files| == |Requested(reqs)|
  {
    FilesAreNames(reqs);
    CountNames(After(reqs).files);
  }

  lemma {:induction false} CountNames(files: seq<File>)
    requires DistinctNames(files)
    ensures |Names(files)| == |files|
    decreases |files|
  {
    if |files| > 0 {
      var n := |files| - 1;
      CountNames(files[..n]);
      NamesOfLast(files);
    }
  }

  lemma NamesOfLast(files: seq<File>)
    requires |files| > 0 && DistinctNames(files)
    ensures var n := |files| - 1;
            Names(files) == Names(files[..n]) + {files[n].name} && files[n].name !in Names(files[..n])
  {
    var n := |files| - 1;
    var init := files[..n];
    forall x | x in Names(init) ensures x in Names(files) && x != files[n].name {
      var i :| 0 <= i < n && init[i].name == x;
      assert files[i].name == x;
    }
    forall x | x in Names(files) ensures x in Names(init) + {files[n].name} {
      var i :| 0 <= i < |files| && files[i].name == x;
      if i < n { assert init[i].name == x; }
    }
    assert files[n].name in Names(files);
  }

  /** Opening the name of the file finds exactly it. */
  ghost predicate Opens(files: seq<File>, file: File) {
    Find(files, file.name) < |files| && files[Find(files, file.name)] == file
  }

  /** Opening a name gives the place and length of its latest allocation, as
      long as page numbers stayed below 2^32. */
  lemma {:induction false} OpenGivesLatest(reqs: seq<Request>, k: nat)
    requires k < |reqs| && forall j :: k < j < |reqs| ==> reqs[j].name != reqs[k].name
    requires FirstPage(reqs, k) < 0x1_0000_0000
    ensures Opens(After(reqs).files, File(reqs[k].name, FirstPage(reqs, k), reqs[k].size))
    decreases |reqs|
  {
    hide Opens, Allocated, After, SizeToPages, Find;
    var n := |reqs| - 1;
    var init := reqs[..n];
    AfterLast(reqs);
    var file := File(reqs[k].name, FirstPage(reqs, k), reqs[k].size);
    OpenAfter(After(init), reqs[n].name, reqs[n].size, file);
    assert init[..k] == reqs[..k];
    if k < n { OpenGivesLatest(init, k); }
  }

  lemma {:induction false} AfterLast(reqs: seq<Request>)
    requires |reqs| > 0
    ensures var n := |reqs| - 1; After(reqs) == Allocated(After(reqs[..n]), reqs[n].name, reqs[n].size)
  {
  }

  /** An allocation is what its name opens, and other names open what they did. */
  lemma {:induction false} OpenAfter(d: Drive, name: seq<byte>, size: nat, file: File)
    ensures Opens(Allocated(d, name, size).files, File(name, d.watermark % 0x1_0000_0000, size))
    ensures file.name != name ==> (Opens(Allocated(d, name, size).files, file) <==> Opens(d.files, file))
  {
    hide SizeToPages;
    var files := Allocated(d, name, size).files;
    var k := Find(d.files, name);
    assert forall i :: 0 <= i < |files| && i != k ==> i < |d.files| && files[i] == d.files[i];
    assert files[k].name == name;
    FindUnique(files, name);
    FindUnique(files, file.name);
    FindUnique(d.files, file.name);
  }

  lemma {:induction false} FindUnique(files: seq<File>, name: seq<byte>)
    ensures forall i :: 0 <= i < |files| && files[i].name == name ==> Find(files, name) <= i
  {
  }

  // ----- The class -----

  class RamDrive {
    const address: nat
    const entries: array<Entry>  // the superblock
    var pageWatermark: nat
    ghost var files: seq<File>

    ghost predicate Valid()
      reads this, entries
    {
      && entries.Length == MAX_ENTRIES && |files| <= MAX_ENTRIES && DistinctNames(files)
      && (forall i :: 0 <= i < |files| ==>
            IsName(files[i].name) && entries[i] == Entry(Padded(files[i].name), files[i].page, files[i].length))
      && (forall i :: |files| <= i < MAX_ENTRIES ==> entries[i].name == Zeroes(MAX_NAME))
    }

    ghost function Value(): Drive
      reads this
    {
      Drive(files, pageWatermark)
    }

    constructor (address: nat, entries: array<Entry>)
      ensures this.address == address && this.entries == entries && pageWatermark == 1
    {
      this.address, this.entries, pageWatermark, files := address, entries, 1, [];
    }

    /** Clears the superblock; the watermark stays where it is. */
    method Clear()
      requires entries.Length == MAX_ENTRIES
      modifies entries, this`files
      ensures Valid() && Value() == Drive([], old(pageWatermark))
    {
      for i := 0 to MAX_ENTRIES
        invariant forall j :: 0 <= j < i ==> entries[j].name == Zeroes(MAX_NAME)
      {
        entries[i] := Entry(Zeroes(MAX_NAME), 0, 0);
      }
      files := [];
    }

    method FileCount() returns (index: nat)
      requires Valid()
      ensures index == |files|
    {
      index := 0;
      while index < MAX_ENTRIES
        invariant index <= |files|
      {
        if entries[index].name[0] == 0 { break; }
        index := index + 1;
      }
    }

    /** The index of the file, or of the next slot, or -1 when all are taken. */
    method GetFileIndex(name: seq<byte>) returns (found: bool, index: int)
      requires Valid() && IsString(name)
      ensures found <==> Find(files, name) < |files|
      ensures index == if !found && |files| == MAX_ENTRIES then -1 else Find(files, name)
    {
      index := 0;
      while index < MAX_ENTRIES
        invariant 0 <= index <= |files| && forall j :: 0 <= j < index ==> files[j].name != name
      {
        if entries[index].name[0] == 0 { return false, index; }
        SameNamePadded(name, files[index].name);
        if SameName(name, entries[index].name) { return true, index; }
        index := index + 1;
      }
      return false, -1;
    }

    /** Writes past the superblock when the name is new and no slot is left,
        which the precondition rules out. The name is copied without a terminator. */
    method Allocate(name: seq<byte>, size: nat) returns (where: nat)
      requires Valid() && IsName(name) && (Find(files, name) < |files| || |files| < MAX_ENTRIES)
      modifies this, entries
      ensures Valid() && Value() == Allocated(old(Value()), name, size)
      ensures where == address + old(pageWatermark) * 4096
      ensures where + size <= address + pageWatermark * 4096 < where + size + 4096
    {
      hide Find, SizeToPages, DistinctNames, Names;
      var found, index := GetFileIndex(name);
      var field := entries[index].name;
      field := name + field[|name|..];
      assert field == Padded(name);
      entries[index] := Entry(field, pageWatermark % 0x1_0000_0000, size);
      where := address + pageWatermark * 4096;
      ghost var file := File(name, pageWatermark % 0x1_0000_0000, size);
      NamesAfter(Value(), name, size);
      files := if found then files[index := file] else files + [file];
      pageWatermark := pageWatermark + SizeToPages(size);
      PagesHold(size);
    }

    method Open(name: seq<byte>) returns (found: bool, where: nat, length: nat)
      requires Valid() && IsString(name)
      ensures found <==> Find(files, name) < |files|
      ensures found ==> var f := files[Find(files, name)]; where == address + f.page * 4096 && length == f.length
    {
      var index;
      found, index := GetFileIndex(name);
      if !found { return false, 0, 0; }
      return true, address + entries[index].page * 4096, entries[index].length;
    }
  }
}
