/**
 File headers: allocating and freeing the data sectors of a file.
 */
module FileHeaders {
  import opened Counting
  import opened Words
  import opened DiskLayout
  import opened Files
  import opened BitMaps

  function SectorsFor(size: int): int { (size + SectorSize - 1) / SectorSize }

  /** The least number of sectors that hold the bytes. */
  lemma SectorsForExact(size: int, k: int)
    requires 0 <= size
    ensures size <= SectorsFor(size) * 128 && 0 <= SectorsFor(size)
    ensures 0 <= k && size <= k * 128 ==> SectorsFor(size) <= k
  {
  }

  /** The sectors are distinct and were free, and exactly they are newly marked. */
  ghost predicate Taken(before: set<int>, after: set<int>, sectors: seq<int>) {
    && Distinct(sectors) && (forall x :: x in after <==> x in before || x in sectors)
    && forall x :: x in sectors ==> x !in before
  }

  /** Each sector was the least one neither marked before nor taken already. */
  ghost predicate LeastFirst(before: set<int>, sectors: seq<int>) {
    forall i, x :: 0 <= i < |sectors| && 0 <= x < sectors[i] ==> x in before || x in sectors[..i]
  }

  lemma TakeOne(before: set<int>, after: set<int>, sectors: seq<int>, s: int)
    requires Taken(before, after, sectors) && s !in after
    ensures Taken(before, after + {s}, sectors + [s])
  {
    assert forall x :: x in sectors + [s] <==> x in sectors || x == s;
  }

  lemma LeastOne(before: set<int>, after: set<int>, sectors: seq<int>, s: int)
    requires Taken(before, after, sectors) && LeastFirst(before, sectors) && forall x :: 0 <= x < s ==> x in after
    ensures LeastFirst(before, sectors + [s])
  {
    var more := sectors + [s];
    forall i, x | 0 <= i < |more| && 0 <= x < more[i] ensures x in before || x in more[..i] {
      assert more[..i] == sectors[..i];
      assert i == |sectors| ==> sectors[..i] == sectors;
    }
  }

  lemma ClearShrinks(n: nat, marked: set<int>, s: int)
    requires 0 <= s < n && s !in marked
    ensures |UpTo(n) - (marked + {s})| == |UpTo(n) - marked| - 1
  {
    OneLess(UpTo(n), marked, s);
  }

  lemma OneLess(all: set<int>, marked: set<int>, s: int)
    requires s in all && s !in marked
    ensures |all - (marked + {s})| == |all - marked| - 1
  {
    assert all - marked == (all - (marked + {s})) + {s};
  }

  lemma SomeClear(n: nat, marked: set<int>)
    requires |UpTo(n) - marked| > 0
    ensures exists s :: 0 <= s < n && s !in marked
  {
    var s :| s in UpTo(n) - marked;
  }

  /** The allocation so far: which sectors, how many bits are left clear. */
  ghost predicate Progress(n: nat, before: set<int>, after: set<int>, sectors: seq<int>, left: int) {
    && Taken(before, after, sectors) && LeastFirst(before, sectors) && |UpTo(n) - after| == left
    && forall i :: 0 <= i < |sectors| ==> 0 <= sectors[i] < n
  }

  lemma ProgressOne(n: nat, before: set<int>, after: set<int>, sectors: seq<int>, left: int, s: int)
    requires Progress(n, before, after, sectors, left) && 0 <= s < n && s !in after && forall x :: 0 <= x < s ==> x in after
    ensures Progress(n, before, after + {s}, sectors + [s], left - 1)
  {
    TakeOne(before, after, sectors, s);
    LeastOne(before, after, sectors, s);
    ClearShrinks(n, after, s);
  }

  lemma ProgressDone(h: Inode, n: nat, before: set<int>, after: set<int>, left: int)
    requires |h.dataSectors| == NumDirect && 0 <= h.numBytes <= MaxFileSize && h.numSectors == SectorsFor(h.numBytes)
    requires Progress(n, before, after, h.dataSectors[..h.numSectors], left)
    ensures InodeOk(h, n) && Taken(before, after, h.Data()) && LeastFirst(before, h.Data())
  {
    var d := h.dataSectors[..h.numSectors];
    assert forall i :: 0 <= i < h.numSectors ==> h.dataSectors[i] == d[i];
  }

  ghost predicate Freed(before: set<int>, after: set<int>, sectors: seq<int>) {
    forall x :: x in after <==> x in before && x !in sectors
  }

  lemma FreeOne(before: set<int>, after: set<int>, sectors: seq<int>, s: int)
    requires Freed(before, after, sectors)
    ensures Freed(before, after - {s}, sectors + [s])
  {
    assert forall x :: x in sectors + [s] <==> x in sectors || x == s;
  }

  class FileHeader {
    var numBytes: int
    var numSectors: int
    const dataSectors: array<int>

    ghost predicate Valid()
      reads this
    {
      dataSectors.Length == NumDirect
    }

    /** The two objects keep their arrays apart. */
    ghost predicate Apart(freeMap: BitMap) { freeMap.words as object != dataSectors as object }

    function Value(): (h: Inode)
      reads this, dataSectors
    {
      Inode(numBytes, numSectors, dataSectors[..])
    }

    /** A header in memory; it holds anything at all. */
    constructor ()
      ensures Valid() && fresh(dataSectors)
    {
      dataSectors := new int[NumDirect];
    }

    /** Succeeds exactly when enough bits are clear, and then every search finds one: the sectors are distinct,
        were free, are each the least free at the time, and exactly they are marked. */
    method Allocate(freeMap: BitMap, fileSize: int) returns (ok: bool)
      requires Valid() && freeMap.Valid() && Apart(freeMap) && 0 <= fileSize <= MaxFileSize
      modifies this, dataSectors, freeMap, freeMap.words
      ensures Valid() && freeMap.Valid()
      ensures ok <==> SectorsFor(fileSize) <= |UpTo(freeMap.numBits) - old(freeMap.marked)|
      ensures !ok ==> freeMap.marked == old(freeMap.marked)
      ensures ok ==> InodeOk(Value(), freeMap.numBits) && numBytes == fileSize
      ensures ok ==> Taken(old(freeMap.marked), freeMap.marked, Value().Data())
      ensures ok ==> LeastFirst(old(freeMap.marked), Value().Data())
      ensures ok ==> |UpTo(freeMap.numBits) - freeMap.marked| == |UpTo(freeMap.numBits) - old(freeMap.marked)| - SectorsFor(fileSize)
    {
      numBytes := fileSize;
      numSectors := SectorsFor(fileSize);
      var clear := freeMap.NumClear();
      if clear < numSectors { return false; }
      ghost var marked := freeMap.marked;
      assert Progress(freeMap.numBits, marked, marked, dataSectors[..0], clear);
      var i := 0;
      while i < numSectors
        invariant Valid() && freeMap.Valid() && numBytes == fileSize && numSectors == SectorsFor(fileSize) && 0 <= i <= numSectors
        invariant Progress(freeMap.numBits, marked, freeMap.marked, dataSectors[..i], clear - i)
      {
        TakeNext(freeMap, i, marked, clear - i);
        i := i + 1;
      }
      ProgressDone(Value(), freeMap.numBits, marked, freeMap.marked, clear - i);
      return true;
    }

    /** One round of the allocation loop. */
    method TakeNext(freeMap: BitMap, i: nat, ghost marked: set<int>, ghost left: nat)
      requires Valid() && freeMap.Valid() && Apart(freeMap) && i < NumDirect && 0 < left
      requires Progress(freeMap.numBits, marked, freeMap.marked, dataSectors[..i], left)
      modifies dataSectors, freeMap, freeMap.words
      ensures freeMap.Valid() && Progress(freeMap.numBits, marked, freeMap.marked, dataSectors[..i + 1], left - 1)
    {
      ghost var before, taken := freeMap.marked, dataSectors[..i];
      SomeClear(freeMap.numBits, before);
      var s := freeMap.Find();
      ProgressOne(freeMap.numBits, marked, before, taken, left, s);
      dataSectors[i] := s;
      assert dataSectors[..i + 1] == taken + [s];
    }

    /** Clears exactly the file's data bits; with all of them marked, each is still marked when its turn comes. */
    method Deallocate(freeMap: BitMap)
      requires Valid() && freeMap.Valid() && Apart(freeMap) && InodeOk(Value(), freeMap.numBits)
      requires forall i :: 0 <= i < numSectors ==> dataSectors[i] in freeMap.marked
      modifies freeMap, freeMap.words
      ensures freeMap.Valid() && Freed(old(freeMap.marked), freeMap.marked, Value().Data())
    {
      ghost var marked, data := freeMap.marked, dataSectors[..];
      var i := 0;
      while i < numSectors
        invariant 0 <= i <= numSectors && freeMap.Valid()
        invariant dataSectors[..] == data && Freed(marked, freeMap.marked, data[..i])
        invariant forall j :: i <= j < numSectors ==> dataSectors[j] in freeMap.marked
      {
        var taken := freeMap.Test(dataSectors[i]);
        assert taken;
        ghost var before := freeMap.marked;
        freeMap.Clear(dataSectors[i]);
        FreeOne(marked, before, data[..i], data[i]);
        assert data[..i + 1] == data[..i] + [data[i]];
        i := i + 1;
      }
      assert Value().Data() == data[..i];
    }

    method FetchFrom(disk: SynchDisk, sector: int, ghost stored: Inode)
      requires Valid() && DiskOk(disk.sectors) && 0 <= sector < |disk.sectors| && HeaderIs(disk.sectors[sector], stored)
      modifies this, dataSectors
      ensures Valid() && Value() == stored
    {
      HeaderIsDecoded(disk.sectors[sector], stored);
      var s := disk.ReadSector(sector);
      var h := DecodeInode(s);
      numBytes, numSectors := h.numBytes, h.numSectors;
      forall i | 0 <= i < NumDirect { dataSectors[i] := h.dataSectors[i]; }
      assert dataSectors[..] == h.dataSectors;
    }

    method WriteBack(disk: SynchDisk, sector: int)
      requires Valid() && 0 <= sector < |disk.sectors|
      modifies disk
      ensures disk.sectors == old(disk.sectors)[sector := EncodeInode(Value())]
    {
      disk.WriteSector(sector, EncodeInode(Value()));
    }

    /** The sector that holds a byte: the cell whose share of the file the offset falls into. */
    function ByteToSector(offset: int): (s: int)
      requires Valid() && 0 <= offset < MaxFileSize
      reads this, dataSectors
      ensures forall k :: 0 <= k < NumDirect && k * SectorSize <= offset < (k + 1) * SectorSize ==> s == dataSectors[k]
    {
      dataSectors[offset / SectorSize]
    }
  }

  /** A header written to its sector comes back with the same length and the same sectors. */
  lemma StoredHeader(h: Inode, n: nat)
    requires InodeOk(h, n) && n <= 0x8000_0000
    ensures var g := DecodeInode(EncodeInode(h));
            && g.numBytes == h.numBytes && InodeOk(g, n) && g.Data() == h.Data()
  {
    var g := DecodeInode(EncodeInode(h));
    HeaderField(h, 0);
    HeaderField(h, 1);
    forall i | 0 <= i < h.numSectors ensures g.dataSectors[i] == h.dataSectors[i] { HeaderField(h, i + 2); }
  }

  lemma HeaderField(h: Inode, i: int)
    requires |h.dataSectors| == NumDirect && 0 <= i < 2 + NumDirect && IsWord(Field(h, i))
    ensures Field(DecodeInode(EncodeInode(h)), i) == Field(h, i)
  {
    DecodedField(EncodeInode(h), i);
    EncodedField(h, i);
  }
}
