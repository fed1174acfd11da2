/**
 Byte-granular files over whole-sector disk transfers.
 */
module Files {

  import opened Words
  import opened DiskLayout

  ghost predicate DiskOk(disk: seq<Sector>) {
    forall s :: 0 <= s < |disk| ==> |disk[s]| == SectorSize
  }

  /** A header that fits a disk: the table covers the length, within range, no sector twice. */
  ghost predicate InodeOk(h: Inode, n: nat) {
    && |h.dataSectors| == NumDirect && 0 <= h.numBytes <= MaxFileSize
    && h.numSectors == (h.numBytes + SectorSize - 1) / SectorSize
    && (forall i :: 0 <= i < h.numSectors ==> 0 <= h.dataSectors[i] < n)
    && (forall i, j :: 0 <= i < j < h.numSectors ==> h.dataSectors[i] != h.dataSectors[j])
  }

  ghost function FileByte(disk: seq<Sector>, h: Inode, i: int): Byte
    requires DiskOk(disk) && InodeOk(h, |disk|) && 0 <= i < h.numBytes
  {
    disk[h.dataSectors[i / SectorSize]][i % SectorSize]
  }

  /** The contents of a file. */
  ghost function FileBytes(disk: seq<Sector>, h: Inode): (f: seq<Byte>)
    requires DiskOk(disk) && InodeOk(h, |disk|)
    ensures |f| == h.numBytes && forall i :: 0 <= i < |f| ==> f[i] == FileByte(disk, h, i)
  {
    seq(h.numBytes, i requires 0 <= i < h.numBytes => FileByte(disk, h, i))
  }

  // ---------------------------------------------------------------- slices of a byte sequence

  /** How many bytes a request may move: nothing past the end, clipped at the end. */
  function Clip(length: nat, count: int, position: nat): (n: nat)
    ensures n > 0 ==> position + n <= length && n <= count
  {
    if count <= 0 || position >= length then 0
    else if position + count > length then length - position
    else count
  }

  function ReadSlice(f: seq<Byte>, count: int, position: nat): (r: seq<Byte>)
    ensures |r| == Clip(|f|, count, position)
  {
    var n := Clip(|f|, count, position);
    if n == 0 then [] else f[position..position + n]
  }

  function WriteSlice(f: seq<Byte>, data: seq<Byte>, position: nat): (r: seq<Byte>)
    ensures |r| == |f|
    ensures forall i :: 0 <= i < |f| ==> r[i] == if position <= i < position + |data| then data[i - position] else f[i]
  {
    var n := Clip(|f|, |data|, position);
    if n == 0 then f else f[..position] + data[..n] + f[position + n..]
  }

  /** Reading back what was written, as far as it was written. */
  lemma ReadAfterWrite(f: seq<Byte>, data: seq<Byte>, position: nat)
    ensures ReadSlice(WriteSlice(f, data, position), |data|, position) == data[..Clip(|f|, |data|, position)]
  {
  }

  /** A write touches nothing outside its range. */
  lemma WriteElsewhere(f: seq<Byte>, data: seq<Byte>, position: nat, count: int, at: nat)
    requires at + Clip(|f|, count, at) <= position || position + |data| <= at
    ensures ReadSlice(WriteSlice(f, data, position), count, at) == ReadSlice(f, count, at)
  {
  }

  /** Two successive transfers, the second starting where the first stopped. */
  lemma ReadTwice(f: seq<Byte>, m: nat, n: nat, position: nat)
    ensures ReadSlice(f, m, position) + ReadSlice(f, n, position + |ReadSlice(f, m, position)|) == ReadSlice(f, m + n, position)
  {
  }

  lemma WriteTwice(f: seq<Byte>, a: seq<Byte>, b: seq<Byte>, position: nat)
    ensures var n := Clip(|f|, |a|, position);
            && WriteSlice(WriteSlice(f, a, position), b, position + n) == WriteSlice(f, a + b, position)
            && n + Clip(|f|, |b|, position + n) == Clip(|f|, |a + b|, position)
  {
    var n := Clip(|f|, |a|, position);
    var g, h := WriteSlice(WriteSlice(f, a, position), b, position + n), WriteSlice(f, a + b, position);
    forall i | 0 <= i < |f| ensures g[i] == h[i] { }
  }

  /** The file and the seek position after writing the chunks one after the other. */
  function WriteChunks(f: seq<Byte>, chunks: seq<seq<Byte>>, position: nat): (r: (seq<Byte>, nat))
    decreases |chunks|
  {
    if chunks == [] then (f, position)
    else WriteChunks(WriteSlice(f, chunks[0], position), chunks[1..], position + Clip(|f|, |chunks[0]|, position))
  }

  function Flatten(chunks: seq<seq<Byte>>): seq<Byte> {
    if chunks == [] then [] else chunks[0] + Flatten(chunks[1..])
  }

  /** Any chunking of sequential writes is one large write. */
  lemma {:induction false} ChunkedWrite(f: seq<Byte>, chunks: seq<seq<Byte>>, position: nat)
    ensures WriteChunks(f, chunks, position) ==
            (WriteSlice(f, Flatten(chunks), position), position + Clip(|f|, |Flatten(chunks)|, position))
    decreases |chunks|
  {
    if chunks == [] {
      assert WriteSlice(f, [], position) == f;
    } else {
      ChunkedWrite(WriteSlice(f, chunks[0], position), chunks[1..], position + Clip(|f|, |chunks[0]|, position));
      WriteTwice(f, chunks[0], Flatten(chunks[1..]), position);
    }
  }

  function ReadChunks(f: seq<Byte>, counts: seq<nat>, position: nat): (r: (seq<Byte>, nat))
    decreases |counts|
  {
    if counts == [] then ([], position)
    else
      var head := ReadSlice(f, counts[0], position);
      var (tail, at) := ReadChunks(f, counts[1..], position + |head|);
      (head + tail, at)
  }

  /** Any chunking of sequential reads is one large read. */
  lemma {:induction false} ChunkedRead(f: seq<Byte>, counts: seq<nat>, position: nat)
    ensures ReadChunks(f, counts, position) ==
            (ReadSlice(f, Sum(counts), position), position + |ReadSlice(f, Sum(counts), position)|)
    decreases |counts|
  {
    if counts != [] {
      var head := ReadSlice(f, counts[0], position);
      ChunkedRead(f, counts[1..], position + |head|);
      ReadTwice(f, counts[0], Sum(counts[1..]), position);
    }
  }

  // ---------------------------------------------------------------- the disk and open files

  /** The synchronous disk: whole sectors only. */
  class SynchDisk {
    var sectors: seq<Sector>

    method ReadSector(n: int) returns (data: Sector)
      requires 0 <= n < |sectors|
      ensures data == sectors[n]
    {
      data := sectors[n];
    }

    method WriteSector(n: int, data: Sector)
      requires 0 <= n < |sectors|
      modifies this
      ensures sectors == old(sectors)[n := data]
    {
      sectors := sectors[n := data];
    }
  }

  class OpenFile {
    const disk: SynchDisk
    const hdr: Inode
    var seekPosition: nat

    ghost predicate Valid()
      reads this, disk
    {
      DiskOk(disk.sectors) && InodeOk(hdr, |disk.sectors|)
    }

    ghost function Contents(): seq<Byte>
      requires Valid()
      reads this, disk
    {
      FileBytes(disk.sectors, hdr)
    }

    /** Brings in the header that is at the sector. */
    constructor (disk: SynchDisk, sector: int, ghost h: Inode)
      requires DiskOk(disk.sectors) && 0 <= sector < |disk.sectors| && HeaderIs(disk.sectors[sector], h) && InodeOk(h, |disk.sectors|)
      ensures Valid() && this.disk == disk && hdr == h && seekPosition == 0
    {
      HeaderIsDecoded(disk.sectors[sector], h);
      this.disk, hdr, seekPosition := disk, DecodeInode(disk.sectors[sector]), 0;
    }

    /** The slice of the file, clipped at its end. */
    method ReadAt(numBytes: int, position: nat) returns (into: seq<Byte>)
      requires Valid()
      ensures into == ReadSlice(Contents(), numBytes, position)
    {
      if numBytes <= 0 || position >= hdr.numBytes { return []; }
      var count := if position + numBytes > hdr.numBytes then hdr.numBytes - position else numBytes;
      var first, last := position / SectorSize, (position + count - 1) / SectorSize;
      var buf := ReadSectors(first, last);
      var from := position - first * SectorSize;
      into := buf[from..from + count];
      forall k | 0 <= k < count ensures into[k] == FileByte(disk.sectors, hdr, position + k) {
        SectorOffset(first, from + k);
      }
    }

    /** The sectors first..last, one after the other in a buffer. */
    method ReadSectors(first: nat, last: nat) returns (buf: seq<Byte>)
      requires Valid() && first <= last < hdr.numSectors
      ensures |buf| == (last - first + 1) * SectorSize
      ensures forall k :: 0 <= k < |buf| ==> buf[k] == disk.sectors[hdr.dataSectors[first + k / SectorSize]][k % SectorSize]
    {
      buf := [];
      var i := first;
      while i <= last
        invariant first <= i <= last + 1 && |buf| == (i - first) * SectorSize
        invariant forall k :: 0 <= k < |buf| ==> buf[k] == disk.sectors[hdr.dataSectors[first + k / SectorSize]][k % SectorSize]
      {
        var sector := disk.ReadSector(hdr.dataSectors[i * SectorSize / SectorSize]);
        buf := buf + sector;
        i := i + 1;
      }
    }

    /** Rewrites the sectors first..last from a buffer. */
    method WriteSectors(first: nat, last: nat, buf: seq<Byte>)
      requires Valid() && first <= last < hdr.numSectors && |buf| == (last - first + 1) * SectorSize
      modifies disk
      ensures Written(old(disk.sectors), disk.sectors, hdr, first, last + 1, buf)
    {
      var i := first;
      while i <= last
        invariant first <= i <= last + 1 && |disk.sectors| == old(|disk.sectors|)
        invariant Written(old(disk.sectors), disk.sectors, hdr, first, i, buf)
      {
        WrittenMore(old(disk.sectors), disk.sectors, hdr, first, i, buf);
        disk.WriteSector(hdr.dataSectors[i * SectorSize / SectorSize], Chunk(buf, i - first));
        i := i + 1;
      }
    }

    /** A buffer for count bytes at position whose partially written first and last sectors hold the old contents.
        The memory it starts from is arbitrary. */
    method FetchEdges(count: nat, position: nat, first: nat, last: nat) returns (buf: seq<Byte>)
      requires Valid() && 0 < count && position + count <= hdr.numBytes
      requires first == position / SectorSize && last == (position + count - 1) / SectorSize
      ensures |buf| == (last - first + 1) * SectorSize && position - first * SectorSize + count <= |buf|
      ensures Edges(buf, first, Contents(), position, position + count)
    {
      buf := NewBuffer((last - first + 1) * SectorSize);
      var firstAligned := position == first * SectorSize;
      var lastAligned := position + count == (last + 1) * SectorSize;
      if !firstAligned { buf := FetchInto(buf, first, first); }
      if !lastAligned && (first != last || firstAligned) { buf := FetchInto(buf, first, last); }
    }

    /** The buffer a write puts back: old contents where the request does not reach, the new bytes where it does. */
    method PrepareBuffer(from: seq<Byte>, position: nat, first: nat, last: nat) returns (buf: seq<Byte>)
      requires Valid() && 0 < |from| && position + |from| <= hdr.numBytes
      requires first == position / SectorSize && last == (position + |from| - 1) / SectorSize
      ensures |buf| == (last - first + 1) * SectorSize && BufferOk(buf, first, WriteSlice(Contents(), from, position))
    {
      var edges := FetchEdges(|from|, position, first, last);
      buf := Splice(edges, position - first * SectorSize, from);
      EdgesFilled(edges, first, Contents(), position, from);
    }

    /** Reads sector number j of the file, as far as the file goes, into its place in a buffer that starts at sector first. */
    method FetchInto(buf: seq<Byte>, first: nat, j: nat) returns (r: seq<Byte>)
      requires Valid() && first <= j && (j - first + 1) * SectorSize <= |buf| && j * SectorSize < hdr.numBytes
      ensures |r| == |buf| && Fetched(buf, r, first, j, Contents())
    {
      var data := ReadAt(SectorSize, j * SectorSize);
      r := Splice(buf, (j - first) * SectorSize, data);
      SpliceFetched(buf, first, j, Contents());
    }

    /** Overwrites the slice, clipped at the end of the file; no other sector of the disk changes. */
    method WriteAt(from: seq<Byte>, position: nat) returns (count: nat)
      requires Valid()
      modifies disk
      ensures Valid() && |disk.sectors| == old(|disk.sectors|) && count == Clip(hdr.numBytes, |from|, position)
      ensures Contents() == WriteSlice(old(Contents()), from, position)
      ensures forall s :: 0 <= s < |disk.sectors| && s !in hdr.Data() ==> disk.sectors[s] == old(disk.sectors[s])
    {
      if |from| == 0 || position >= hdr.numBytes { return 0; }
      count := if position + |from| > hdr.numBytes then hdr.numBytes - position else |from|;
      var first, last := position / SectorSize, (position + count - 1) / SectorSize;
      var buf := PrepareBuffer(from[..count], position, first, last);
      assert WriteSlice(Contents(), from[..count], position) == WriteSlice(Contents(), from, position);
      WriteSectors(first, last, buf);
      WrittenFile(old(disk.sectors), disk.sectors, hdr, first, last + 1, buf, WriteSlice(old(Contents()), from, position));
    }

    method Seek(position: nat)
      modifies this`seekPosition
      ensures seekPosition == position
    {
      seekPosition := position;
    }

    method Read(numBytes: int) returns (into: seq<Byte>)
      requires Valid()
      modifies this`seekPosition
      ensures Valid() && into == ReadSlice(Contents(), numBytes, old(seekPosition)) && seekPosition == old(seekPosition) + |into|
    {
      into := ReadAt(numBytes, seekPosition);
      seekPosition := seekPosition + |into|;
    }

    method Write(from: seq<Byte>) returns (count: nat)
      requires Valid()
      modifies this`seekPosition, disk
      ensures Valid() && |disk.sectors| == old(|disk.sectors|) && count == Clip(hdr.numBytes, |from|, old(seekPosition))
      ensures seekPosition == old(seekPosition) + count
      ensures Contents() == WriteSlice(old(Contents()), from, old(seekPosition))
      ensures forall s :: 0 <= s < |disk.sectors| && s !in hdr.Data() ==> disk.sectors[s] == old(disk.sectors[s])
    {
      count := WriteAt(from, seekPosition);
      seekPosition := seekPosition + count;
    }
  }

  /** Fresh memory of that size, holding anything at all. */
  method NewBuffer(size: nat) returns (buf: seq<Byte>)
    ensures |buf| == size
  {
    assert |seq<Byte>(size, i => 0)| == size;
    buf :| |buf| == size;
  }

  /** Rewriting sectors first..i from a good buffer gives the new contents. */
  lemma WrittenFile(before: seq<Sector>, after: seq<Sector>, h: Inode, first: nat, i: nat, buf: seq<Byte>, f: seq<Byte>)
    requires DiskOk(before) && InodeOk(h, |before|) && i <= h.numSectors && Written(before, after, h, first, i, buf)
    requires |f| == h.numBytes && BufferOk(buf, first, f) && |buf| == (i - first) * SectorSize
    requires forall k :: 0 <= k < |f| && !(first * SectorSize <= k < i * SectorSize) ==> f[k] == FileByte(before, h, k)
    ensures DiskOk(after) && FileBytes(after, h) == f
    ensures forall s :: 0 <= s < |after| && s !in h.Data() ==> after[s] == before[s]
  {
    forall s | 0 <= s < |after| ensures |after[s]| == SectorSize {
      if exists j :: first <= j < i && h.dataSectors[j] == s { }
    }
    forall k | 0 <= k < |f| ensures FileByte(after, h, k) == f[k] {
      var j := k / SectorSize;
      if first <= j < i {
        assert after[h.dataSectors[j]][k % SectorSize] == buf[k - first * SectorSize];
      } else {
        assert after[h.dataSectors[j]] == before[h.dataSectors[j]];
      }
    }
    forall s | 0 <= s < |after| && s !in h.Data() ensures after[s] == before[s] {
      forall j | first <= j < i ensures h.dataSectors[j] != s { assert h.Data()[j] == h.dataSectors[j]; }
    }
  }

  /** Sector number k of a buffer. */
  function Chunk(buf: seq<Byte>, k: nat): (c: Sector)
    requires (k + 1) * SectorSize <= |buf|
    ensures |c| == SectorSize
  {
    buf[k * SectorSize..(k + 1) * SectorSize]
  }

  /** The data sectors first..i of a file have been rewritten from the buffer, and nothing else. */
  ghost predicate Written(before: seq<Sector>, after: seq<Sector>, h: Inode, first: nat, i: nat, buf: seq<Byte>) {
    && |after| == |before| && first <= i <= |h.dataSectors| && (i - first) * SectorSize <= |buf|
    && (forall j :: first <= j < i ==> 0 <= h.dataSectors[j] < |after| && after[h.dataSectors[j]] == Chunk(buf, j - first))
    && (forall s :: 0 <= s < |after| && (forall j :: first <= j < i ==> h.dataSectors[j] != s) ==> after[s] == before[s])
  }

  lemma WrittenMore(before: seq<Sector>, after: seq<Sector>, h: Inode, first: nat, i: nat, buf: seq<Byte>)
    requires InodeOk(h, |before|) && Written(before, after, h, first, i, buf) && i < h.numSectors && (i + 1 - first) * SectorSize <= |buf|
    ensures Written(before, after[h.dataSectors[i] := Chunk(buf, i - first)], h, first, i + 1, buf)
  {
    var next := after[h.dataSectors[i] := Chunk(buf, i - first)];
    forall s | 0 <= s < |next| && (forall j :: first <= j < i + 1 ==> h.dataSectors[j] != s) ensures next[s] == before[s] {
      assert h.dataSectors[i] != s;
    }
  }

  /** What the write buffer must hold at offset k of the file, below its end. */
  ghost predicate BufferOk(buf: seq<Byte>, first: nat, f: seq<Byte>) {
    forall k :: 0 <= k < |buf| && first * SectorSize + k < |f| ==> buf[k] == f[first * SectorSize + k]
  }

  /** The buffer agrees with the file outside the range from..to, below the end of the file. */
  ghost predicate Edges(buf: seq<Byte>, first: nat, f: seq<Byte>, from: int, to: int) {
    forall k :: 0 <= k < |buf| && first * SectorSize + k < |f| && !(from <= first * SectorSize + k < to) ==> buf[k] == f[first * SectorSize + k]
  }

  /** r is buf with the file's bytes of sector j in place. */
  ghost predicate Fetched(buf: seq<Byte>, r: seq<Byte>, first: nat, j: nat, f: seq<Byte>)
    requires |r| == |buf|
  {
    forall k :: 0 <= k < |buf| ==>
      var o := first * SectorSize + k;
      r[k] == if j * SectorSize <= o < (j + 1) * SectorSize && o < |f| then f[o] else buf[k]
  }

  lemma SpliceFetched(buf: seq<Byte>, first: nat, j: nat, f: seq<Byte>)
    requires first <= j && (j - first + 1) * SectorSize <= |buf| && j * SectorSize < |f|
    ensures Fetched(buf, Splice(buf, (j - first) * SectorSize, ReadSlice(f, SectorSize, j * SectorSize)), first, j, f)
  {
  }

  lemma EdgesFilled(edges: seq<Byte>, first: nat, f: seq<Byte>, position: nat, from: seq<Byte>)
    requires first == position / SectorSize && Edges(edges, first, f, position, position + |from|)
    requires position - first * SectorSize + |from| <= |edges| && position + |from| <= |f|
    ensures BufferOk(Splice(edges, position - first * SectorSize, from), first, WriteSlice(f, from, position))
  {
  }

  lemma SectorOffset(first: nat, k: nat)
    ensures (first * SectorSize + k) / SectorSize == first + k / SectorSize
    ensures (first * SectorSize + k) % SectorSize == k % SectorSize
  {
  }
}
