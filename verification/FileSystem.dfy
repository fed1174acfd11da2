/**
 The file system on the disk: the bitmap and the directory are themselves files, fetched, changed and written back.
 */
module FileSystems {
  import opened Counting
  import opened Words
  import opened DiskLayout
  import opened Files
  import opened BitMaps
  import opened Directories
  import opened FileHeaders
  import opened Volumes
  import opened DiskGeometry

  const FreeMapSector: int := 0
  const DirectorySector: int := 1
  const FreeMapFileSize: int := 128
  const DirectoryFileSize: int := 200

  type Disk = seq<Sector>

  // ---------------------------------------------------------------- decoding a disk

  /** A file's header is at its sector. */
  ghost predicate HeaderAt(d: Disk, f: File)
    requires DiskOk(d) && f.File?
  {
    && 0 <= f.sector < |d| && HeaderIs(d[f.sector], f.hdr) && InodeOk(f.hdr, |d|) && f.data == f.hdr.Data()
  }

  /** ... and its contents are on its data sectors. */
  ghost predicate FileAt(d: Disk, f: File)
    requires DiskOk(d)
  {
    f.File? ==> HeaderAt(d, f) && f.bytes == FileBytes(d, f.hdr)
  }

  /** The bitmap's and the directory's headers are at their well-known sectors. */
  ghost predicate SystemAt(d: Disk, bitmap: File, directory: File) {
    && |d| == NumSectors && DiskOk(d) && bitmap.File? && directory.File? && bitmap.bytes == [] && directory.bytes == []
    && bitmap.sector == FreeMapSector && directory.sector == DirectorySector
    && HeaderAt(d, bitmap) && HeaderAt(d, directory)
    && bitmap.hdr.numBytes == FreeMapFileSize && directory.hdr.numBytes == DirectoryFileSize
  }

  /** A header's file is the bitmap of that set. */
  ghost predicate MapOn(d: Disk, h: Inode, marked: set<int>) {
    DiskOk(d) && InodeOk(h, |d|) && h.numBytes == FreeMapFileSize && MapIs(FileBytes(d, h), NumSectors, marked)
  }

  /** A header's file is that directory table. */
  ghost predicate TableOn(d: Disk, h: Inode, t: seq<DirEntry>) {
    DiskOk(d) && InodeOk(h, |d|) && h.numBytes == DirectoryFileSize && TableIs(FileBytes(d, h), t)
  }

  /** The disk holds the volume. */
  ghost predicate Decodes(d: Disk, v: Volume) {
    && |v.files| >= 2 && SystemAt(d, v.files[0], v.files[1])
    && MapOn(d, v.files[0].hdr, v.marked) && TableOn(d, v.files[1].hdr, v.table)
    && forall i :: 2 <= i < |v.files| ==> FileAt(d, v.files[i])
  }

  /** A disk holds at most one volume. */
  lemma DecodesOne(d: Disk, v: Volume, w: Volume)
    requires Decodes(d, v) && VolumeOk(v) && Decodes(d, w) && VolumeOk(w)
    ensures v == w
  {
    OneSystem(d, v.files[0], v.files[1], w.files[0], w.files[1]);
    OneMap(FileBytes(d, v.files[0].hdr), NumSectors, v.marked, w.marked);
    OneTable(FileBytes(d, v.files[1].hdr), v.table, w.table);
    forall i | 0 <= i < |v.files| ensures v.files[i] == w.files[i] {
      if i >= 2 { SameFile(d, v, w, i - 2); }
    }
  }

  lemma OneSystem(d: Disk, m: File, r: File, m': File, r': File)
    requires SystemAt(d, m, r) && SystemAt(d, m', r')
    ensures m == m' && r == r'
  {
    OneHeader(d[m.sector], m.hdr, m'.hdr);
    OneHeader(d[r.sector], r.hdr, r'.hdr);
  }

  lemma SameFile(d: Disk, v: Volume, w: Volume, i: int)
    requires Decodes(d, v) && VolumeOk(v) && Decodes(d, w) && VolumeOk(w) && v.table == w.table && 0 <= i < |v.table|
    ensures v.files[2 + i] == w.files[2 + i]
  {
    var f, g := v.files[2 + i], w.files[2 + i];
    assert (f.File? <==> v.table[i].inUse) && (g.File? <==> v.table[i].inUse);
    OneFile(d, f, g);
  }

  lemma OneFile(d: Disk, f: File, g: File)
    requires DiskOk(d) && FileAt(d, f) && FileAt(d, g) && (f.File? <==> g.File?) && (f.File? ==> f.sector == g.sector)
    ensures f == g
  {
    if f.File? {
      OneHeader(d[f.sector], f.hdr, g.hdr);
    }
  }

  // ---------------------------------------------------------------- what a change of the disk leaves alone

  lemma SameBytes(d: Disk, e: Disk, h: Inode)
    requires DiskOk(d) && DiskOk(e) && |d| == |e| && InodeOk(h, |d|)
    requires forall s :: s in h.Data() ==> e[s] == d[s]
    ensures FileBytes(e, h) == FileBytes(d, h)
  {
    forall i | 0 <= i < h.numBytes ensures FileByte(e, h, i) == FileByte(d, h, i) {
      assert h.Data()[i / SectorSize] == h.dataSectors[i / SectorSize];
    }
  }

  /** The disks agree outside a set of sectors. */
  ghost predicate Differ(d: Disk, e: Disk, where: set<int>) {
    |e| == |d| && DiskOk(e) && forall s :: 0 <= s < |d| && s !in where ==> e[s] == d[s]
  }

  lemma HeaderStays(d: Disk, e: Disk, where: set<int>, f: File)
    requires DiskOk(d) && f.File? && HeaderAt(d, f) && Differ(d, e, where) && f.sector !in where
    ensures HeaderAt(e, f)
  {
  }

  lemma FileStays(d: Disk, e: Disk, where: set<int>, f: File)
    requires DiskOk(d) && FileAt(d, f) && Differ(d, e, where) && forall s :: Holds(f, s) ==> s !in where
    ensures FileAt(e, f)
  {
    if f.File? {
      assert Holds(f, f.sector);
      forall s | s in f.data ensures e[s] == d[s] { assert Holds(f, s); }
      SameBytes(d, e, f.hdr);
    }
  }

  lemma DataStays(d: Disk, e: Disk, where: set<int>, f: File)
    requires DiskOk(d) && f.File? && HeaderAt(d, f) && Differ(d, e, where) && f.sector !in where && forall s :: s in f.data ==> s !in where
    ensures HeaderAt(e, f) && FileBytes(e, f.hdr) == FileBytes(d, f.hdr)
  {
    SameBytes(d, e, f.hdr);
  }

  /** Sectors held by no listed file: those of the bitmap and directory data and the free ones. */
  ghost predicate Foreign(v: Volume, where: set<int>) {
    forall s :: s in where && s in v.marked && |v.files| >= 2 ==> Holds(v.files[0], s) || Holds(v.files[1], s)
  }

  lemma ListedStay(d: Disk, e: Disk, v: Volume, where: set<int>)
    requires Decodes(d, v) && VolumeOk(v) && Differ(d, e, where) && Foreign(v, where)
    ensures forall i :: 2 <= i < |v.files| ==> FileAt(e, v.files[i])
  {
    forall i | 2 <= i < |v.files| ensures FileAt(e, v.files[i]) {
      forall s | Holds(v.files[i], s) ensures s !in where { HeldOnce(v, i, s); }
      FileStays(d, e, where, v.files[i]);
    }
  }

  lemma HeldOnce(v: Volume, i: int, s: int)
    requires VolumeOk(v) && 0 <= i < |v.files| && Holds(v.files[i], s)
    ensures s in v.marked && forall j :: 0 <= j < |v.files| && Holds(v.files[j], s) ==> j == i
  {
    assert OneOf(v.files, s);
  }

  /** The bitmap's and the directory's sectors are four disjoint groups, all marked. */
  lemma SystemApart(v: Volume)
    requires VolumeOk(v)
    ensures var m, t := v.files[0], v.files[1];
            && m.sector in v.marked && t.sector in v.marked && m.sector !in m.data && m.sector !in t.data && t.sector !in m.data && t.sector !in t.data
            && (forall s :: s in m.data ==> s !in t.data && s in v.marked)
            && (forall s :: s in t.data ==> s !in m.data && s in v.marked)
  {
    var m, t := v.files[0], v.files[1];
    forall s | Holds(m, s) ensures s in v.marked && !Holds(t, s) { HeldOnce(v, 0, s); }
    forall s | Holds(t, s) ensures s in v.marked && !Holds(m, s) { HeldOnce(v, 1, s); }
    assert Holds(m, m.sector) && Holds(t, t.sector);
    assert forall s :: s in m.data ==> Holds(m, s);
    assert forall s :: s in t.data ==> Holds(t, s);
  }

  ghost function Span(data: seq<int>): (r: set<int>)
    ensures forall s :: s in r <==> s in data
  {
    set s | s in data
  }

  // ---------------------------------------------------------------- flushing the bitmap and the directory

  /** Writing the bitmap's data keeps both headers and the table. */
  lemma MapFlushed(d: Disk, e: Disk, m: File, r: File, t: seq<DirEntry>, marked: set<int>)
    requires SystemAt(d, m, r) && TableOn(d, r.hdr, t) && Differ(d, e, Span(m.data))
    requires m.sector !in m.data && r.sector !in m.data && forall s :: s in r.data ==> s !in m.data
    requires MapOn(e, m.hdr, marked)
    ensures SystemAt(e, m, r) && TableOn(e, r.hdr, t) && MapOn(e, m.hdr, marked)
  {
    HeaderStays(d, e, Span(m.data), m);
    DataStays(d, e, Span(m.data), r);
  }

  /** Writing the directory's data keeps both headers. */
  lemma TableFlushed(d: Disk, e: Disk, m: File, r: File, t: seq<DirEntry>)
    requires SystemAt(d, m, r) && Differ(d, e, Span(r.data))
    requires m.sector !in r.data && r.sector !in r.data && forall s :: s in m.data ==> s !in r.data
    requires TableOn(e, r.hdr, t)
    ensures SystemAt(e, m, r) && TableOn(e, r.hdr, t) && FileBytes(e, m.hdr) == FileBytes(d, m.hdr)
  {
    HeaderStays(d, e, Span(r.data), r);
    DataStays(d, e, Span(r.data), m);
  }

  lemma SystemStays(d: Disk, e: Disk, where: set<int>, m: File, r: File)
    requires SystemAt(d, m, r) && Differ(d, e, where) && m.sector !in where && r.sector !in where
    ensures SystemAt(e, m, r)
  {
    HeaderStays(d, e, where, m);
    HeaderStays(d, e, where, r);
  }

  lemma DifferMore(d: Disk, e: Disk, f: Disk, a: set<int>, b: set<int>)
    requires Differ(d, e, a) && Differ(e, f, b)
    ensures Differ(d, f, a + b)
  {
  }

  // ---------------------------------------------------------------- the three commits

  /** Flushing a new file: its header to a free sector, then the directory, then the bitmap. */
  lemma CreateCommits(d0: Disk, d1: Disk, d2: Disk, d3: Disk, v: Volume, w: Volume, i: int, key: seq<Byte>, sector: int, h: Inode)
    requires Decodes(d0, v) && VolumeOk(v) && 0 <= sector < |d0| && sector !in v.marked && InodeOk(h, |d0|)
    requires Differ(d0, d1, {sector}) && Differ(d1, d2, Span(v.files[1].data)) && Differ(d2, d3, Span(v.files[0].data))
    requires TableOn(d2, v.files[1].hdr, w.table) && MapOn(d3, v.files[0].hdr, w.marked)
    requires AddedAt(v.table, w.table, i, key, sector) && !HasName(v.table, key) && Taken(v.marked + {sector}, w.marked, h.Data())
    requires FileAt(d3, Stored(d3, sector, h)) && w.files == v.files[2 + i := Stored(d3, sector, h)]
    ensures Decodes(d3, w) && Created(v, w, key, h.numBytes)
  {
    CreateFlushed(d0, d1, d2, d3, v, w, sector);
    NewFileFree(v, w, d3, sector, h);
    AddFile(v, w, i, key, Stored(d3, sector, h));
  }

  lemma CreateFlushed(d0: Disk, d1: Disk, d2: Disk, d3: Disk, v: Volume, w: Volume, sector: int)
    requires Decodes(d0, v) && VolumeOk(v) && sector !in v.marked
    requires Differ(d0, d1, {sector}) && Differ(d1, d2, Span(v.files[1].data)) && Differ(d2, d3, Span(v.files[0].data))
    requires TableOn(d2, v.files[1].hdr, w.table) && MapOn(d3, v.files[0].hdr, w.marked)
    ensures SystemAt(d3, v.files[0], v.files[1]) && TableOn(d3, v.files[1].hdr, w.table) && MapOn(d3, v.files[0].hdr, w.marked)
    ensures forall i :: 2 <= i < |v.files| ==> FileAt(d3, v.files[i])
  {
    SystemApart(v);
    var m, r := v.files[0], v.files[1];
    CreateSystem(d0, d1, d2, d3, m, r, w.table, w.marked, sector);
    DifferMore(d0, d1, d2, {sector}, Span(r.data));
    DifferMore(d0, d2, d3, {sector} + Span(r.data), Span(m.data));
    ListedStay(d0, d3, v, {sector} + Span(r.data) + Span(m.data));
  }

  lemma CreateSystem(d0: Disk, d1: Disk, d2: Disk, d3: Disk, m: File, r: File, t: seq<DirEntry>, marked: set<int>, sector: int)
    requires SystemAt(d0, m, r) && sector != m.sector && sector != r.sector
    requires m.sector !in m.data && m.sector !in r.data && r.sector !in m.data && r.sector !in r.data
    requires (forall s :: s in m.data ==> s !in r.data) && (forall s :: s in r.data ==> s !in m.data)
    requires Differ(d0, d1, {sector}) && Differ(d1, d2, Span(r.data)) && Differ(d2, d3, Span(m.data))
    requires TableOn(d2, r.hdr, t) && MapOn(d3, m.hdr, marked)
    ensures SystemAt(d3, m, r) && TableOn(d3, r.hdr, t) && MapOn(d3, m.hdr, marked)
  {
    SystemStays(d0, d1, {sector}, m, r);
    TableFlushed(d1, d2, m, r, t);
    MapFlushed(d2, d3, m, r, t, marked);
  }

  /** The file a header written to a sector stands for. */
  ghost function Stored(d: Disk, sector: int, h: Inode): (f: File)
    requires DiskOk(d) && InodeOk(h, |d|) && |d| <= 0x8000_0000
    ensures f.File? && f.sector == sector && f.data == h.Data() && |f.bytes| == h.numBytes
  {
    StoredHeader(h, |d|);
    var g := DecodeInode(EncodeInode(h));
    File(sector, g, g.Data(), FileBytes(d, g))
  }

  lemma NewFileFree(v: Volume, w: Volume, d: Disk, sector: int, h: Inode)
    requires DiskOk(d) && InodeOk(h, |d|) && |d| <= 0x8000_0000 && sector !in v.marked && Taken(v.marked + {sector}, w.marked, h.Data())
    ensures sector !in h.Data() && Grown(v.marked, w.marked, Stored(d, sector, h))
  {
  }

  /** Flushing a removal: the bitmap, then the directory. */
  lemma RemoveCommits(d0: Disk, d1: Disk, d2: Disk, v: Volume, w: Volume, i: int, key: seq<Byte>)
    requires Decodes(d0, v) && VolumeOk(v) && Listed(v.table, i, key)
    requires Differ(d0, d1, Span(v.files[0].data)) && Differ(d1, d2, Span(v.files[1].data))
    requires MapOn(d1, v.files[0].hdr, w.marked) && TableOn(d2, v.files[1].hdr, w.table)
    requires w.table == v.table[i := v.table[i].(inUse := false)] && w.files == v.files[2 + i := Nothing]
    requires Shrunk(v.marked, w.marked, v.files[2 + i])
    ensures Decodes(d2, w) && Removed(v, w, key)
  {
    SystemApart(v);
    MapFlushed(d0, d1, v.files[0], v.files[1], v.table, w.marked);
    TableFlushed(d1, d2, v.files[0], v.files[1], w.table);
    var where := Span(v.files[0].data) + Span(v.files[1].data);
    DifferMore(d0, d1, d2, Span(v.files[0].data), Span(v.files[1].data));
    ListedStay(d0, d2, v, where);
    RemoveFile(v, w, i, key);
  }

  /** Rewriting the data of one listed file changes no other file, no header, not the directory, not the bitmap. */
  lemma WriteCommits(d: Disk, e: Disk, v: Volume, w: Volume, i: int, key: seq<Byte>)
    requires Decodes(d, v) && VolumeOk(v) && Listed(v.table, i, key) && Differ(d, e, Span(v.files[2 + i].data))
    requires w == v.(files := v.files[2 + i := v.files[2 + i].(bytes := FileBytes(e, v.files[2 + i].hdr))])
    ensures Decodes(e, w) && Rewritten(v, w, key, FileBytes(e, v.files[2 + i].hdr))
  {
    var f := v.files[2 + i];
    var where := Span(f.data);
    forall j, s | 0 <= j < |v.files| && Holds(v.files[j], s) && (j == 2 + i ==> s == f.sector) ensures s !in where {
      HeldOnce(v, j, s);
      assert s in where ==> Holds(f, s);
    }
    SystemUnmoved(d, e, where, v);
    forall j | 2 <= j < |v.files| ensures FileAt(e, w.files[j]) {
      if j == 2 + i {
        assert FileAt(d, f) && Holds(f, f.sector);
        HeaderStays(d, e, where, f);
      } else {
        FileStays(d, e, where, v.files[j]);
      }
    }
    RewriteFile(v, w, i, key, FileBytes(e, f.hdr));
  }

  lemma SystemUnmoved(d: Disk, e: Disk, where: set<int>, v: Volume)
    requires Decodes(d, v) && Differ(d, e, where)
    requires forall j, s :: 0 <= j < 2 && Holds(v.files[j], s) ==> s !in where
    ensures SystemAt(e, v.files[0], v.files[1]) && MapOn(e, v.files[0].hdr, v.marked) && TableOn(e, v.files[1].hdr, v.table)
  {
    var m, r := v.files[0], v.files[1];
    assert Holds(m, m.sector) && Holds(r, r.sector);
    assert forall s :: s in m.data ==> Holds(m, s);
    assert forall s :: s in r.data ==> Holds(r, s);
    DataStays(d, e, where, m);
    DataStays(d, e, where, r);
  }

  // ---------------------------------------------------------------- the operations

  /** Whether a Create can succeed: the name is new, a row is free, and the header and the data fit. */
  ghost predicate CanCreate(v: Volume, key: seq<Byte>, size: int) {
    !HasName(v.table, key) && HasRoom(v.table) && 1 + SectorsFor(size) <= |UpTo(NumSectors) - v.marked|
  }

  lemma HeaderWritten(d0: Disk, d2: Disk, d3: Disk, v: Volume, sector: int, h: Inode)
    requires VolumeOk(v) && 0 <= sector < |d0| == NumSectors && sector !in v.marked && InodeOk(h, |d0|) && DiskOk(d0)
    requires Differ(d0[sector := EncodeInode(h)], d2, Span(v.files[1].data)) && Differ(d2, d3, Span(v.files[0].data))
    ensures Differ(d0, d0[sector := EncodeInode(h)], {sector}) && FileAt(d3, Stored(d3, sector, h))
  {
    SystemApart(v);
    StoredHeader(h, |d3|);
    assert d3[sector] == EncodeInode(h);
  }

  // ---------------------------------------------------------------- formatting

  /** Marks the header sectors and allocates the data of the bitmap and of the directory; there is always room. */
  method AllocateSystem(freeMap: BitMap, mapHdr: FileHeader, dirHdr: FileHeader)
    requires freeMap.Valid() && freeMap.numBits == NumSectors && freeMap.marked == {} && mapHdr != dirHdr && mapHdr.dataSectors != dirHdr.dataSectors
    requires mapHdr.Valid() && dirHdr.Valid() && mapHdr.Apart(freeMap) && dirHdr.Apart(freeMap)
    modifies freeMap, freeMap.words, mapHdr, mapHdr.dataSectors, dirHdr, dirHdr.dataSectors
    ensures freeMap.Valid() && mapHdr.Valid() && dirHdr.Valid()
    ensures SystemAllocated(mapHdr.Value(), dirHdr.Value(), freeMap.marked)
  {
    freeMap.Mark(FreeMapSector);
    freeMap.Mark(DirectorySector);
    RoomForTwo(NumSectors, freeMap.marked);
    var ok := mapHdr.Allocate(freeMap, FreeMapFileSize);
    assert ok;
    ghost var between, h := freeMap.marked, mapHdr.Value();
    ok := dirHdr.Allocate(freeMap, DirectoryFileSize);
    assert ok;
    assert mapHdr.Value() == h;
    assert TakenTwice(h, dirHdr.Value(), between, freeMap.marked);
  }

  lemma RoomForTwo(n: nat, marked: set<int>)
    requires marked == {FreeMapSector, DirectorySector} && n >= 2
    ensures |UpTo(n) - marked| == n - 2
  {
    UpToCount(n);
    TwoLess(UpTo(n), FreeMapSector, DirectorySector);
  }

  lemma TwoLess(all: set<int>, x: int, y: int)
    requires x in all && y in all && x != y
    ensures |all - {x, y}| == |all| - 2
  {
    assert all - {x, y} == all - {x} - {y};
  }

  ghost predicate TakenTwice(h: Inode, g: Inode, between: set<int>, marked: set<int>)
    requires 0 <= h.numSectors <= |h.dataSectors| && 0 <= g.numSectors <= |g.dataSectors|
  {
    Taken({FreeMapSector, DirectorySector}, between, h.Data()) && Taken(between, marked, g.Data())
  }

  ghost predicate SystemAllocated(h: Inode, g: Inode, marked: set<int>) {
    && InodeOk(h, NumSectors) && InodeOk(g, NumSectors) && h.numBytes == FreeMapFileSize && g.numBytes == DirectoryFileSize
    && exists between :: TakenTwice(h, g, between, marked)
  }

  ghost function SystemFile(sector: int, h: Inode): (f: File)
    requires InodeOk(h, NumSectors)
    ensures f.File? && f.sector == sector && f.data == h.Data() && f.bytes == [] && InodeOk(f.hdr, NumSectors) && f.hdr.numBytes == h.numBytes
    ensures f.hdr.Data() == f.data
  {
    StoredHeader(h, NumSectors);
    var g := DecodeInode(EncodeInode(h));
    File(sector, g, g.Data(), [])
  }

  lemma SystemFileStored(sector: int, h: Inode)
    requires InodeOk(h, NumSectors)
    ensures HeaderIs(EncodeInode(h), SystemFile(sector, h).hdr)
  {
    HeaderIsDecoded(EncodeInode(h), SystemFile(sector, h).hdr);
  }

  lemma FreshHeaders(d0: Disk, d1: Disk, h: Inode, g: Inode)
    requires DiskOk(d0) && |d0| == NumSectors && InodeOk(h, NumSectors) && InodeOk(g, NumSectors)
    requires h.numBytes == FreeMapFileSize && g.numBytes == DirectoryFileSize
    requires d1 == d0[FreeMapSector := EncodeInode(h)][DirectorySector := EncodeInode(g)]
    ensures SystemAt(d1, SystemFile(FreeMapSector, h), SystemFile(DirectorySector, g))
  {
    SystemFileStored(FreeMapSector, h);
    SystemFileStored(DirectorySector, g);
  }

  ghost function EmptyVolume(t: seq<DirEntry>, marked: set<int>, m: File, r: File): Volume {
    Volume(t, marked, [m, r] + seq(|t|, i => Nothing))
  }

  lemma EmptyPartition(between: set<int>, marked: set<int>, files: seq<File>)
    requires |files| >= 2 && files[0].File? && files[1].File? && files[0].sector == FreeMapSector && files[1].sector == DirectorySector
    requires Taken({FreeMapSector, DirectorySector}, between, files[0].data) && Taken(between, marked, files[1].data)
    requires forall i :: 2 <= i < |files| ==> files[i].Nothing?
    ensures Partition(files, marked)
    ensures FreeMapSector !in files[1].data && DirectorySector !in files[0].data
    ensures forall s :: s in files[0].data ==> s !in files[1].data
  {
    assert FreeMapSector in between && DirectorySector in between;
    assert forall s :: Holds(files[0], s) <==> s == FreeMapSector || s in files[0].data;
    assert forall s :: Holds(files[1], s) <==> s == DirectorySector || s in files[1].data;
    assert forall s :: s in between ==> s in marked;
    forall i, s | 0 <= i < |files| && Holds(files[i], s) ensures i < 2 && s in marked {
      assert i == 0 || i == 1;
    }
    forall s | s in marked ensures OneOf(files, s) {
      assert Holds(files[0], s) || Holds(files[1], s);
    }
  }

  /** The bitmap's and the directory's data were taken one after the other, their headers before. */
  ghost predicate FilesTaken(m: File, r: File, between: set<int>, marked: set<int>)
    requires m.File? && r.File?
  {
    && m.sector == FreeMapSector && r.sector == DirectorySector
    && Taken({FreeMapSector, DirectorySector}, between, m.data) && Taken(between, marked, r.data)
  }

  lemma FilesSeparate(m: File, r: File, between: set<int>, marked: set<int>)
    requires m.File? && r.File? && FilesTaken(m, r, between, marked)
    ensures m.sector !in m.data && m.sector !in r.data && r.sector !in m.data && r.sector !in r.data
  {
    assert m.sector in between && r.sector in between;
  }

  lemma FormatCommits(d1: Disk, d2: Disk, d3: Disk, m: File, r: File, between: set<int>, t: seq<DirEntry>, marked: set<int>)
    requires SystemAt(d1, m, r) && FilesTaken(m, r, between, marked)
    requires Differ(d1, d2, Span(m.data)) && Differ(d2, d3, Span(r.data)) && MapOn(d2, m.hdr, marked) && TableOn(d3, r.hdr, t)
    requires forall i :: 0 <= i < |t| ==> !t[i].inUse
    ensures VolumeOk(EmptyVolume(t, marked, m, r)) && Decodes(d3, EmptyVolume(t, marked, m, r))
  {
    var v := EmptyVolume(t, marked, m, r);
    EmptyPartition(between, marked, v.files);
    TableIsDecoded(FileBytes(d1, r.hdr), DecodeTable(FileBytes(d1, r.hdr)));
    MapFlushed(d1, d2, m, r, DecodeTable(FileBytes(d1, r.hdr)), marked);
    TableFlushed(d2, d3, m, r, t);
  }

  lemma EmptyView(v: Volume)
    requires VolumeOk(v) && forall i :: 0 <= i < |v.table| ==> !v.table[i].inUse
    ensures View(v) == map[]
  {
    forall k ensures k !in View(v) { assert !HasName(v.table, k); }
  }

  ghost function NewVolume(d: Disk, v: Volume, i: int, sector: int, h: Inode, t: seq<DirEntry>, marked: set<int>): Volume
    requires DiskOk(d) && InodeOk(h, |d|) && |d| <= 0x8000_0000 && 0 <= i && 2 + i < |v.files|
  {
    Volume(t, marked, v.files[2 + i := Stored(d, sector, h)])
  }

  lemma CreateAll(d0: Disk, d1: Disk, d2: Disk, d3: Disk, v: Volume, i: int, key: seq<Byte>, sector: int, h: Inode,
                  t: seq<DirEntry>, marked: set<int>)
    requires Decodes(d0, v) && VolumeOk(v) && 0 <= sector < |d0| && sector !in v.marked && InodeOk(h, |d0|)
    requires d1 == d0[sector := EncodeInode(h)] && Differ(d1, d2, Span(v.files[1].data)) && Differ(d2, d3, Span(v.files[0].data))
    requires TableOn(d2, v.files[1].hdr, t) && MapOn(d3, v.files[0].hdr, marked)
    requires AddedAt(v.table, t, i, key, sector) && !HasName(v.table, key) && Taken(v.marked + {sector}, marked, h.Data())
    ensures var w := NewVolume(d3, v, i, sector, h, t, marked);
            && Decodes(d3, w) && Created(v, w, key, h.numBytes) && w.files[0] == v.files[0] && w.files[1] == v.files[1]
  {
    HeaderWritten(d0, d2, d3, v, sector, h);
    CreateCommits(d0, d1, d2, d3, v, NewVolume(d3, v, i, sector, h, t, marked), i, key, sector, h);
  }

  class FileSystem {
    const disk: SynchDisk
    const freeMapFile: OpenFile
    const directoryFile: OpenFile
    /** What the disk holds. */
    ghost var vol: Volume

    ghost predicate Valid()
      reads this, disk
    {
      && freeMapFile.disk == disk && directoryFile.disk == disk && VolumeOk(vol) && Decodes(disk.sectors, vol)
      && freeMapFile.hdr == vol.files[0].hdr && directoryFile.hdr == vol.files[1].hdr
    }

    /** Lays out an empty file system on a disk that holds anything at all. */
    constructor Format(disk: SynchDisk)
      requires DiskOk(disk.sectors) && |disk.sectors| == NumSectors
      modifies disk
      ensures Valid() && this.disk == disk && View(vol) == map[]
    {
      var m, r;
      ghost var v;
      m, r, v := FormatDisk(disk);
      this.disk, freeMapFile, directoryFile, vol := disk, m, r, v;
    }

    static method FormatDisk(disk: SynchDisk) returns (m: OpenFile, r: OpenFile, ghost v: Volume)
      requires DiskOk(disk.sectors) && |disk.sectors| == NumSectors
      modifies disk
      ensures m.disk == disk && r.disk == disk && VolumeOk(v) && Decodes(disk.sectors, v) && View(v) == map[]
      ensures m.hdr == v.files[0].hdr && r.hdr == v.files[1].hdr
    {
      var freeMap := new BitMap(NumSectors);
      var directory := new Directory(NumDirEntries);
      var mapHdr := new FileHeader();
      var dirHdr := new FileHeader();
      AllocateSystem(freeMap, mapHdr, dirHdr);
      ghost var h, g, marked := mapHdr.Value(), dirHdr.Value(), freeMap.marked;
      WriteHeaders(disk, mapHdr, dirHdr);
      m := new OpenFile(disk, FreeMapSector, SystemFile(FreeMapSector, h).hdr);
      r := new OpenFile(disk, DirectorySector, SystemFile(DirectorySector, g).hdr);
      ghost var between :| TakenTwice(h, g, between, marked);
      v := FirstFlush(disk, m, r, freeMap, directory, SystemFile(FreeMapSector, h), SystemFile(DirectorySector, g), between);
    }

    static method WriteHeaders(disk: SynchDisk, mapHdr: FileHeader, dirHdr: FileHeader)
      requires DiskOk(disk.sectors) && |disk.sectors| == NumSectors && mapHdr.Valid() && dirHdr.Valid()
      requires InodeOk(mapHdr.Value(), NumSectors) && InodeOk(dirHdr.Value(), NumSectors)
      requires mapHdr.Value().numBytes == FreeMapFileSize && dirHdr.Value().numBytes == DirectoryFileSize
      modifies disk
      ensures SystemAt(disk.sectors, SystemFile(FreeMapSector, mapHdr.Value()), SystemFile(DirectorySector, dirHdr.Value()))
    {
      ghost var was := disk.sectors;
      mapHdr.WriteBack(disk, FreeMapSector);
      dirHdr.WriteBack(disk, DirectorySector);
      FreshHeaders(was, disk.sectors, mapHdr.Value(), dirHdr.Value());
    }

    /** The bitmap and the empty directory go to disk. */
    static method FirstFlush(disk: SynchDisk, m: OpenFile, r: OpenFile, freeMap: BitMap, directory: Directory,
                             ghost a: File, ghost b: File, ghost between: set<int>)
      returns (ghost v: Volume)
      requires m.disk == disk && r.disk == disk && freeMap.Valid() && freeMap.numBits == NumSectors && directory.Valid()
      requires SystemAt(disk.sectors, a, b) && FilesTaken(a, b, between, freeMap.marked) && m.hdr == a.hdr && r.hdr == b.hdr
      requires directory.table.Length == NumDirEntries && forall i :: 0 <= i < NumDirEntries ==> !directory.table[i].inUse
      modifies disk
      ensures VolumeOk(v) && Decodes(disk.sectors, v) && View(v) == map[]
      ensures m.hdr == v.files[0].hdr && r.hdr == v.files[1].hdr
    {
      ghost var t, marked, d1 := directory.table[..], freeMap.marked, disk.sectors;
      FilesSeparate(a, b, between, marked);
      WriteMap(disk, m, freeMap, a, b);
      ghost var d2 := disk.sectors;
      WriteDirectory(disk, r, directory, a, b);
      FormatCommits(d1, d2, disk.sectors, a, b, between, t, marked);
      v := EmptyVolume(t, marked, a, b);
      EmptyView(v);
    }

    /** Opens the files of a disk that holds a file system. */
    constructor Mount(disk: SynchDisk, ghost v: Volume)
      requires VolumeOk(v) && Decodes(disk.sectors, v)
      ensures Valid() && this.disk == disk && vol == v
    {
      this.disk, vol := disk, v;
      freeMapFile := new OpenFile(disk, FreeMapSector, v.files[0].hdr);
      directoryFile := new OpenFile(disk, DirectorySector, v.files[1].hdr);
    }

    method FetchDirectory() returns (directory: Directory)
      requires Valid()
      ensures fresh(directory) && fresh(directory.table) && directory.Valid() && directory.table[..] == vol.table
      ensures directory.table.Length == NumDirEntries
    {
      directory := new Directory(NumDirEntries);
      directory.FetchFrom(directoryFile);
      OneTable(directoryFile.Contents(), directory.table[..], vol.table);
    }

    /** The directory and the header sector it gives for a name: -1 exactly when the name is not listed. */
    method Locate(name: seq<Byte>) returns (directory: Directory, sector: int)
      requires Valid()
      ensures fresh(directory) && fresh(directory.table) && directory.Valid() && directory.table[..] == vol.table
      ensures directory.table.Length == NumDirEntries
      ensures sector == -1 <==> !HasName(vol.table, Key(name))
      ensures sector != -1 ==> 0 <= sector && exists i :: Listed(vol.table, i, Key(name)) && vol.table[i].sector == sector
    {
      directory := FetchDirectory();
      sector := directory.Find(name);
      ListedSector(vol);
    }

    method FetchMap() returns (freeMap: BitMap)
      requires Valid()
      ensures fresh(freeMap) && fresh(freeMap.words) && freeMap.Valid() && freeMap.numBits == NumSectors && freeMap.marked == vol.marked
    {
      freeMap := new BitMap(NumSectors);
      freeMap.FetchFrom(freeMapFile);
      OneMap(freeMapFile.Contents(), NumSectors, freeMap.marked, vol.marked);
    }

    /** Succeeds exactly when it can; a failure leaves the disk as it was. */
    method Create(name: seq<Byte>, initialSize: int) returns (success: bool)
      requires Valid() && 0 <= initialSize <= MaxFileSize
      modifies this, disk
      ensures Valid() && (success <==> CanCreate(old(vol), Key(name), initialSize))
      ensures success ==> Created(old(vol), vol, Key(name), initialSize)
      ensures !success ==> vol == old(vol) && disk.sectors == old(disk.sectors)
    {
      var directory, found := Locate(name);
      if found != -1 { return false; }
      var freeMap := FetchMap();
      var sector, hdr;
      success, sector, hdr := Reserve(directory, freeMap, name, initialSize);
      if success { FlushNew(hdr, sector, directory, freeMap, Key(name)); }
    }

    /** In memory: a sector for the header, a row of the directory, sectors for the data. */
    static method Reserve(directory: Directory, freeMap: BitMap, name: seq<Byte>, initialSize: int)
      returns (success: bool, sector: int, hdr: FileHeader)
      requires directory.Valid() && freeMap.Valid() && freeMap.numBits == NumSectors && 0 <= initialSize <= MaxFileSize
      requires !HasName(directory.table[..], Key(name)) && directory.table as object != freeMap.words as object
      modifies directory.table, freeMap, freeMap.words
      ensures directory.Valid() && freeMap.Valid() && fresh(hdr) && fresh(hdr.dataSectors) && hdr.Valid()
      ensures success <==> HasRoom(old(directory.table[..])) && 1 + SectorsFor(initialSize) <= |UpTo(NumSectors) - old(freeMap.marked)|
      ensures success ==> 0 <= sector < NumSectors && sector !in old(freeMap.marked)
      ensures success ==> InodeOk(hdr.Value(), NumSectors) && hdr.numBytes == initialSize
      ensures success ==> Taken(old(freeMap.marked) + {sector}, freeMap.marked, hdr.Value().Data())
      ensures success ==> exists i :: AddedAt(old(directory.table[..]), directory.table[..], i, Key(name), sector)
    {
      hdr := new FileHeader();
      ghost var t, marked := directory.table[..], freeMap.marked;
      sector := freeMap.Find();
      if sector == -1 {
        NoneClear(NumSectors, marked);
        return false, sector, hdr;
      }
      ClearShrinks(NumSectors, marked, sector);
      success := directory.Add(name, sector);
      if success {
        ghost var u := directory.table[..];
        success := hdr.Allocate(freeMap, initialSize);
        assert directory.table[..] == u;
      }
    }

    /** Everything worked: the header, the directory and the bitmap go to disk. */
    method FlushNew(hdr: FileHeader, sector: int, directory: Directory, freeMap: BitMap, ghost key: seq<Byte>)
      requires Valid() && hdr.Valid() && directory.Valid() && freeMap.Valid() && freeMap.numBits == NumSectors
      requires directory.table.Length == NumDirEntries
      requires 0 <= sector < NumSectors && sector !in vol.marked && !HasName(vol.table, key)
      requires exists i :: AddedAt(vol.table, directory.table[..], i, key, sector)
      requires InodeOk(hdr.Value(), NumSectors) && Taken(vol.marked + {sector}, freeMap.marked, hdr.Value().Data())
      modifies this, disk
      ensures Valid() && Created(old(vol), vol, key, hdr.numBytes)
    {
      ghost var v, h, t, marked, d0 := vol, hdr.Value(), directory.table[..], freeMap.marked, disk.sectors;
      ghost var i := RowAdded(v.table, t, key, sector);
      ghost var d1, d2 := WriteNew(hdr, sector, directory, freeMap);
      vol := NewVolume(disk.sectors, v, i, sector, h, t, marked);
      CreateAll(d0, d1, d2, disk.sectors, v, i, key, sector, h, t, marked);
    }

    method WriteNew(hdr: FileHeader, sector: int, directory: Directory, freeMap: BitMap) returns (ghost d1: Disk, ghost d2: Disk)
      requires Valid() && hdr.Valid() && directory.Valid() && freeMap.Valid() && freeMap.numBits == NumSectors
      requires directory.table.Length == NumDirEntries && 0 <= sector < NumSectors && sector !in vol.marked
      modifies disk
      ensures d1 == old(disk.sectors)[sector := EncodeInode(hdr.Value())] && Differ(d1, d2, Span(vol.files[1].data))
      ensures Differ(d2, disk.sectors, Span(vol.files[0].data))
      ensures TableOn(d2, vol.files[1].hdr, directory.table[..]) && MapOn(disk.sectors, vol.files[0].hdr, freeMap.marked)
    {
      ghost var m, r, d0 := vol.files[0], vol.files[1], disk.sectors;
      hdr.WriteBack(disk, sector);
      d1 := disk.sectors;
      HeaderFirst(d0, d1, vol, sector);
      WriteDirectory(disk, directoryFile, directory, m, r);
      d2 := disk.sectors;
      WriteMap(disk, freeMapFile, freeMap, m, r);
    }

    static method WriteDirectory(disk: SynchDisk, file: OpenFile, directory: Directory, ghost m: File, ghost r: File)
      requires file.disk == disk && SystemAt(disk.sectors, m, r) && file.hdr == r.hdr
      requires directory.Valid() && directory.table.Length == NumDirEntries && m.sector !in r.data && r.sector !in r.data
      modifies disk
      ensures Differ(old(disk.sectors), disk.sectors, Span(r.data)) && TableOn(disk.sectors, r.hdr, directory.table[..])
      ensures SystemAt(disk.sectors, m, r)
    {
      ghost var d := disk.sectors;
      directory.WriteBack(file);
      SystemStays(d, disk.sectors, Span(r.data), m, r);
    }

    static method WriteMap(disk: SynchDisk, file: OpenFile, freeMap: BitMap, ghost m: File, ghost r: File)
      requires file.disk == disk && SystemAt(disk.sectors, m, r) && file.hdr == m.hdr
      requires freeMap.Valid() && freeMap.numBits == NumSectors && m.sector !in m.data && r.sector !in m.data
      modifies disk
      ensures Differ(old(disk.sectors), disk.sectors, Span(m.data)) && MapOn(disk.sectors, m.hdr, freeMap.marked)
      ensures SystemAt(disk.sectors, m, r)
    {
      ghost var d := disk.sectors;
      freeMap.WriteBack(file);
      SystemStays(d, disk.sectors, Span(m.data), m, r);
    }

    /** A handle on the file, or null exactly when the name is not listed. */
    method Open(name: seq<Byte>) returns (openFile: OpenFile?)
      requires Valid()
      ensures openFile == null <==> FileOf(vol, Key(name)).Nothing?
      ensures openFile != null ==> fresh(openFile) && openFile.disk == disk && openFile.Valid() && openFile.seekPosition == 0
      ensures openFile != null ==> openFile.hdr == FileOf(vol, Key(name)).hdr && openFile.Contents() == FileOf(vol, Key(name)).bytes
    {
      var directory, sector := Locate(name);
      openFile := null;
      if sector >= 0 {
        ghost var i :| Listed(vol.table, i, Key(name)) && vol.table[i].sector == sector;
        LookupRow(vol.table, vol.files, i, Key(name));
        assert FileAt(disk.sectors, vol.files[2 + i]);
        openFile := new OpenFile(disk, sector, vol.files[2 + i].hdr);
      }
    }

    /** A handle on a file that has not been removed. It stays one while other files come and go. */
    ghost predicate IsHandle(f: OpenFile, key: seq<Byte>)
      requires Valid()
      reads this, disk
    {
      f.disk == disk && FileOf(vol, key).File? && f.hdr == FileOf(vol, key).hdr
    }

    /** A write through a handle: one slice of one file changes, no other file, header, directory or bitmap. */
    method WriteThrough(f: OpenFile, from: seq<Byte>, position: nat, ghost key: seq<Byte>) returns (count: nat)
      requires Valid() && IsHandle(f, key)
      modifies this, disk
      ensures Valid() && IsHandle(f, key) && count == Clip(|FileOf(old(vol), key).bytes|, |from|, position)
      ensures Rewritten(old(vol), vol, key, WriteSlice(FileOf(old(vol), key).bytes, from, position))
    {
      ghost var v, d, i := vol, disk.sectors, RowHolding(vol, key);
      assert FileAt(d, v.files[2 + i]);
      count := f.WriteAt(from, position);
      assert Differ(d, disk.sectors, Span(v.files[2 + i].data));
      vol := v.(files := v.files[2 + i := v.files[2 + i].(bytes := FileBytes(disk.sectors, v.files[2 + i].hdr))]);
      WriteCommits(d, disk.sectors, v, vol, i, key);
    }

    /** Succeeds exactly when the name is listed; a failure leaves the disk as it was. */
    method Remove(name: seq<Byte>) returns (success: bool)
      requires Valid()
      modifies this, disk
      ensures Valid() && (success <==> HasName(old(vol).table, Key(name)))
      ensures success ==> Removed(old(vol), vol, Key(name))
      ensures !success ==> vol == old(vol) && disk.sectors == old(disk.sectors)
    {
      var directory, sector := Locate(name);
      if sector == -1 { return false; }
      ghost var i :| Listed(vol.table, i, Key(name)) && vol.table[i].sector == sector;
      var freeMap := ReleaseListed(directory, sector, name, i);
      FlushRemoved(directory, freeMap, i, Key(name));
      return true;
    }

    /** Fetches the header and the bitmap, and frees what the file held. */
    method ReleaseListed(directory: Directory, sector: int, name: seq<Byte>, ghost i: int) returns (freeMap: BitMap)
      requires Valid() && directory.Valid() && directory.table[..] == vol.table
      requires Listed(vol.table, i, Key(name)) && vol.table[i].sector == sector
      modifies directory.table
      ensures fresh(freeMap) && freeMap.Valid() && freeMap.numBits == NumSectors && directory.Valid()
      ensures Shrunk(vol.marked, freeMap.marked, vol.files[2 + i])
      ensures directory.table[..] == vol.table[i := vol.table[i].(inUse := false)]
    {
      ghost var f := vol.files[2 + i];
      assert FileAt(disk.sectors, f);
      MarkedFile(vol, 2 + i);
      var fileHdr := new FileHeader();
      fileHdr.FetchFrom(disk, sector, f.hdr);
      freeMap := FetchMap();
      Release(directory, freeMap, fileHdr, sector, name, i, f);
    }

    /** In memory: the data sectors, the header sector and the row of the directory become free. */
    static method Release(directory: Directory, freeMap: BitMap, fileHdr: FileHeader, sector: int, name: seq<Byte>,
                          ghost i: int, ghost f: File)
      requires directory.Valid() && freeMap.Valid() && freeMap.numBits == NumSectors && fileHdr.Valid() && fileHdr.Apart(freeMap)
      requires directory.table as object != freeMap.words as object && Unique(directory.table[..])
      requires Listed(directory.table[..], i, Key(name)) && f.File? && f.sector == sector
      requires InodeOk(fileHdr.Value(), NumSectors) && f.data == fileHdr.Value().Data()
      requires 0 <= f.sector < NumSectors && f.sector in freeMap.marked && forall s :: s in f.data ==> s in freeMap.marked
      modifies directory.table, freeMap, freeMap.words
      ensures directory.Valid() && freeMap.Valid() && Shrunk(old(freeMap.marked), freeMap.marked, f)
      ensures directory.table[..] == old(directory.table[..])[i := old(directory.table[..])[i].(inUse := false)]
    {
      ghost var t := directory.table[..];
      assert forall j :: 0 <= j < fileHdr.numSectors ==> fileHdr.Value().Data()[j] == fileHdr.dataSectors[j];
      fileHdr.Deallocate(freeMap);
      freeMap.Clear(sector);
      assert directory.table[..] == t;
      var removed := directory.Remove(name);
      assert removed;
    }

    method FlushRemoved(directory: Directory, freeMap: BitMap, ghost i: int, ghost key: seq<Byte>)
      requires Valid() && directory.Valid() && freeMap.Valid() && freeMap.numBits == NumSectors && Listed(vol.table, i, key)
      requires directory.table.Length == NumDirEntries && Shrunk(vol.marked, freeMap.marked, vol.files[2 + i])
      requires directory.table[..] == vol.table[i := vol.table[i].(inUse := false)]
      modifies this, disk
      ensures Valid() && Removed(old(vol), vol, key)
    {
      ghost var v, t, marked, d0 := vol, directory.table[..], freeMap.marked, disk.sectors;
      ghost var d1 := WriteRest(directory, freeMap);
      vol := Volume(t, marked, v.files[2 + i := Nothing]);
      RemoveCommits(d0, d1, disk.sectors, v, vol, i, key);
    }

    method WriteRest(directory: Directory, freeMap: BitMap) returns (ghost d1: Disk)
      requires Valid() && directory.Valid() && freeMap.Valid() && freeMap.numBits == NumSectors && directory.table.Length == NumDirEntries
      modifies disk
      ensures Differ(old(disk.sectors), d1, Span(vol.files[0].data)) && Differ(d1, disk.sectors, Span(vol.files[1].data))
      ensures MapOn(d1, vol.files[0].hdr, freeMap.marked) && TableOn(disk.sectors, vol.files[1].hdr, directory.table[..])
    {
      ghost var m, r := vol.files[0], vol.files[1];
      SystemApart(vol);
      WriteMap(disk, freeMapFile, freeMap, m, r);
      d1 := disk.sectors;
      WriteDirectory(disk, directoryFile, directory, m, r);
    }
  }

  ghost function RowAdded(t: seq<DirEntry>, u: seq<DirEntry>, key: seq<Byte>, sector: int): (i: int)
    requires exists i :: AddedAt(t, u, i, key, sector)
    ensures AddedAt(t, u, i, key, sector)
  {
    var i :| AddedAt(t, u, i, key, sector);
    i
  }

  ghost function RowHolding(v: Volume, key: seq<Byte>): (i: int)
    requires VolumeOk(v) && FileOf(v, key).File?
    ensures Listed(v.table, i, key) && v.files[2 + i] == FileOf(v, key)
  {
    var i :| Listed(v.table, i, key) && v.files[2 + i] == FileOf(v, key);
    i
  }

  lemma HeaderFirst(d0: Disk, d1: Disk, v: Volume, sector: int)
    requires Decodes(d0, v) && VolumeOk(v) && sector !in v.marked && Differ(d0, d1, {sector})
    ensures SystemAt(d1, v.files[0], v.files[1])
    ensures var m, r := v.files[0], v.files[1];
            && m.sector !in m.data && m.sector !in r.data && r.sector !in m.data && r.sector !in r.data
  {
    SystemApart(v);
    SystemStays(d0, d1, {sector}, v.files[0], v.files[1]);
  }

  /** A listed header sector is never mistaken for a failed search. */
  lemma ListedSector(v: Volume)
    requires VolumeOk(v) && forall s :: s in v.marked ==> 0 <= s
    ensures forall i, key :: Listed(v.table, i, key) ==> 0 <= v.table[i].sector
  {
    forall i, key | Listed(v.table, i, key) ensures 0 <= v.table[i].sector { MarkedFile(v, 2 + i); }
  }

  lemma MarkedFile(v: Volume, i: int)
    requires VolumeOk(v) && 0 <= i < |v.files| && v.files[i].File?
    ensures v.files[i].sector in v.marked && forall s :: s in v.files[i].data ==> s in v.marked
  {
    assert Holds(v.files[i], v.files[i].sector);
    HeldOnce(v, i, v.files[i].sector);
    forall s | s in v.files[i].data ensures s in v.marked {
      assert Holds(v.files[i], s);
      HeldOnce(v, i, s);
    }
  }

  lemma NoneClear(n: nat, marked: set<int>)
    requires forall s :: 0 <= s < n ==> s in marked
    ensures UpTo(n) - marked == {}
  {
  }
}
