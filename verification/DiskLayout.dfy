/**
 How headers, the directory and the bitmap are laid out in bytes, each with its way back.
 */
module DiskLayout {
  import opened Words

  const SectorSize: int := 128
  const NumDirect: int := 30
  const MaxFileSize: int := 3840

  type Sector = seq<Byte>

  /** A file header: the length, the number of data sectors, and the table of their numbers. */
  datatype Inode = Inode(numBytes: int, numSectors: int, dataSectors: seq<int>) {
    /** The sectors in use. */
    function Data(): seq<int>
      requires 0 <= numSectors <= |dataSectors|
    {
      dataSectors[..numSectors]
    }
  }

  // ---------------------------------------------------------------- integers

  /** Byte k of a four-byte little-endian integer. */
  function IntByte(n: int, k: int): Byte
    requires 0 <= k < 4
  {
    Digit(Unsigned(n), k) as Byte
  }

  function Digit(u: int, k: int): (d: int)
    requires 0 <= u < W
    ensures 0 <= d < 256
  {
    if k == 0 then u % 256 else if k == 1 then u / 0x100 % 256 else if k == 2 then u / 0x1_0000 % 256 else u / 0x100_0000
  }

  function IntOf(a: Byte, b: Byte, c: Byte, d: Byte): (n: int)
    ensures IsWord(n)
  {
    var n := a as int + 0x100 * b as int + 0x1_0000 * c as int + 0x100_0000 * d as int;
    if n < 0x8000_0000 then n else n - W
  }

  lemma Digits(u: int)
    requires 0 <= u < W
    ensures Digit(u, 0) + 0x100 * Digit(u, 1) + 0x1_0000 * Digit(u, 2) + 0x100_0000 * Digit(u, 3) == u
  {
  }

  lemma IntRoundTrip(n: int)
    requires IsWord(n)
    ensures IntOf(IntByte(n, 0), IntByte(n, 1), IntByte(n, 2), IntByte(n, 3)) == n
  {
    Digits(Unsigned(n));
  }

  // ---------------------------------------------------------------- headers

  predicate Representable(h: Inode) {
    && |h.dataSectors| == NumDirect && IsWord(h.numBytes) && IsWord(h.numSectors)
    && forall i :: 0 <= i < NumDirect ==> IsWord(h.dataSectors[i])
  }

  function Field(h: Inode, i: int): int
    requires |h.dataSectors| == NumDirect && 0 <= i < 2 + NumDirect
  {
    if i == 0 then h.numBytes else if i == 1 then h.numSectors else h.dataSectors[i - 2]
  }

  /** A header fills one sector exactly. */
  function EncodeInode(h: Inode): (s: Sector)
    requires |h.dataSectors| == NumDirect
    ensures |s| == SectorSize
  {
    seq(SectorSize, i requires 0 <= i < SectorSize => IntByte(Field(h, i / 4), i % 4))
  }

  function FieldAt(s: Sector, i: int): int
    requires |s| == SectorSize && 0 <= i < 2 + NumDirect
  {
    IntOf(s[4 * i], s[4 * i + 1], s[4 * i + 2], s[4 * i + 3])
  }

  function DecodeInode(s: Sector): (h: Inode)
    requires |s| == SectorSize
    ensures Representable(h)
  {
    Inode(FieldAt(s, 0), FieldAt(s, 1), seq(NumDirect, i requires 0 <= i < NumDirect => FieldAt(s, i + 2)))
  }

  lemma EncodedField(h: Inode, i: int)
    requires |h.dataSectors| == NumDirect && 0 <= i < 2 + NumDirect && IsWord(Field(h, i))
    ensures FieldAt(EncodeInode(h), i) == Field(h, i)
  {
    var s, n := EncodeInode(h), Field(h, i);
    Quad(i);
    assert s[4 * i] == IntByte(n, 0);
    assert s[4 * i + 1] == IntByte(n, 1);
    assert s[4 * i + 2] == IntByte(n, 2);
    assert s[4 * i + 3] == IntByte(n, 3);
    IntRoundTrip(n);
  }

  lemma Quad(i: int)
    ensures 4 * i / 4 == (4 * i + 1) / 4 == (4 * i + 2) / 4 == (4 * i + 3) / 4 == i
    ensures 4 * i % 4 == 0 && (4 * i + 1) % 4 == 1 && (4 * i + 2) % 4 == 2 && (4 * i + 3) % 4 == 3
  {
  }

  lemma DecodedField(s: Sector, i: int)
    requires |s| == SectorSize && 0 <= i < 2 + NumDirect
    ensures Field(DecodeInode(s), i) == FieldAt(s, i)
  {
  }

  lemma SameFields(g: Inode, h: Inode)
    requires |g.dataSectors| == |h.dataSectors| == NumDirect
    requires forall i :: 0 <= i < 2 + NumDirect ==> Field(g, i) == Field(h, i)
    ensures g == h
  {
    assert Field(g, 0) == Field(h, 0) && Field(g, 1) == Field(h, 1);
    forall i | 0 <= i < NumDirect ensures g.dataSectors[i] == h.dataSectors[i] {
      assert Field(g, i + 2) == Field(h, i + 2);
    }
  }

  /** The number that four bytes stand for, low byte first. */
  function LittleEndian(b: seq<Byte>, at: int): int
    requires 0 <= at && at + 4 <= |b|
  {
    b[at] as int + 0x100 * b[at + 1] as int + 0x1_0000 * b[at + 2] as int + 0x100_0000 * b[at + 3] as int
  }

  /** A header on disk: the length, the number of sectors, then the table, four bytes each. */
  lemma HeaderLayout(h: Inode, i: int)
    requires |h.dataSectors| == NumDirect && 0 <= i < NumDirect
    ensures var s := EncodeInode(h);
            && LittleEndian(s, 0) == Unsigned(h.numBytes) && LittleEndian(s, 4) == Unsigned(h.numSectors)
            && LittleEndian(s, 8 + 4 * i) == Unsigned(h.dataSectors[i])
  {
    FieldLayout(h, 0);
    FieldLayout(h, 1);
    FieldLayout(h, i + 2);
  }

  lemma FieldLayout(h: Inode, i: int)
    requires |h.dataSectors| == NumDirect && 0 <= i < 2 + NumDirect
    ensures LittleEndian(EncodeInode(h), 4 * i) == Unsigned(Field(h, i))
  {
    Quad(i);
    Digits(Unsigned(Field(h, i)));
  }

  lemma InodeRoundTrip(h: Inode)
    requires Representable(h)
    ensures DecodeInode(EncodeInode(h)) == h
  {
    var s := EncodeInode(h);
    forall i | 0 <= i < 2 + NumDirect ensures Field(DecodeInode(s), i) == Field(h, i) {
      DecodedField(s, i);
      EncodedField(h, i);
    }
    SameFields(DecodeInode(s), h);
  }

  /** The sector holds the header. */
  ghost predicate HeaderIs(s: Sector, h: Inode) {
    && |s| == SectorSize && |h.dataSectors| == NumDirect
    && forall i {:trigger FieldAt(s, i)} :: 0 <= i < 2 + NumDirect ==> FieldAt(s, i) == Field(h, i)
  }

  lemma HeaderIsDecoded(s: Sector, h: Inode)
    requires |s| == SectorSize
    ensures HeaderIs(s, h) <==> DecodeInode(s) == h
  {
    forall i | 0 <= i < 2 + NumDirect ensures Field(DecodeInode(s), i) == FieldAt(s, i) { DecodedField(s, i); }
    if HeaderIs(s, h) { SameFields(DecodeInode(s), h); }
  }

  // ---------------------------------------------------------------- the directory

  const FileNameMaxLen: int := 9
  const NumDirEntries: int := 10
  const EntrySize: int := 20

  /** A row of the directory table; the name field has one byte more than a name uses. */
  datatype DirEntry = DirEntry(inUse: bool, sector: int, name: seq<Byte>)

  predicate EntryOk(e: DirEntry) {
    IsWord(e.sector) && |e.name| == FileNameMaxLen + 1
  }

  function EntryByte(e: DirEntry, i: int): Byte
    requires EntryOk(e) && 0 <= i < EntrySize
  {
    if i == 0 then (if e.inUse then 1 else 0)
    else if 4 <= i < 8 then IntByte(e.sector, i - 4)
    else if 8 <= i < 18 then e.name[i - 8]
    else 0
  }

  ghost predicate TableOk(t: seq<DirEntry>) {
    forall i :: 0 <= i < |t| ==> EntryOk(t[i])
  }

  function EncodeTable(t: seq<DirEntry>): (b: seq<Byte>)
    requires TableOk(t)
    ensures |b| == EntrySize * |t|
  {
    seq(EntrySize * |t|, i requires 0 <= i < EntrySize * |t| => EntryByte(t[i / EntrySize], i % EntrySize))
  }

  function DecodeEntry(b: seq<Byte>, at: int): (e: DirEntry)
    requires 0 <= at && at + EntrySize <= |b|
    ensures EntryOk(e)
  {
    DirEntry(b[at] != 0, IntOf(b[at + 4], b[at + 5], b[at + 6], b[at + 7]), b[at + 8..at + 18])
  }

  function DecodeTable(b: seq<Byte>): (t: seq<DirEntry>)
    ensures |t| == |b| / EntrySize && TableOk(t)
  {
    seq(|b| / EntrySize, i requires 0 <= i < |b| / EntrySize => DecodeEntry(b, EntrySize * i))
  }

  /** Entry i of an encoded table. */
  function EntryIn(b: seq<Byte>, i: int): DirEntry
    requires 0 <= i < |b| / EntrySize
  {
    DecodeEntry(b, EntrySize * i)
  }

  /** The bytes hold the table. */
  ghost predicate TableIs(b: seq<Byte>, t: seq<DirEntry>) {
    && |t| == |b| / EntrySize && TableOk(t)
    && forall i {:trigger EntryIn(b, i)} :: 0 <= i < |t| ==> EntryIn(b, i) == t[i]
  }

  lemma TableIsDecoded(b: seq<Byte>, t: seq<DirEntry>)
    ensures TableIs(b, t) <==> DecodeTable(b) == t
  {
    assert forall i :: 0 <= i < |b| / EntrySize ==> DecodeTable(b)[i] == EntryIn(b, i);
  }

  lemma OneTable(b: seq<Byte>, t: seq<DirEntry>, u: seq<DirEntry>)
    requires TableIs(b, t) && TableIs(b, u)
    ensures t == u
  {
    forall i | 0 <= i < |t| ensures t[i] == u[i] { assert EntryIn(b, i) == t[i]; }
  }

  lemma OneHeader(s: Sector, g: Inode, h: Inode)
    requires HeaderIs(s, g) && HeaderIs(s, h)
    ensures g == h
  {
    forall i | 0 <= i < 2 + NumDirect ensures Field(g, i) == Field(h, i) { assert FieldAt(s, i) == Field(g, i); }
    SameFields(g, h);
  }

  /** b holds the entries of t one after the other. */
  ghost predicate TableBytes(t: seq<DirEntry>, b: seq<Byte>) {
    && TableOk(t) && |b| == EntrySize * |t|
    && forall i, k {:trigger EntryByte(t[i], k)} :: 0 <= i < |t| && 0 <= k < EntrySize ==> b[EntrySize * i + k] == EntryByte(t[i], k)
  }

  lemma EncodedBytes(t: seq<DirEntry>)
    requires TableOk(t)
    ensures TableBytes(t, EncodeTable(t))
  {
    forall i, k | 0 <= i < |t| && 0 <= k < EntrySize ensures EncodeTable(t)[EntrySize * i + k] == EntryByte(t[i], k) {
      assert (EntrySize * i + k) / EntrySize == i && (EntrySize * i + k) % EntrySize == k;
    }
  }

  /** A row on disk: whether it is in use, the header's sector at 4, the name at 8, in twenty bytes. */
  lemma EntryLayout(t: seq<DirEntry>, i: int)
    requires TableOk(t) && 0 <= i < |t|
    ensures var b, at := EncodeTable(t), 20 * i;
            && at + 20 <= |b| && b[at] == (if t[i].inUse then 1 else 0) && LittleEndian(b, at + 4) == Unsigned(t[i].sector)
            && b[at + 8..at + 18] == t[i].name
  {
    var b := EncodeTable(t);
    EncodedBytes(t);
    RowLayout(b, EntrySize * i, t[i]);
  }

  lemma RowLayout(b: seq<Byte>, at: int, e: DirEntry)
    requires EntryOk(e) && 0 <= at && at + EntrySize <= |b| && forall k {:trigger EntryByte(e, k)} :: 0 <= k < EntrySize ==> b[at + k] == EntryByte(e, k)
    ensures b[at] == (if e.inUse then 1 else 0) && LittleEndian(b, at + 4) == Unsigned(e.sector) && b[at + 8..at + 18] == e.name
  {
    assert b[at + 0] == EntryByte(e, 0);
    assert b[at + 4] == EntryByte(e, 4) && b[at + 5] == EntryByte(e, 5) && b[at + 6] == EntryByte(e, 6) && b[at + 7] == EntryByte(e, 7);
    Digits(Unsigned(e.sector));
    forall k | 0 <= k < 10 ensures b[at + 8..at + 18][k] == e.name[k] { assert b[at + (8 + k)] == EntryByte(e, 8 + k); }
  }

  /** Bytes that are those of an entry decode to it. */
  lemma DecodesTo(b: seq<Byte>, at: int, e: DirEntry)
    requires EntryOk(e) && 0 <= at && at + EntrySize <= |b| && b[at] == (if e.inUse then 1 else 0) && b[at + 8..at + 18] == e.name
    requires b[at + 4] == IntByte(e.sector, 0) && b[at + 5] == IntByte(e.sector, 1)
    requires b[at + 6] == IntByte(e.sector, 2) && b[at + 7] == IntByte(e.sector, 3)
    ensures DecodeEntry(b, at) == e
  {
    IntRoundTrip(e.sector);
  }

  lemma EntryRoundTrip(t: seq<DirEntry>, b: seq<Byte>, i: int)
    requires TableBytes(t, b) && 0 <= i < |t|
    ensures EntrySize * i + EntrySize <= |b| && DecodeEntry(b, EntrySize * i) == t[i]
  {
    var e, at := t[i], EntrySize * i;
    assert b[at + 0] == EntryByte(e, 0) && b[at + 4] == EntryByte(e, 4) && b[at + 5] == EntryByte(e, 5);
    assert b[at + 6] == EntryByte(e, 6) && b[at + 7] == EntryByte(e, 7);
    EntryName(t, b, i);
    DecodesTo(b, at, e);
  }

  lemma EntryName(t: seq<DirEntry>, b: seq<Byte>, i: int)
    requires TableBytes(t, b) && 0 <= i < |t|
    ensures EntrySize * i + 18 <= |b| && b[EntrySize * i + 8..EntrySize * i + 18] == t[i].name
  {
    var name := b[EntrySize * i + 8..EntrySize * i + 18];
    forall k | 0 <= k < 10 ensures name[k] == t[i].name[k] { assert EntryByte(t[i], 8 + k) == t[i].name[k]; }
  }

  lemma TableRoundTrip(t: seq<DirEntry>)
    requires TableOk(t)
    ensures DecodeTable(EncodeTable(t)) == t
  {
    EncodedBytes(t);
    forall i | 0 <= i < |t| ensures DecodeTable(EncodeTable(t))[i] == t[i] { EntryRoundTrip(t, EncodeTable(t), i); }
  }

  // ---------------------------------------------------------------- the bitmap

  function WordByte(w: bv32, k: int): Byte
    requires 0 <= k < 4
  {
    (if k == 0 then (w & 0xff) as bv8 else if k == 1 then ((w >> 8) & 0xff) as bv8
     else if k == 2 then ((w >> 16) & 0xff) as bv8 else ((w >> 24) & 0xff) as bv8) as Byte
  }

  function Widen(b: Byte): bv32 { (b as bv8) as bv32 }

  function WordOf(a: Byte, b: Byte, c: Byte, d: Byte): bv32 {
    Widen(a) | (Widen(b) << 8) | (Widen(c) << 16) | (Widen(d) << 24)
  }

  lemma Narrow(b: bv8)
    ensures (b as Byte) as bv8 == b
  {
  }

  lemma Reassemble(w: bv32)
    ensures (((w & 0xff) as bv8) as bv32) | ((((w >> 8) & 0xff) as bv8) as bv32 << 8) | ((((w >> 16) & 0xff) as bv8) as bv32 << 16)
            | ((((w >> 24) & 0xff) as bv8) as bv32 << 24) == w
  {
  }

  lemma WordRoundTrip(w: bv32)
    ensures WordOf(WordByte(w, 0), WordByte(w, 1), WordByte(w, 2), WordByte(w, 3)) == w
  {
    Narrow((w & 0xff) as bv8);
    Narrow(((w >> 8) & 0xff) as bv8);
    Narrow(((w >> 16) & 0xff) as bv8);
    Narrow(((w >> 24) & 0xff) as bv8);
    Reassemble(w);
  }

  function EncodeWords(words: seq<bv32>): (b: seq<Byte>)
    ensures |b| == 4 * |words|
  {
    seq(4 * |words|, i requires 0 <= i < 4 * |words| => WordByte(words[i / 4], i % 4))
  }

  function DecodeWords(b: seq<Byte>): (words: seq<bv32>)
    ensures |words| == |b| / 4
  {
    seq(|b| / 4, i requires 0 <= i < |b| / 4 => WordOf(b[4 * i], b[4 * i + 1], b[4 * i + 2], b[4 * i + 3]))
  }

  lemma WordsRoundTrip(words: seq<bv32>)
    ensures DecodeWords(EncodeWords(words)) == words
  {
    forall i | 0 <= i < |words| ensures DecodeWords(EncodeWords(words))[i] == words[i] { EncodedWord(words, i); }
  }

  lemma EncodedWord(words: seq<bv32>, i: int)
    requires 0 <= i < |words|
    ensures DecodeWords(EncodeWords(words))[i] == words[i]
  {
    var b, w := EncodeWords(words), words[i];
    Quad(i);
    assert b[4 * i] == WordByte(w, 0);
    assert b[4 * i + 1] == WordByte(w, 1);
    assert b[4 * i + 2] == WordByte(w, 2);
    assert b[4 * i + 3] == WordByte(w, 3);
    WordRoundTrip(w);
  }
}
