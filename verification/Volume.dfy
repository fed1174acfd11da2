/**
 The file system as a value: the directory table, the set of marked sectors, and the files with their sectors and bytes.
 */
module Volumes {
  import opened Words
  import opened DiskLayout
  import opened Directories

  /** One file: its header sector, its header, its data sectors, its contents. */
  datatype File = Nothing | File(sector: int, hdr: Inode, data: seq<int>, bytes: seq<Byte>)

  ghost predicate Holds(f: File, s: int) {
    f.File? && (s == f.sector || s in f.data)
  }

  ghost predicate OneOf(files: seq<File>, s: int) { exists i :: 0 <= i < |files| && Holds(files[i], s) }

  /** The files' sectors are pairwise disjoint, headers apart from data, and together exactly the marked sectors. */
  ghost predicate Partition(files: seq<File>, marked: set<int>) {
    && (forall i, j, s :: 0 <= i < |files| && 0 <= j < |files| && Holds(files[i], s) && Holds(files[j], s) ==> i == j)
    && (forall i :: 0 <= i < |files| && files[i].File? ==> files[i].sector !in files[i].data)
    && (forall s :: s in marked <==> OneOf(files, s))
  }

  /** File 0 is the bitmap, file 1 the directory, and file 2 + i the one listed in row i. The bytes of the first two
      are given by the set and the table, so they are not kept twice. */
  datatype Volume = Volume(table: seq<DirEntry>, marked: set<int>, files: seq<File>)

  /** Each row in use has its file, and no name is listed twice. */
  ghost predicate RowsOk(t: seq<DirEntry>, files: seq<File>) {
    && |files| == 2 + |t| && files[0].File? && files[1].File? && Unique(t)
    && (forall i :: 0 <= i < |t| ==>
          (files[2 + i].File? <==> t[i].inUse) && (t[i].inUse ==> files[2 + i].sector == t[i].sector))
  }

  /** The invariant of the file system. */
  ghost predicate VolumeOk(v: Volume) { RowsOk(v.table, v.files) && Partition(v.files, v.marked) }

  // ---------------------------------------------------------------- looking a name up

  ghost function Lookup(t: seq<DirEntry>, files: seq<File>, key: seq<Byte>): (f: File)
    requires RowsOk(t, files)
    ensures f.File? <==> HasName(t, key)
    ensures f.File? ==> exists i :: Listed(t, i, key) && f == files[2 + i]
  {
    if HasName(t, key) then
      var i :| Listed(t, i, key);
      files[2 + i]
    else Nothing
  }

  lemma LookupRow(t: seq<DirEntry>, files: seq<File>, i: int, key: seq<Byte>)
    requires RowsOk(t, files) && Listed(t, i, key)
    ensures Lookup(t, files, key) == files[2 + i]
  {
  }

  ghost function FileOf(v: Volume, key: seq<Byte>): File
    requires VolumeOk(v)
  {
    Lookup(v.table, v.files, key)
  }

  /** A volume as a finite map from names to contents. */
  ghost function View(v: Volume): (m: map<seq<Byte>, seq<Byte>>)
    requires VolumeOk(v)
    ensures forall k :: k in m <==> FileOf(v, k).File?
    ensures forall k :: k in m ==> m[k] == FileOf(v, k).bytes
  {
    var names := set i | 0 <= i < |v.table| && v.table[i].inUse :: Key(v.table[i].name);
    assert forall i :: 0 <= i < |v.table| && v.table[i].inUse ==> Listed(v.table, i, Key(v.table[i].name));
    map k | k in names :: FileOf(v, k).bytes
  }

  // ---------------------------------------------------------------- the three changes

  ghost predicate OthersUntouched(v: Volume, w: Volume, key: seq<Byte>)
    requires VolumeOk(v) && VolumeOk(w)
  {
    forall k :: k != key ==> FileOf(w, k) == FileOf(v, k)
  }

  /** One name more, on sectors that were free and now are exactly the newly marked ones; every other file untouched. */
  ghost predicate Created(v: Volume, w: Volume, key: seq<Byte>, size: int) {
    && VolumeOk(v) && VolumeOk(w) && OthersUntouched(v, w, key)
    && FileOf(v, key).Nothing? && FileOf(w, key).File? && |FileOf(w, key).bytes| == size
    && Grown(v.marked, w.marked, FileOf(w, key))
  }

  ghost predicate Grown(before: set<int>, after: set<int>, f: File) {
    && (forall s :: s in after <==> s in before || Holds(f, s))
    && (forall s :: Holds(f, s) ==> s !in before)
  }

  /** One name less, and exactly its sectors free again. */
  ghost predicate Removed(v: Volume, w: Volume, key: seq<Byte>) {
    && VolumeOk(v) && VolumeOk(w) && OthersUntouched(v, w, key)
    && FileOf(v, key).File? && FileOf(w, key).Nothing?
    && Shrunk(v.marked, w.marked, FileOf(v, key))
  }

  ghost predicate Shrunk(before: set<int>, after: set<int>, f: File) {
    forall s :: s in after <==> s in before && !Holds(f, s)
  }

  /** One file has new bytes; no other file, no header, not the directory, not the bitmap changes. */
  ghost predicate Rewritten(v: Volume, w: Volume, key: seq<Byte>, bytes: seq<Byte>) {
    && VolumeOk(v) && VolumeOk(w) && OthersUntouched(v, w, key) && w.table == v.table && w.marked == v.marked
    && FileOf(v, key).File? && FileOf(w, key) == FileOf(v, key).(bytes := bytes)
  }

  // ---------------------------------------------------------------- what keeps the invariant

  lemma PartitionAdd(files: seq<File>, marked: set<int>, i: int, f: File, after: set<int>)
    requires Partition(files, marked) && 0 <= i < |files| && files[i].Nothing? && f.File? && f.sector !in f.data
    requires Grown(marked, after, f)
    ensures Partition(files[i := f], after)
  {
    var more := files[i := f];
    forall s ensures OneOf(more, s) <==> OneOf(files, s) || Holds(f, s) {
      if j :| 0 <= j < |files| && Holds(files[j], s) { assert Holds(more[j], s); }
      if Holds(f, s) { assert Holds(more[i], s); }
      if j :| 0 <= j < |more| && Holds(more[j], s) { assert j == i || Holds(files[j], s); }
    }
    forall j, k, s | 0 <= j < |more| && 0 <= k < |more| && Holds(more[j], s) && Holds(more[k], s) ensures j == k {
      assert j != i ==> Holds(files[j], s) && OneOf(files, s);
      assert k != i ==> Holds(files[k], s) && OneOf(files, s);
    }
  }

  lemma PartitionRemove(files: seq<File>, marked: set<int>, i: int, after: set<int>)
    requires Partition(files, marked) && 0 <= i < |files|
    requires Shrunk(marked, after, files[i])
    ensures Partition(files[i := Nothing], after)
  {
    var fewer := files[i := Nothing];
    forall j, s | 0 <= j < |fewer| ensures Holds(fewer[j], s) <==> j != i && Holds(files[j], s) { }
    forall s ensures OneOf(fewer, s) <==> OneOf(files, s) && !Holds(files[i], s) {
      if j :| 0 <= j < |files| && Holds(files[j], s) { assert j != i ==> Holds(fewer[j], s); }
      if j :| 0 <= j < |fewer| && Holds(fewer[j], s) { assert Holds(files[j], s); }
    }
  }

  lemma PartitionSame(files: seq<File>, marked: set<int>, i: int, bytes: seq<Byte>)
    requires Partition(files, marked) && 0 <= i < |files| && files[i].File?
    ensures Partition(files[i := files[i].(bytes := bytes)], marked)
  {
    var same := files[i := files[i].(bytes := bytes)];
    forall j, s | 0 <= j < |same| ensures Holds(same[j], s) <==> Holds(files[j], s) { }
    forall s ensures OneOf(same, s) <==> OneOf(files, s) {
      if j :| 0 <= j < |files| && Holds(files[j], s) { assert Holds(same[j], s); }
      if j :| 0 <= j < |same| && Holds(same[j], s) { assert Holds(files[j], s); }
    }
  }

  lemma SameLookup(t: seq<DirEntry>, files: seq<File>, u: seq<DirEntry>, after: seq<File>, key: seq<Byte>)
    requires RowsOk(t, files) && RowsOk(u, after)
    requires forall i :: Listed(u, i, key) <==> Listed(t, i, key)
    requires forall i :: Listed(t, i, key) ==> after[2 + i] == files[2 + i]
    ensures Lookup(u, after, key) == Lookup(t, files, key)
  {
    if i :| Listed(t, i, key) {
      LookupRow(t, files, i, key);
      LookupRow(u, after, i, key);
    }
  }

  lemma AddRow(t: seq<DirEntry>, files: seq<File>, i: int, key: seq<Byte>, f: File, u: seq<DirEntry>)
    requires RowsOk(t, files) && !HasName(t, key) && f.File? && AddedAt(t, u, i, key, f.sector)
    ensures RowsOk(u, files[2 + i := f]) && Lookup(t, files, key).Nothing? && Lookup(u, files[2 + i := f], key) == f
    ensures forall k :: k != key ==> Lookup(u, files[2 + i := f], k) == Lookup(t, files, k)
  {
    AddUnique(t, u, i, key, f.sector);
    LookupRow(u, files[2 + i := f], i, key);
    forall k | k != key ensures Lookup(u, files[2 + i := f], k) == Lookup(t, files, k) {
      SameLookup(t, files, u, files[2 + i := f], k);
    }
  }

  lemma RemoveRow(t: seq<DirEntry>, files: seq<File>, i: int, key: seq<Byte>)
    requires RowsOk(t, files) && Listed(t, i, key)
    ensures var u, after := t[i := t[i].(inUse := false)], files[2 + i := Nothing];
            && RowsOk(u, after) && Lookup(t, files, key) == files[2 + i] && Lookup(u, after, key).Nothing?
            && forall k :: k != key ==> Lookup(u, after, k) == Lookup(t, files, k)
  {
    var u, after := t[i := t[i].(inUse := false)], files[2 + i := Nothing];
    RemoveUnique(t, i, key);
    LookupRow(t, files, i, key);
    forall k | k != key ensures Lookup(u, after, k) == Lookup(t, files, k) {
      SameLookup(t, files, u, after, k);
    }
  }

  lemma RewriteRow(t: seq<DirEntry>, files: seq<File>, i: int, key: seq<Byte>, bytes: seq<Byte>)
    requires RowsOk(t, files) && Listed(t, i, key)
    ensures var after := files[2 + i := files[2 + i].(bytes := bytes)];
            && RowsOk(t, after) && Lookup(t, files, key) == files[2 + i] && Lookup(t, after, key) == after[2 + i]
            && forall k :: k != key ==> Lookup(t, after, k) == Lookup(t, files, k)
  {
    var after := files[2 + i := files[2 + i].(bytes := bytes)];
    LookupRow(t, files, i, key);
    LookupRow(t, after, i, key);
    forall k | k != key ensures Lookup(t, after, k) == Lookup(t, files, k) {
      SameLookup(t, files, t, after, k);
    }
  }

  lemma AddFile(v: Volume, w: Volume, i: int, key: seq<Byte>, f: File)
    requires VolumeOk(v) && !HasName(v.table, key) && f.File? && AddedAt(v.table, w.table, i, key, f.sector)
    requires f.sector !in f.data && Grown(v.marked, w.marked, f) && w.files == v.files[2 + i := f]
    ensures Created(v, w, key, |f.bytes|)
  {
    PartitionAdd(v.files, v.marked, 2 + i, f, w.marked);
    AddRow(v.table, v.files, i, key, f, w.table);
  }

  lemma RemoveFile(v: Volume, w: Volume, i: int, key: seq<Byte>)
    requires VolumeOk(v) && Listed(v.table, i, key) && Shrunk(v.marked, w.marked, v.files[2 + i])
    requires w.table == v.table[i := v.table[i].(inUse := false)] && w.files == v.files[2 + i := Nothing]
    ensures Removed(v, w, key)
  {
    PartitionRemove(v.files, v.marked, 2 + i, w.marked);
    RemoveRow(v.table, v.files, i, key);
  }

  lemma RewriteFile(v: Volume, w: Volume, i: int, key: seq<Byte>, bytes: seq<Byte>)
    requires VolumeOk(v) && Listed(v.table, i, key)
    requires w == v.(files := v.files[2 + i := v.files[2 + i].(bytes := bytes)])
    ensures Rewritten(v, w, key, bytes)
  {
    PartitionSame(v.files, v.marked, 2 + i, bytes);
    RewriteRow(v.table, v.files, i, key, bytes);
  }

  // ---------------------------------------------------------------- whole runs

  /** Creating a file and removing it again gives back the free set and the map of files. */
  lemma CreateRemove(a: Volume, b: Volume, c: Volume, key: seq<Byte>, size: int)
    requires Created(a, b, key, size) && Removed(b, c, key)
    ensures c.marked == a.marked && View(c) == View(a)
  {
    assert forall s :: s in c.marked <==> s in a.marked;
    assert forall k :: FileOf(c, k) == FileOf(a, k);
  }

  datatype Op = Create(key: seq<Byte>, size: int) | Remove(key: seq<Byte>) | Write(key: seq<Byte>, bytes: seq<Byte>) | Fail

  ghost predicate OpStep(op: Op, v: Volume, w: Volume) {
    match op
    case Create(key, size) => Created(v, w, key, size)
    case Remove(key) => Removed(v, w, key)
    case Write(key, bytes) => Rewritten(v, w, key, bytes)
    case Fail => w == v
  }

  ghost predicate OpRun(ops: seq<Op>, vs: seq<Volume>) {
    |vs| == |ops| + 1 && forall n :: 0 <= n < |ops| ==> OpStep(ops[n], vs[n], vs[n + 1])
  }

  /** What a run has made of one name: nothing, a file of some size nobody has written, or the bytes written last. */
  datatype Known = Absent | Unwritten(size: int) | Written(bytes: seq<Byte>)

  function Effect(op: Op, key: seq<Byte>, was: Known): Known {
    if op.Fail? || op.key != key then was
    else match op
      case Create(_, size) => Unwritten(size)
      case Remove(_) => Absent
      case Write(_, bytes) => Written(bytes)
      case Fail => was
  }

  ghost function History(ops: seq<Op>, key: seq<Byte>): Known {
    if ops == [] then Absent else Effect(ops[|ops| - 1], key, History(ops[..|ops| - 1], key))
  }

  ghost predicate Fits(v: Volume, key: seq<Byte>, known: Known)
    requires VolumeOk(v)
  {
    match known
    case Absent => key !in View(v)
    case Unwritten(size) => key in View(v) && |View(v)[key]| == size
    case Written(bytes) => key in View(v) && View(v)[key] == bytes
  }

  lemma OneOp(op: Op, v: Volume, w: Volume, key: seq<Byte>, known: Known)
    requires VolumeOk(v) && OpStep(op, v, w) && Fits(v, key, known)
    ensures VolumeOk(w) && Fits(w, key, Effect(op, key, known))
  {
    if !op.Fail? && op.key != key { assert FileOf(w, key) == FileOf(v, key); }
  }

  /** After any run from an empty file system, each name holds exactly what its own operations made of it. */
  lemma {:induction false} RunIsMap(ops: seq<Op>, vs: seq<Volume>, key: seq<Byte>)
    requires OpRun(ops, vs) && VolumeOk(vs[0]) && View(vs[0]) == map[]
    ensures VolumeOk(vs[|ops|]) && Fits(vs[|ops|], key, History(ops, key))
  {
    if ops != [] {
      var n := |ops| - 1;
      RunIsMap(ops[..n], vs[..n + 1], key);
      OneOp(ops[n], vs[n], vs[n + 1], key, History(ops[..n], key));
    }
  }
}
