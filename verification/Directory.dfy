/**
 The directory: a fixed table of names and header sectors, searched and updated in place.
 */
module Directories {
  import opened Words
  import opened DiskLayout
  import opened Files

  // ---------------------------------------------------------------- names

  /** Character i of a C string; past the end, the terminator. */
  function CharAt(s: seq<Byte>, i: nat): Byte { if i < |s| then s[i] else 0 }

  /** What a name means to the directory: everything before the terminator, up to nine characters. */
  function Key(name: seq<Byte>): seq<Byte> { name[..KeyLength(name, 0)] }

  function KeyLength(name: seq<Byte>, i: nat): (n: nat)
    requires i <= FileNameMaxLen && i <= |name|
    ensures i <= n <= |name|
    decreases FileNameMaxLen - i
  {
    if i == FileNameMaxLen || CharAt(name, i) == 0 then i else KeyLength(name, i + 1)
  }

  lemma KeyLengthIs(name: seq<Byte>, i: nat)
    requires i <= FileNameMaxLen && i <= |name| && 0 !in name[..i]
    ensures var n := KeyLength(name, i);
            && n <= FileNameMaxLen && 0 !in name[..n] && (n < FileNameMaxLen ==> CharAt(name, n) == 0)
    decreases FileNameMaxLen - i
  {
    if i < FileNameMaxLen && CharAt(name, i) != 0 {
      assert name[..i + 1] == name[..i] + [name[i]];
      KeyLengthIs(name, i + 1);
    }
  }

  lemma KeyOf(name: seq<Byte>)
    ensures var k := Key(name);
            && |k| <= FileNameMaxLen && |k| <= |name| && k == name[..|k|] && 0 !in k
            && (|k| < FileNameMaxLen ==> CharAt(name, |k|) == 0)
  {
    KeyLengthIs(name, 0);
  }

  /** Whether strncmp finds its arguments equal over n characters, from character i on. */
  function SameName(a: seq<Byte>, b: seq<Byte>, n: nat := FileNameMaxLen, i: nat := 0): bool
    requires i <= n
    decreases n - i
  {
    i == n || (CharAt(a, i) == CharAt(b, i) && (CharAt(a, i) == 0 || SameName(a, b, n, i + 1)))
  }

  /** strncpy: the characters before the terminator, then zeros up to n; the rest of the field is left. */
  function CopyName(field: seq<Byte>, name: seq<Byte>, n: nat): (r: seq<Byte>)
    requires n <= |field|
    ensures |r| == |field|
  {
    seq(|field|, i requires 0 <= i < |field| => if i >= n then field[i] else if 0 in name[..if i < |name| then i else |name|] then 0 else CharAt(name, i))
  }

  lemma KeyIs(name: seq<Byte>, k: nat)
    requires k <= FileNameMaxLen && k <= |name| && 0 !in name[..k] && (k < FileNameMaxLen ==> CharAt(name, k) == 0)
    ensures Key(name) == name[..k]
  {
    KeyOf(name);
    var m := |Key(name)|;
    assert forall i :: 0 <= i < k ==> name[..k][i] == CharAt(name, i);
    assert forall i :: 0 <= i < m ==> Key(name)[i] == CharAt(name, i);
  }

  lemma SameNameFrom(a: seq<Byte>, b: seq<Byte>, i: nat)
    requires i <= FileNameMaxLen && i <= |a| && i <= |b| && a[..i] == b[..i] && 0 !in a[..i]
    ensures SameName(a, b, FileNameMaxLen, i) <==> Key(a) == Key(b)
    decreases FileNameMaxLen - i
  {
    if i == FileNameMaxLen {
      KeyIs(a, i);
      KeyIs(b, i);
    } else if CharAt(a, i) != CharAt(b, i) {
      KeyOf(a);
      KeyOf(b);
      var m := |Key(a)|;
      assert forall j :: 0 <= j < i ==> a[..i][j] == CharAt(a, j);
      assert i < m == |Key(b)| ==> Key(a)[i] == CharAt(a, i) && Key(b)[i] == CharAt(b, i);
    } else if CharAt(a, i) == 0 {
      KeyIs(a, i);
      KeyIs(b, i);
    } else {
      assert a[..i + 1] == a[..i] + [a[i]] && b[..i + 1] == b[..i] + [b[i]];
      SameNameFrom(a, b, i + 1);
    }
  }

  /** The comparison tells names apart exactly as far as their first nine characters differ. */
  lemma SameNameIsSameKey(a: seq<Byte>, b: seq<Byte>)
    ensures SameName(a, b) <==> Key(a) == Key(b)
  {
    SameNameFrom(a, b, 0);
  }

  /** The stored field stands for the name it was copied from. */
  lemma CopiedKey(field: seq<Byte>, name: seq<Byte>)
    requires |field| >= FileNameMaxLen
    ensures Key(CopyName(field, name, FileNameMaxLen)) == Key(name)
  {
    KeyOf(name);
    var r, k := CopyName(field, name, FileNameMaxLen), |Key(name)|;
    forall i | 0 <= i < k ensures r[i] == name[i] {
      assert forall j :: 0 <= j < i ==> name[..i][j] == Key(name)[j];
    }
    assert r[..k] == name[..k];
    if k < FileNameMaxLen {
      assert forall j :: 0 <= j < k ==> name[..k][j] == Key(name)[j];
    }
    KeyIs(r, k);
  }

  // ---------------------------------------------------------------- the table

  ghost predicate Listed(t: seq<DirEntry>, i: int, key: seq<Byte>) {
    0 <= i < |t| && t[i].inUse && Key(t[i].name) == key
  }

  ghost predicate HasName(t: seq<DirEntry>, key: seq<Byte>) { exists i :: Listed(t, i, key) }

  ghost predicate HasRoom(t: seq<DirEntry>) { exists i :: 0 <= i < |t| && !t[i].inUse }

  /** No name is listed twice. */
  ghost predicate Unique(t: seq<DirEntry>) {
    forall i, j, key :: Listed(t, i, key) && Listed(t, j, key) ==> i == j
  }

  /** t with a name added at row i. */
  ghost predicate AddedAt(t: seq<DirEntry>, u: seq<DirEntry>, i: int, key: seq<Byte>, sector: int) {
    0 <= i < |t| == |u| && !t[i].inUse && u == t[i := u[i]] && Listed(u, i, key) && u[i].sector == sector && EntryOk(u[i])
  }

  class Directory {
    const table: array<DirEntry>

    ghost predicate Valid()
      reads this, table
    {
      forall i :: 0 <= i < table.Length ==> EntryOk(table[i])
    }

    /** An empty directory; what the unused rows hold does not matter. */
    constructor (size: nat)
      ensures Valid() && fresh(table) && table.Length == size && forall i :: 0 <= i < size ==> !table[i].inUse
    {
      table := new DirEntry[size](i => DirEntry(false, 0, seq(FileNameMaxLen + 1, k => 0)));
    }

    method FindIndex(name: seq<Byte>) returns (r: int)
      ensures r == -1 <==> !HasName(table[..], Key(name))
      ensures r != -1 ==> Listed(table[..], r, Key(name)) && forall j :: Listed(table[..], j, Key(name)) ==> r <= j
    {
      var i := 0;
      while i < table.Length
        invariant 0 <= i <= table.Length
        invariant forall j :: Listed(table[..], j, Key(name)) ==> i <= j
      {
        SameNameIsSameKey(table[i].name, name);
        if table[i].inUse && SameName(table[i].name, name) {
          assert Listed(table[..], i, Key(name));
          return i;
        }
        i := i + 1;
      }
      return -1;
    }

    /** The header sector of the first row with that name, or -1. */
    method Find(name: seq<Byte>) returns (sector: int)
      ensures !HasName(table[..], Key(name)) ==> sector == -1
      ensures HasName(table[..], Key(name)) ==> exists i :: Listed(table[..], i, Key(name)) && table[i].sector == sector
    {
      var i := FindIndex(name);
      if i != -1 {
        return table[i].sector;
      }
      return -1;
    }

    /** Adds a row exactly when the name is new and a row is free. */
    method Add(name: seq<Byte>, newSector: int) returns (ok: bool)
      requires Valid() && IsWord(newSector)
      modifies table
      ensures Valid() && (ok <==> !HasName(old(table[..]), Key(name)) && HasRoom(old(table[..])))
      ensures !ok ==> table[..] == old(table[..])
      ensures ok ==> exists i :: AddedAt(old(table[..]), table[..], i, Key(name), newSector) && forall j :: 0 <= j < i ==> old(table[..])[j].inUse
    {
      var found := FindIndex(name);
      if found != -1 { return false; }
      var i := 0;
      while i < table.Length
        invariant 0 <= i <= table.Length && table[..] == old(table[..])
        invariant forall j :: 0 <= j < i ==> table[j].inUse
      {
        if !table[i].inUse {
          CopiedKey(table[i].name, name);
          ghost var before := table[..];
          assert !before[i].inUse && before == old(table[..]);
          table[i] := DirEntry(true, newSector, CopyName(table[i].name, name, FileNameMaxLen));
          assert AddedAt(before, table[..], i, Key(name), newSector);
          return true;
        }
        i := i + 1;
      }
      assert forall j :: 0 <= j < table.Length ==> old(table[..])[j] == table[j];
      return false;
    }

    /** Frees the first row with that name; everything else in the table stays. */
    method Remove(name: seq<Byte>) returns (ok: bool)
      requires Valid()
      modifies table
      ensures Valid() && (ok <==> HasName(old(table[..]), Key(name)))
      ensures !ok ==> table[..] == old(table[..])
      ensures ok ==> exists i :: Listed(old(table[..]), i, Key(name)) && table[..] == old(table[..])[i := old(table[..])[i].(inUse := false)]
    {
      var i := FindIndex(name);
      if i == -1 { return false; }
      ghost var before := table[..];
      table[i] := table[i].(inUse := false);
      assert table[..] == before[i := before[i].(inUse := false)];
      return true;
    }

    method FetchFrom(file: OpenFile)
      requires file.Valid() && file.hdr.numBytes == EntrySize * table.Length
      modifies table
      ensures Valid() && TableIs(file.Contents(), table[..])
    {
      var bytes := file.ReadAt(EntrySize * table.Length, 0);
      assert bytes == file.Contents();
      var rows := DecodeTable(bytes);
      forall i | 0 <= i < table.Length { table[i] := rows[i]; }
      assert table[..] == rows;
      TableIsDecoded(bytes, rows);
    }

    method WriteBack(file: OpenFile)
      requires Valid() && file.Valid() && file.hdr.numBytes == EntrySize * table.Length
      modifies file.disk
      ensures file.Valid() && |file.disk.sectors| == old(|file.disk.sectors|) && TableIs(file.Contents(), table[..])
      ensures forall s :: 0 <= s < |file.disk.sectors| && s !in file.hdr.Data() ==> file.disk.sectors[s] == old(file.disk.sectors[s])
    {
      var bytes := EncodeTable(table[..]);
      var n := file.WriteAt(bytes, 0);
      assert file.Contents() == bytes;
      TableRoundTrip(table[..]);
      TableIsDecoded(bytes, table[..]);
    }
  }

  // ---------------------------------------------------------------- what the updates keep

  lemma AddUnique(t: seq<DirEntry>, u: seq<DirEntry>, i: int, key: seq<Byte>, sector: int)
    requires Unique(t) && !HasName(t, key) && AddedAt(t, u, i, key, sector)
    ensures Unique(u) && forall k :: HasName(u, k) <==> k == key || HasName(t, k)
  {
    forall j, k | j != i ensures Listed(u, j, k) <==> Listed(t, j, k) { }
    forall j, l, k | Listed(u, j, k) && Listed(u, l, k) ensures j == l {
      assert j != i ==> Listed(t, j, k);
      assert l != i ==> Listed(t, l, k);
    }
    forall k ensures HasName(u, k) <==> k == key || HasName(t, k) {
      if j :| Listed(t, j, k) { assert Listed(u, j, k); }
      if j :| Listed(u, j, k) && j != i { assert Listed(t, j, k); }
    }
  }

  lemma RemoveUnique(t: seq<DirEntry>, i: int, key: seq<Byte>)
    requires Unique(t) && Listed(t, i, key)
    ensures var u := t[i := t[i].(inUse := false)];
            && Unique(u) && forall k :: HasName(u, k) <==> k != key && HasName(t, k)
  {
    var u := t[i := t[i].(inUse := false)];
    forall j, k ensures Listed(u, j, k) <==> Listed(t, j, k) && j != i { }
    forall k ensures HasName(u, k) <==> k != key && HasName(t, k) {
      if j :| Listed(t, j, k) { assert k != key ==> Listed(u, j, k); }
      if j :| Listed(u, j, k) { assert Listed(t, j, k); }
    }
  }
}
