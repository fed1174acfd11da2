/**
 The bitmap: an array of 32-bit words changed by shift and mask, refining a set of numbers.
 */
module BitMaps {
  import opened Counting
  import opened Words
  import opened DiskLayout
  import opened Files

  const BitsInWord: int := 32

  predicate HasBit(w: bv32, j: nat)
    requires j < 32
  {
    w & (1 << j) != 0
  }

  lemma MasksDisjoint(j: nat, k: nat)
    requires j < 32 && k < 32 && j != k
    ensures (1 as bv32 << j) & (1 as bv32 << k) == 0
  {
  }

  lemma MaskAlgebra(w: bv32, m: bv32, n: bv32)
    requires m & n == 0
    ensures (w | m) & n == w & n && (w & !m) & n == w & n
  {
  }

  /** Or-ing a mask in, or and-ing its complement, decides that bit of the word ... */
  lemma OwnBit(w: bv32, j: nat)
    requires j < 32
    ensures HasBit(w | (1 << j), j) && !HasBit(w & !(1 << j), j)
  {
  }

  /** ... and leaves the others. */
  lemma OtherBitMark(w: bv32, j: nat, k: nat)
    requires j < 32 && k < 32 && j != k
    ensures HasBit(w | (1 << j), k) == HasBit(w, k)
  {
    MasksDisjoint(j, k);
    MaskAlgebra(w, 1 << j, 1 << k);
  }

  lemma OtherBitClear(w: bv32, j: nat, k: nat)
    requires j < 32 && k < 32 && j != k
    ensures HasBit(w & !(1 << j), k) == HasBit(w, k)
  {
    MasksDisjoint(j, k);
    MaskAlgebra(w, 1 << j, 1 << k);
  }

  /** r lists the bits of w. */
  ghost predicate Agrees(w: bv32, r: seq<bool>) {
    |r| == 32 && forall a {:trigger r[a]} :: 0 <= a < 32 ==> r[a] == HasBit(w, a)
  }

  function BitsOf(w: bv32): (r: seq<bool>)
    ensures Agrees(w, r)
  {
    seq(32, a requires 0 <= a < 32 => HasBit(w, a))
  }

  lemma MarkAgrees(w: bv32, r: seq<bool>, a: nat)
    requires a < 32 && Agrees(w, r)
    ensures Agrees(w | (1 << a), r[a := true])
  {
    var v, s := w | (1 << a), r[a := true];
    forall b {:trigger s[b]} | 0 <= b < 32 ensures s[b] == HasBit(v, b) {
      if b == a { OwnBit(w, a); } else { OtherBitMark(w, a, b); assert r[b] == HasBit(w, b); }
    }
  }

  lemma ClearAgrees(w: bv32, r: seq<bool>, a: nat)
    requires a < 32 && Agrees(w, r)
    ensures Agrees(w & !(1 << a), r[a := false])
  {
    var v, s := w & !(1 << a), r[a := false];
    forall b {:trigger s[b]} | 0 <= b < 32 ensures s[b] == HasBit(v, b) {
      if b == a { OwnBit(w, a); } else { OtherBitClear(w, a, b); assert r[b] == HasBit(w, b); }
    }
  }

  /** Rows of 32 bits represent a set: bit a of row q stands for the number 32 q + a. */
  ghost predicate Represents(rows: seq<seq<bool>>, numBits: nat, marked: set<int>) {
    && |rows| == (numBits + 31) / 32 && (forall q :: 0 <= q < |rows| ==> |rows[q]| == 32)
    && (forall i :: i in marked ==> 0 <= i < numBits)
    && forall i {:trigger BitAt(rows, i)} :: 0 <= i < numBits ==> (BitAt(rows, i) <==> i in marked)
  }

  ghost predicate BitAt(rows: seq<seq<bool>>, i: int) {
    0 <= i / 32 < |rows| && i % 32 < |rows[i / 32]| && rows[i / 32][i % 32]
  }

  lemma SetRow(rows: seq<seq<bool>>, numBits: nat, marked: set<int>, which: int, on: bool)
    requires Represents(rows, numBits, marked) && 0 <= which < numBits
    ensures Represents(rows[which / 32 := rows[which / 32][which % 32 := on]], numBits,
                       if on then marked + {which} else marked - {which})
  {
    var q := which / 32;
    var next := rows[q := rows[q][which % 32 := on]];
    forall i | 0 <= i < numBits ensures BitAt(next, i) == if i == which then on else BitAt(rows, i) { }
  }

  ghost function RowsOf(words: seq<bv32>): (rows: seq<seq<bool>>)
    ensures |rows| == |words| && forall q :: 0 <= q < |rows| ==> Agrees(words[q], rows[q])
  {
    seq(|words|, q requires 0 <= q < |words| => BitsOf(words[q]))
  }

  ghost function MarkedIn(rows: seq<seq<bool>>, numBits: nat): (marked: set<int>)
    requires |rows| == (numBits + 31) / 32 && forall q :: 0 <= q < |rows| ==> |rows[q]| == 32
    ensures Represents(rows, numBits, marked)
  {
    set i | 0 <= i < numBits && BitAt(rows, i)
  }

  /** The bytes hold the bitmap of that set. */
  ghost predicate MapIs(bytes: seq<Byte>, numBits: nat, marked: set<int>) {
    Represents(RowsOf(DecodeWords(bytes)), numBits, marked)
  }

  lemma OneMap(bytes: seq<Byte>, numBits: nat, a: set<int>, b: set<int>)
    requires MapIs(bytes, numBits, a) && MapIs(bytes, numBits, b)
    ensures a == b
  {
    OneSet(RowsOf(DecodeWords(bytes)), numBits, a, b);
  }

  lemma SameRow(w: bv32, r: seq<bool>, s: seq<bool>)
    requires Agrees(w, r) && Agrees(w, s)
    ensures r == s
  {
    forall a {:trigger r[a]} | 0 <= a < 32 ensures r[a] == s[a] { }
  }

  lemma SameRows(words: seq<bv32>, rows: seq<seq<bool>>)
    requires |rows| == |words| && forall q :: 0 <= q < |rows| ==> Agrees(words[q], rows[q])
    ensures RowsOf(words) == rows
  {
    forall q | 0 <= q < |rows| ensures RowsOf(words)[q] == rows[q] { SameRow(words[q], RowsOf(words)[q], rows[q]); }
  }

  lemma OneSet(rows: seq<seq<bool>>, numBits: nat, a: set<int>, b: set<int>)
    requires Represents(rows, numBits, a) && Represents(rows, numBits, b)
    ensures a == b
  {
    forall i | 0 <= i < numBits ensures i in a <==> i in b { assert BitAt(rows, i) <==> i in a; }
  }

  /** Writing the words out and reading them back keeps the set. */
  lemma MapRoundTrip(words: seq<bv32>, rows: seq<seq<bool>>, numBits: nat, marked: set<int>)
    requires Represents(rows, numBits, marked) && |words| == |rows| && forall q :: 0 <= q < |rows| ==> Agrees(words[q], rows[q])
    ensures MapIs(EncodeWords(words), numBits, marked)
  {
    WordsRoundTrip(words);
    SameRows(words, rows);
  }

  class BitMap {
    const numBits: nat
    const words: array<bv32>
    ghost var rows: seq<seq<bool>>
    ghost var marked: set<int>

    ghost predicate Valid()
      reads this, words
    {
      && Represents(rows, numBits, marked) && words.Length == |rows|
      && forall q :: 0 <= q < |rows| ==> Agrees(words[q], rows[q])
    }

    constructor (nitems: nat)
      ensures Valid() && numBits == nitems && fresh(words) && marked == {}
    {
      numBits := nitems;
      words := new bv32[(nitems + 31) / 32];
      new;
      rows := RowsOf(words[..]);
      marked := MarkedIn(rows, numBits);
      ClearAll();
    }

    method ClearAll()
      requires Valid()
      modifies this, words
      ensures Valid() && marked == {}
    {
      var i := 0;
      while i < numBits
        invariant Valid() && 0 <= i <= numBits
        invariant forall j :: j in marked ==> i <= j < numBits
      {
        Clear(i);
        i := i + 1;
      }
      assert forall j :: j !in marked;
    }

    method Mark(which: int)
      requires Valid() && 0 <= which < numBits
      modifies this, words
      ensures Valid() && marked == old(marked) + {which}
    {
      var q, a := which / BitsInWord, which % BitsInWord;
      MarkAgrees(words[q], rows[q], a);
      SetRow(rows, numBits, marked, which, true);
      words[q] := words[q] | (1 << a);
      rows := rows[q := rows[q][a := true]];
      marked := marked + {which};
    }

    method Clear(which: int)
      requires Valid() && 0 <= which < numBits
      modifies this, words
      ensures Valid() && marked == old(marked) - {which}
    {
      var q, a := which / BitsInWord, which % BitsInWord;
      ClearAgrees(words[q], rows[q], a);
      SetRow(rows, numBits, marked, which, false);
      words[q] := words[q] & !(1 << a);
      rows := rows[q := rows[q][a := false]];
      marked := marked - {which};
    }

    method Test(which: int) returns (taken: bool)
      requires Valid() && 0 <= which < numBits
      ensures taken <==> which in marked
    {
      var q, a := which / BitsInWord, which % BitsInWord;
      taken := words[q] & (1 << a) != 0;
      assert Agrees(words[q], rows[q]);
      assert BitAt(rows, which) == rows[q][a] == HasBit(words[q], a);
    }

    /** Takes the least clear bit; -1 exactly when none is clear, and then nothing changes. */
    method Find() returns (bit: int)
      requires Valid()
      modifies this, words
      ensures Valid() && (bit == -1 <==> forall j :: 0 <= j < numBits ==> j in old(marked))
      ensures bit == -1 ==> marked == old(marked) && words[..] == old(words[..])
      ensures bit != -1 ==> 0 <= bit < numBits && bit !in old(marked) && (forall j :: 0 <= j < bit ==> j in old(marked))
      ensures bit != -1 ==> marked == old(marked) + {bit}
    {
      var i := 0;
      while i < numBits
        invariant 0 <= i <= numBits && Valid() && marked == old(marked) && words[..] == old(words[..])
        invariant forall j :: 0 <= j < i ==> j in marked
      {
        var taken := Test(i);
        if !taken {
          Mark(i);
          return i;
        }
        i := i + 1;
      }
      return -1;
    }

    /** The number of clear bits. */
    method NumClear() returns (count: nat)
      requires Valid()
      ensures count == |UpTo(numBits) - marked|
    {
      count := 0;
      var i := 0;
      while i < numBits
        invariant 0 <= i <= numBits
        invariant count == ClearBelow(i, marked)
      {
        var taken := Test(i);
        if !taken { count := count + 1; }
        i := i + 1;
      }
      ClearBelowCounts(numBits, marked);
    }

    method FetchFrom(file: OpenFile)
      requires file.Valid() && file.hdr.numBytes == 4 * words.Length && words.Length == (numBits + 31) / 32
      modifies this, words
      ensures Valid() && MapIs(file.Contents(), numBits, marked)
    {
      var bytes := file.ReadAt(4 * words.Length, 0);
      assert bytes == file.Contents();
      var fetched := DecodeWords(bytes);
      forall i | 0 <= i < words.Length { words[i] := fetched[i]; }
      rows := RowsOf(fetched);
      marked := MarkedIn(rows, numBits);
    }

    method WriteBack(file: OpenFile)
      requires Valid() && file.Valid() && file.hdr.numBytes == 4 * words.Length
      modifies file.disk
      ensures file.Valid() && |file.disk.sectors| == old(|file.disk.sectors|) && MapIs(file.Contents(), numBits, marked)
      ensures forall s :: 0 <= s < |file.disk.sectors| && s !in file.hdr.Data() ==> file.disk.sectors[s] == old(file.disk.sectors[s])
    {
      var bytes := EncodeWords(words[..]);
      var n := file.WriteAt(bytes, 0);
      assert file.Contents() == bytes;
      MapRoundTrip(words[..], rows, numBits, marked);
    }
  }
}
