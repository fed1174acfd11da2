/** Machine words and bytes, and sequences of them. */
module Words {

  newtype Byte = b: int | 0 <= b < 256

  /** The number of 32-bit words. */
  const W: int := 0x1_0000_0000

  /** A 32-bit two's complement integer. */
  predicate IsWord(x: int) { -0x8000_0000 <= x < 0x8000_0000 }

  /** An integer cut to 32 bits and read as an unsigned number. */
  function Unsigned(x: int): (u: int)
    ensures 0 <= u < W
    ensures IsWord(x) ==> u == if x < 0 then x + W else x
  {
    x % W
  }

  /** An integer cut to 32 bits and read as a signed number. */
  function Word(x: int): (w: int)
    ensures IsWord(w) && (IsWord(x) ==> w == x)
  {
    var u := Unsigned(x);
    if u < 0x8000_0000 then u else u - W
  }

  function Pow2(n: nat): (p: int)
    ensures p >= 1
  {
    if n == 0 then 1 else 2 * Pow2(n - 1)
  }

  /** The data written over part of a buffer. */
  function Splice<T>(buffer: seq<T>, at: nat, data: seq<T>): (r: seq<T>)
    requires at + |data| <= |buffer|
    ensures |r| == |buffer|
    ensures forall i :: 0 <= i < |buffer| ==> r[i] == if at <= i < at + |data| then data[i - at] else buffer[i]
  {
    buffer[..at] + data + buffer[at + |data|..]
  }

  function Sum(counts: seq<nat>): nat { if counts == [] then 0 else counts[0] + Sum(counts[1..]) }

  lemma {:induction false} SumUpdate(counts: seq<nat>, t: int, x: nat)
    requires 0 <= t < |counts|
    ensures Sum(counts[t := x]) == Sum(counts) - counts[t] + x
  {
    if t > 0 {
      SumUpdate(counts[1..], t - 1, x);
      assert counts[t := x][1..] == counts[1..][t - 1 := x];
    } else {
      assert counts[0 := x][1..] == counts[1..];
    }
  }
}
