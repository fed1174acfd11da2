/**
 The word arithmetic and the decoding of the simulator, bit by bit as it is written there. Two operations differ from
 the architecture, and are kept so: OR combines rs with itself, and the logical right shifts are arithmetic. When that
 makes no difference is stated exactly.
 */
module MipsAlu {
  import opened Options
  import opened Mips
  import opened MipsRestart
  import opened Words
  import Multiplication

  /** Bit j of a number. */
  predicate Bit(u: int, j: nat)
    decreases j
  {
    if j == 0 then u % 2 == 1 else Bit(u / 2, j - 1)
  }

  datatype Gate = Both | Either | Unlike | Neither

  predicate Through(g: Gate, a: bool, b: bool) {
    match g
    case Both => a && b
    case Either => a || b
    case Unlike => a != b
    case Neither => !a && !b
  }

  /** The low n bits of two numbers, combined bit by bit. */
  function Combined(g: Gate, u: int, v: int, n: nat): int
    decreases n
  {
    if n == 0 then 0 else 2 * Combined(g, u / 2, v / 2, n - 1) + if Through(g, u % 2 == 1, v % 2 == 1) then 1 else 0
  }

  const WordBits: nat := 4 * 8

  function Logic(g: Gate, x: int, y: int): int { Word(Combined(g, Unsigned(x), Unsigned(y), WordBits)) }

  /** Both operands have one sign, and the sum has the other. */
  function Overflows(x: int, y: int, sum: int): bool { (x < 0) == (y < 0) && (x < 0) != (sum < 0) }

  function ShiftLeft(x: int, n: int): int { Word(x * Pow2(n % 32)) }

  /** Division by a power of two, rounding down: the arithmetic shift. */
  function ShiftRight(x: int, n: int): int { Word(x / Pow2(n % 32)) }

  function BinaryResult(f: Binary, x: int, y: int): Option<int> {
    match f
    case Add => if Overflows(x, y, Word(x + y)) then None else Some(Word(x + y))
    case AddU => Some(Word(x + y))
    case And => Some(Logic(Both, x, y))
    case Nor => Some(Logic(Neither, x, y))
    case Or => Some(Logic(Either, x, x))
    case Sllv => Some(ShiftLeft(y, x % 32))
    case Slt => Some(if x < y then 1 else 0)
    case SltU => Some(if Unsigned(x) < Unsigned(y) then 1 else 0)
    case Srav => Some(ShiftRight(y, x % 32))
    case Srlv => Some(ShiftRight(y, x % 32))
    case Sub => if (x < 0) != (y < 0) && (x < 0) != (Word(x - y) < 0) then None else Some(Word(x - y))
    case SubU => Some(Word(x - y))
    case Xor => Some(Logic(Unlike, x, y))
  }

  function ImmediateResult(g: Immediate, x: int, extra: int): Option<int> {
    match g
    case AddI => if Overflows(x, extra, Word(x + extra)) then None else Some(Word(x + extra))
    case AddIU => Some(Word(x + extra))
    case AndI => Some(Logic(Both, x, extra % 0x1_0000))
    case Lui => Some(Word(extra * 0x1_0000))
    case OrI => Some(Logic(Either, x, extra % 0x1_0000))
    case SltI => Some(if x < extra then 1 else 0)
    case SltIU => Some(if Unsigned(x) < Unsigned(extra) then 1 else 0)
    case XorI => Some(Logic(Unlike, x, extra % 0x1_0000))
  }

  function ShiftResult(h: Shift, x: int, n: int): int {
    match h
    case Sll => ShiftLeft(x, n)
    case Sra => ShiftRight(x, n)
    case Srl => ShiftRight(x, n)
  }

  function TestResult(test: Test, x: int, y: int): bool {
    match test
    case Eq => x == y
    case Ne => x != y
    case Gez => x >= 0
    case Gtz => x > 0
    case Lez => x <= 0
    case Ltz => x < 0
  }

  /** High and low word of the product. */
  function ProductWords(signed: bool, x: int, y: int): (int, int) {
    var p := Multiplication.Product(x, y, signed) % (W * W);
    (Word(p / W), Word(p))
  }

  /** Division truncates towards zero; division by zero gives zero. */
  function QuotientWords(signed: bool, x: int, y: int): (int, int) {
    if y == 0 then (0, 0)
    else if signed then
      var q := Magnitude(x) / Magnitude(y);
      var quotient := if (x < 0) == (y < 0) then q else -q;
      (Word(x - quotient * y), Word(quotient))
    else if Unsigned(y) == 0 then (0, 0)
    else (Word(Unsigned(x) % Unsigned(y)), Word(Unsigned(x) / Unsigned(y)))
  }

  function Magnitude(x: int): int { if x < 0 then -x else x }

  function Extend(size: int, signed: bool, raw: int): int {
    if size == 1 then (var b := raw % 0x100; if signed && b >= 0x80 then b - 0x100 else b)
    else if size == 2 then (var h := raw % 0x1_0000; if signed && h >= 0x8000 then h - 0x1_0000 else h)
    else raw
  }

  function ByteAt(mem: seq<int>, address: int): int { if 0 <= address < |mem| then mem[address] % 0x100 else 0 }

  /** Memory is little-endian. */
  function Fetch(mem: seq<int>, address: int, size: int): int {
    var a := Unsigned(address);
    if size == 1 then ByteAt(mem, a)
    else if size == 2 then ByteAt(mem, a) + 0x100 * ByteAt(mem, a + 1)
    else Word(ByteAt(mem, a) + 0x100 * ByteAt(mem, a + 1) + 0x1_0000 * ByteAt(mem, a + 2) + 0x100_0000 * ByteAt(mem, a + 3))
  }

  function PutByte(mem: seq<int>, address: int, value: int): seq<int> {
    if 0 <= address < |mem| then mem[address := value % 0x100] else mem
  }

  function Put(mem: seq<int>, address: int, size: int, value: int): seq<int> {
    var a, v := Unsigned(address), Unsigned(value);
    if size == 1 then PutByte(mem, a, v)
    else if size == 2 then PutByte(PutByte(mem, a, v), a + 1, v / 0x100)
    else PutByte(PutByte(PutByte(PutByte(mem, a, v), a + 1, v / 0x100), a + 2, v / 0x1_0000), a + 3, v / 0x100_0000)
  }

  // ---------------------------------------------------------------- decoding

  datatype Format = IFmt | JFmt | RFmt

  datatype Code = Plain(op: Op) | Special | BCond

  function OpOf(w: int, primary: seq<(Code, Format)>, special: seq<Op>): Op
    requires |primary| == 64 && |special| == 64
  {
    var u := Unsigned(w);
    match primary[u / 0x400_0000].0
    case Plain(op) => op
    case Special => special[u % 64]
    case BCond =>
      var which := u / 0x1_0000 % 32;
      if which == 0 then Branch(Ltz, false)
      else if which == 1 then Branch(Gez, false)
      else if which == 16 then Branch(Ltz, true)
      else if which == 17 then Branch(Gez, true)
      else Illegal
  }

  function ExtraOf(w: int, format: Format): int {
    var u := Unsigned(w);
    match format
    case IFmt => (var x := u % 0x1_0000; if x >= 0x8000 then x - 0x1_0000 else x)
    case RFmt => u / 64 % 32
    case JFmt => u % 0x400_0000
  }

  predicate TablesOk(primary: seq<(Code, Format)>, special: seq<Op>) { |primary| == 64 && |special| == 64 }

  function Decode(w: int, primary: seq<(Code, Format)>, special: seq<Op>): (i: Instr)
    requires TablesOk(primary, special)
  {
    var u := Unsigned(w);
    Fields(OpOf(w, primary, special), u / 0x20_0000 % 32, u / 0x1_0000 % 32, u / 0x800 % 32, ExtraOf(w, primary[u / 0x400_0000].1))
  }

  /** The processor for given opcode tables. */
  function Processor(primary: seq<(Code, Format)>, special: seq<Op>): Isa
    requires TablesOk(primary, special)
  {
    Isa(w => Decode(w, primary, special),
        (f, x, y) => BinaryResult(f, x, y),
        (g, x, e) => ImmediateResult(g, x, e),
        (h, x, n) => ShiftResult(h, x, n),
        (t, x, y) => TestResult(t, x, y),
        (pc, e) => Word(Unsigned(pc) / 0x1000_0000 * 0x1000_0000 + 4 * e % 0x1000_0000),
        (pc, e) => Word(pc + 4 * e),
        (x, y) => Word(x + y),
        (s, x, y) => ProductWords(s, x, y),
        (s, x, y) => QuotientWords(s, x, y),
        (size, s, raw) => Extend(size, s, raw),
        (left, was, value) => if left then value else Word(Unsigned(was) / 0x100 * 0x100 + Unsigned(value) / 0x100_0000),
        (left, value, reg) => if left then reg else Word(Unsigned(value) % 0x100_0000 + Unsigned(reg) % 0x100 * 0x100_0000),
        (mem, a, size) => Fetch(mem, a, size),
        (mem, a, size, v) => Put(mem, a, size, v))
  }

  // ---------------------------------------------------------------- what the arithmetic promises

  lemma WordIs(x: int)
    ensures IsWord(Word(x)) && Word(x) % W == x % W && (IsWord(x) ==> Word(x) == x)
  {
  }

  /** The sign tests find an overflow exactly when the true sum or difference is not a word. */
  lemma OverflowExact(x: int, y: int)
    requires IsWord(x) && IsWord(y)
    ensures BinaryResult(Add, x, y) == if IsWord(x + y) then Some(x + y) else None
    ensures BinaryResult(Sub, x, y) == if IsWord(x - y) then Some(x - y) else None
    ensures ImmediateResult(AddI, x, y) == if IsWord(x + y) then Some(x + y) else None
  {
  }

  /** Quotient and remainder put the dividend together again; the remainder is smaller than the divisor and has the
      dividend's sign. The one quotient that is not a word is excepted. */
  lemma SignedDivision(x: int, y: int)
    requires IsWord(x) && IsWord(y) && y != 0 && !(x == -0x8000_0000 && y == -1)
    ensures var (hi, lo) := QuotientWords(true, x, y);
            && lo * y + hi == x && Magnitude(hi) < Magnitude(y) && (hi > 0 ==> x > 0) && (hi < 0 ==> x < 0)
  {
    var q := Magnitude(x) / Magnitude(y);
    var quotient := if (x < 0) == (y < 0) then q else -q;
    DivisionParts(Magnitude(x), Magnitude(y));
    Negations(q, y);
    SignedParts(x, y, q, quotient, Magnitude(x) % Magnitude(y));
    WordIs(quotient);
    WordIs(x - quotient * y);
  }

  lemma SignedParts(x: int, y: int, q: int, quotient: int, r: int)
    requires IsWord(x) && IsWord(y) && y != 0 && !(x == -0x8000_0000 && y == -1) && quotient == (if (x < 0) == (y < 0) then q else -q)
    requires Magnitude(x) == q * Magnitude(y) + r && 0 <= r < Magnitude(y) && 0 <= q <= Magnitude(x)
    requires Magnitude(y) > 1 && Magnitude(x) > 0 ==> q < Magnitude(x)
    requires (-q) * y == -(q * y) && q * (-y) == -(q * y)
    ensures x - quotient * y == (if x < 0 then -r else r) && IsWord(quotient) && IsWord(x - quotient * y)
  {
  }

  lemma DivisionParts(n: int, d: int)
    requires 0 <= n && 0 < d
    ensures n == n / d * d + n % d && 0 <= n % d < d && 0 <= n / d <= n && (d > 1 && n > 0 ==> n / d < n)
  {
    var q := n / d;
    assert n == d * q + n % d;
    Multiplication.Mono(1, d, q);
    if d > 1 { Multiplication.Mono(2, d, q); }
  }

  lemma Negations(q: int, y: int)
    ensures (-q) * y == -(q * y) && q * (-y) == -(q * y)
  {
  }

  lemma UnsignedDivision(x: int, y: int)
    requires IsWord(x) && IsWord(y) && y != 0
    ensures var (hi, lo) := QuotientWords(false, x, y);
            && Unsigned(lo) == Unsigned(x) / Unsigned(y) && Unsigned(hi) == Unsigned(x) % Unsigned(y)
  {
    DivisionParts(Unsigned(x), Unsigned(y));
    WordIs(Unsigned(x) / Unsigned(y));
    WordIs(Unsigned(x) % Unsigned(y));
  }

  /** The words that the multiplication routine leaves are those of the product. */
  lemma ProductIsMult(x: int, y: int, signed: bool, hi: int, lo: int)
    requires 0 <= hi < W && 0 <= lo < W && hi * W + lo == Multiplication.Product(x, y, signed) % (W * W)
    ensures ProductWords(signed, x, y) == (Word(hi), Word(lo))
  {
    HighLowWords(hi * W + lo, hi, lo);
  }

  lemma HighLowWords(p: int, hi: int, lo: int)
    requires 0 <= hi < W && 0 <= lo < W && p == hi * W + lo
    ensures p / W == hi && Word(p) == Word(lo)
  {
    assert p % W == lo;
  }

  // ---------------------------------------------------------------- where it differs from the architecture

  /** What a logical right shift should give. */
  function LogicalShift(x: int, n: nat): int { Word(Unsigned(x) / Pow2(n)) }

  lemma PowAtLeastTwo(n: nat)
    requires 0 < n
    ensures Pow2(n) >= 2
  {
  }

  lemma Quotients(x: int, p: int)
    requires IsWord(x) && x < 0 && 2 <= p
    ensures -0x8000_0000 <= x / p < 0 && 0 <= (x + W) / p < 0x8000_0000
  {
    var q, r := x / p, (x + W) / p;
    assert x == p * q + x % p && x + W == p * r + (x + W) % p;
    if q >= 0 { Multiplication.Mono(0, q, p); }
    if q < -0x8000_0000 { Multiplication.Mono(q, -0x8000_0001, p); Multiplication.Mono(2, p, 0x8000_0001); }
    if r < 0 { Multiplication.Mono(r, -1, p); }
    if r >= 0x8000_0000 { Multiplication.Mono(0x8000_0000, r, p); Multiplication.Mono(2, p, 0x8000_0000); }
  }

  lemma ShiftExact(x: int, n: nat)
    requires IsWord(x) && n < 32
    ensures ShiftRight(x, n) == LogicalShift(x, n) <==> n == 0 || x >= 0
  {
    if x < 0 && n > 0 {
      PowAtLeastTwo(n);
      Quotients(x, Pow2(n));
      WordIs(x / Pow2(n));
      WordIs((x + W) / Pow2(n));
    }
  }

  /** SRL and SRLV are logical shifts exactly when nothing is shifted or the operand is not negative. */
  lemma LogicalShiftExact(x: int, y: int, n: nat)
    requires IsWord(y) && n < 32
    ensures ShiftResult(Srl, y, n) == LogicalShift(y, n) <==> n == 0 || y >= 0
    ensures BinaryResult(Srlv, x, y) == Some(LogicalShift(y, x % 32)) <==> x % 32 == 0 || y >= 0
  {
    ShiftExact(y, n);
    ShiftExact(y, x % 32);
  }

  // ---------------------------------------------------------------- bit by bit

  lemma {:induction false} CombinedBit(g: Gate, u: int, v: int, n: nat, j: nat)
    requires j < n
    ensures Bit(Combined(g, u, v, n), j) == Through(g, Bit(u, j), Bit(v, j))
    decreases n
  {
    var rest := Combined(g, u / 2, v / 2, n - 1);
    assert Combined(g, u, v, n) / 2 == rest;
    if j > 0 { CombinedBit(g, u / 2, v / 2, n - 1, j - 1); }
  }

  lemma {:induction false} CombinedSize(g: Gate, u: int, v: int, n: nat)
    ensures 0 <= Combined(g, u, v, n) < Pow2(n)
    decreases n
  {
    if n > 0 { CombinedSize(g, u / 2, v / 2, n - 1); }
  }

  /** Numbers of n bits with the same bits are the same. */
  lemma {:induction false} SameBits(u: int, v: int, n: nat)
    requires 0 <= u < Pow2(n) && 0 <= v < Pow2(n) && forall j: nat :: j < n ==> Bit(u, j) == Bit(v, j)
    ensures u == v
    decreases n
  {
    if n > 0 {
      assert Bit(u, 0) == Bit(v, 0);
      forall j: nat | j < n - 1 ensures Bit(u / 2, j) == Bit(v / 2, j) { assert Bit(u, j + 1) == Bit(v, j + 1); }
      SameBits(u / 2, v / 2, n - 1);
    }
  }

  /** Bit j of a register. */
  predicate RegBit(x: int, j: nat) { Bit(Unsigned(x), j) }

  /** A logical operation works on each of the 32 bits by itself, and gives a word. */
  lemma LogicBit(g: Gate, x: int, y: int, j: nat)
    requires j < 32
    ensures IsWord(Logic(g, x, y)) && RegBit(Logic(g, x, y), j) == Through(g, RegBit(x, j), RegBit(y, j))
  {
    LogicPattern(g, x, y);
    CombinedBit(g, Unsigned(x), Unsigned(y), WordBits, j);
  }

  lemma LogicPattern(g: Gate, x: int, y: int)
    ensures IsWord(Logic(g, x, y)) && Unsigned(Logic(g, x, y)) == Combined(g, Unsigned(x), Unsigned(y), WordBits)
  {
    var c := Combined(g, Unsigned(x), Unsigned(y), WordBits);
    CombinedSize(g, Unsigned(x), Unsigned(y), WordBits);
    Multiplication.Pow32();
    WordIs(c);
    UnsignedWord(c);
  }

  lemma UnsignedWord(c: int)
    requires 0 <= c < W
    ensures Unsigned(Word(c)) == c
  {
  }

  /** A word is told by its bits. */
  lemma SameRegBits(x: int, y: int)
    requires IsWord(x) && IsWord(y) && forall j: nat :: j < 32 ==> RegBit(x, j) == RegBit(y, j)
    ensures x == y
  {
    Multiplication.Pow32();
    forall j: nat | j < 32 ensures Bit(Unsigned(x), j) == Bit(Unsigned(y), j) { assert RegBit(x, j) == RegBit(y, j); }
    SameBits(Unsigned(x), Unsigned(y), WordBits);
  }

  /** OR, which reads rs twice, gives rs; it is the bitwise or exactly when rt has no bit that rs lacks. */
  lemma OrExact(x: int, y: int)
    requires IsWord(x)
    ensures BinaryResult(Or, x, y) == Some(x)
    ensures BinaryResult(Or, x, y) == Some(Logic(Either, x, y)) <==> forall j: nat :: j < 32 && RegBit(y, j) ==> RegBit(x, j)
  {
    var same, or := Logic(Either, x, x), Logic(Either, x, y);
    forall j: nat | j < 32 ensures RegBit(same, j) == RegBit(x, j) && RegBit(or, j) == (RegBit(x, j) || RegBit(y, j)) {
      LogicBit(Either, x, x, j);
      LogicBit(Either, x, y, j);
    }
    LogicBit(Either, x, x, 0);
    LogicBit(Either, x, y, 0);
    SameRegBits(same, x);
    if forall j: nat :: j < 32 && RegBit(y, j) ==> RegBit(x, j) { SameRegBits(or, x); }
  }

  /** Inputs at which they differ: all ones shifted by one place, and 0 or 1. */
  lemma Differences(x: int, y: int)
    requires x == 0 && y == 1
    ensures ShiftResult(Srl, -1, 1) == -1 && LogicalShift(-1, 1) == 0x7fff_ffff
    ensures BinaryResult(Or, x, y) == Some(0) && BinaryResult(Or, x, y) != Some(Logic(Either, x, y))
  {
    ShiftedOnes();
    OrExact(x, y);
    assert RegBit(y, 0) && !RegBit(x, 0);
  }

  lemma ShiftedOnes()
    ensures ShiftResult(Srl, -1, 1) == -1 && LogicalShift(-1, 1) == 0x7fff_ffff
  {
    assert Pow2(1) == 2;
  }

  // ---------------------------------------------------------------- memory and decoding

  lemma PutByteGet(mem: seq<int>, a: int, v: int, b: int)
    ensures |PutByte(mem, a, v)| == |mem|
    ensures ByteAt(PutByte(mem, a, v), b) == if b == a && 0 <= a < |mem| then v % 0x100 else ByteAt(mem, b)
  {
  }

  lemma Bytes(v: int)
    requires 0 <= v < W
    ensures v % 0x100 + 0x100 * (v / 0x100 % 0x100) + 0x1_0000 * (v / 0x1_0000 % 0x100) + 0x100_0000 * (v / 0x100_0000 % 0x100) == v
    ensures v % 0x100 + 0x100 * (v / 0x100 % 0x100) == v % 0x1_0000
  {
  }

  function PutFour(mem: seq<int>, a: int, v0: int, v1: int, v2: int, v3: int): seq<int> {
    PutByte(PutByte(PutByte(PutByte(mem, a, v0), a + 1, v1), a + 2, v2), a + 3, v3)
  }

  lemma PutFourGet(mem: seq<int>, a: int, v0: int, v1: int, v2: int, v3: int, b: int)
    requires 0 <= a && a + 4 <= |mem|
    ensures ByteAt(PutFour(mem, a, v0, v1, v2, v3), b) ==
            if b == a then v0 % 0x100 else if b == a + 1 then v1 % 0x100
            else if b == a + 2 then v2 % 0x100 else if b == a + 3 then v3 % 0x100 else ByteAt(mem, b)
  {
    var m1 := PutByte(mem, a, v0);
    var m2 := PutByte(m1, a + 1, v1);
    var m3 := PutByte(m2, a + 2, v2);
    PutByteGet(mem, a, v0, b);
    PutByteGet(m1, a + 1, v1, b);
    PutByteGet(m2, a + 2, v2, b);
    PutByteGet(m3, a + 3, v3, b);
  }

  /** A stored word is loaded back, and no other byte changes. */
  lemma WordStored(mem: seq<int>, a: int, v: int)
    requires 0 <= a && a + 4 <= |mem| < W && IsWord(v)
    ensures Fetch(Put(mem, a, 4, v), a, 4) == v
    ensures forall b :: !(a <= b < a + 4) ==> ByteAt(Put(mem, a, 4, v), b) == ByteAt(mem, b)
  {
    var u := Unsigned(v);
    var m := PutFour(mem, a, u, u / 0x100, u / 0x1_0000, u / 0x100_0000);
    assert Put(mem, a, 4, v) == m;
    forall b ensures b == a ==> ByteAt(m, b) == u % 0x100
             ensures !(a <= b < a + 4) ==> ByteAt(m, b) == ByteAt(mem, b)
    {
      PutFourGet(mem, a, u, u / 0x100, u / 0x1_0000, u / 0x100_0000, b);
    }
    PutFourGet(mem, a, u, u / 0x100, u / 0x1_0000, u / 0x100_0000, a + 1);
    PutFourGet(mem, a, u, u / 0x100, u / 0x1_0000, u / 0x100_0000, a + 2);
    PutFourGet(mem, a, u, u / 0x100, u / 0x1_0000, u / 0x100_0000, a + 3);
    FetchFour(m, a, u, v);
  }

  lemma FetchFour(m: seq<int>, a: int, u: int, v: int)
    requires 0 <= a < W && u == Unsigned(v) && IsWord(v)
    requires ByteAt(m, a) == u % 0x100 && ByteAt(m, a + 1) == u / 0x100 % 0x100
    requires ByteAt(m, a + 2) == u / 0x1_0000 % 0x100 && ByteAt(m, a + 3) == u / 0x100_0000 % 0x100
    ensures Fetch(m, a, 4) == v
  {
    Bytes(u);
    WordIs(v);
    WordIs(u);
  }

  /** An instruction word put together from its fields, in the immediate format. */
  function EncodeI(op: int, rs: int, rt: int, immediate: int): int {
    op * 0x400_0000 + rs * 0x20_0000 + rt * 0x1_0000 + immediate % 0x1_0000
  }

  function EncodeR(op: int, rs: int, rt: int, rd: int, amount: int, funct: int): int {
    op * 0x400_0000 + rs * 0x20_0000 + rt * 0x1_0000 + rd * 0x800 + amount * 64 + funct
  }

  /** Reading off the field above and the fields below a boundary. */
  lemma Boundary(high: int, low: int, size: int)
    requires 0 <= low < size
    ensures (high * size + low) / size == high && (high * size + low) % size == low
  {
    var w := high * size + low;
    var q, r := w / size, w % size;
    assert w == size * q + r;
    assert size * (q - high) == low - r by { Multiplication.Distribute(size, q, -high); }
    if q > high { Multiplication.Mono(1, q - high, size); }
    if q < high { Multiplication.Mono(q - high, -1, size); }
  }

  lemma FieldsI(op: int, rs: int, rt: int, low: int)
    requires 0 <= op < 64 && 0 <= rs < 32 && 0 <= rt < 32 && 0 <= low < 0x1_0000
    ensures var w := op * 0x400_0000 + rs * 0x20_0000 + rt * 0x1_0000 + low;
            && 0 <= w < W && w / 0x400_0000 == op && w / 0x20_0000 % 32 == rs && w / 0x1_0000 % 32 == rt && w % 0x1_0000 == low
  {
    Boundary(op, rs * 0x20_0000 + rt * 0x1_0000 + low, 0x400_0000);
    Boundary(op * 32 + rs, rt * 0x1_0000 + low, 0x20_0000);
    Boundary(op, rs, 32);
    Boundary(op * 0x400 + rs * 32 + rt, low, 0x1_0000);
    Boundary(op * 32 + rs, rt, 32);
  }

  lemma UnsignedOf(w: int)
    requires 0 <= w < W
    ensures Unsigned(w) == w
  {
  }

  lemma SignExtended(immediate: int)
    requires -0x8000 <= immediate < 0x8000
    ensures var x := immediate % 0x1_0000;
            0 <= x < 0x1_0000 && (if x >= 0x8000 then x - 0x1_0000 else x) == immediate
  {
  }

  /** Decoding an immediate-format word gives back its registers and its immediate with the sign extended. */
  lemma DecodeI(op: int, rs: int, rt: int, immediate: int, primary: seq<(Code, Format)>, special: seq<Op>)
    requires TablesOk(primary, special) && 0 <= op < 64 && 0 <= rs < 32 && 0 <= rt < 32 && -0x8000 <= immediate < 0x8000
    requires primary[op].0.Plain? && primary[op].1 == IFmt
    ensures var i := Decode(EncodeI(op, rs, rt, immediate), primary, special);
            && i.op == primary[op].0.op && i.rs == rs && i.rt == rt && i.extra == immediate
  {
    SignExtended(immediate);
    FieldsI(op, rs, rt, immediate % 0x1_0000);
    UnsignedOf(EncodeI(op, rs, rt, immediate));
  }

  /** Decoding a register-format word gives back its registers, its shift amount and the operation of its function field. */
  lemma DecodeR(op: int, rs: int, rt: int, rd: int, amount: int, funct: int, primary: seq<(Code, Format)>, special: seq<Op>)
    requires TablesOk(primary, special) && 0 <= op < 64 && 0 <= rs < 32 && 0 <= rt < 32 && 0 <= rd < 32 && 0 <= amount < 32 && 0 <= funct < 64
    requires primary[op] == (Special, RFmt)
    ensures var i := Decode(EncodeR(op, rs, rt, rd, amount, funct), primary, special);
            && i.op == special[funct] && i.rs == rs && i.rt == rt && i.rd == rd && i.extra == amount
  {
    var w := EncodeR(op, rs, rt, rd, amount, funct);
    FieldsI(op, rs, rt, rd * 0x800 + amount * 64 + funct);
    FieldsR(op * 0x400 + rs * 32 + rt, rd, amount, funct);
    assert w == (op * 0x400 + rs * 32 + rt) * 0x1_0000 + rd * 0x800 + amount * 64 + funct;
    DecodeFields(w, op, rs, rt, rd, amount, funct, primary, special);
  }

  lemma DecodeFields(w: int, op: int, rs: int, rt: int, rd: int, amount: int, funct: int, primary: seq<(Code, Format)>, special: seq<Op>)
    requires TablesOk(primary, special) && 0 <= w < W && 0 <= op < 64 && primary[op] == (Special, RFmt) && 0 <= funct < 64
    requires w / 0x400_0000 == op && w / 0x20_0000 % 32 == rs && w / 0x1_0000 % 32 == rt && w / 0x800 % 32 == rd
    requires w / 64 % 32 == amount && w % 64 == funct
    ensures var i := Decode(w, primary, special);
            && i.op == special[funct] && i.rs == rs && i.rt == rt && i.rd == rd && i.extra == amount
  {
    UnsignedOf(w);
  }

  lemma FieldsR(high: int, rd: int, amount: int, funct: int)
    requires 0 <= rd < 32 && 0 <= amount < 32 && 0 <= funct < 64
    ensures var w := high * 0x1_0000 + rd * 0x800 + amount * 64 + funct;
            w / 0x800 % 32 == rd && w / 64 % 32 == amount && w % 64 == funct
  {
    Boundary(high * 32 + rd, amount * 64 + funct, 0x800);
    Boundary(high, rd, 32);
    Boundary(high * 0x400 + rd * 32 + amount, funct, 64);
    Boundary(high * 32 + rd, amount, 32);
  }

  // ---------------------------------------------------------------- the opcode tables

  const FirstOps: seq<(Code, Format)> := [
    (Special, RFmt), (BCond, IFmt), (Plain(Jump(false)), JFmt), (Plain(Jump(true)), JFmt),
    (Plain(Branch(Eq, false)), IFmt), (Plain(Branch(Ne, false)), IFmt), (Plain(Branch(Lez, false)), IFmt), (Plain(Branch(Gtz, false)), IFmt),
    (Plain(WithExtra(AddI)), IFmt), (Plain(WithExtra(AddIU)), IFmt), (Plain(WithExtra(SltI)), IFmt), (Plain(WithExtra(SltIU)), IFmt),
    (Plain(WithExtra(AndI)), IFmt), (Plain(WithExtra(OrI)), IFmt), (Plain(WithExtra(XorI)), IFmt), (Plain(WithExtra(Lui)), IFmt)]

  const MemoryOps: seq<(Code, Format)> := [
    (Plain(Load(1, true)), IFmt), (Plain(Load(2, true)), IFmt), (Plain(LoadPart(true)), IFmt), (Plain(Load(4, true)), IFmt),
    (Plain(Load(1, false)), IFmt), (Plain(Load(2, false)), IFmt), (Plain(LoadPart(false)), IFmt), (Plain(Illegal), IFmt),
    (Plain(Store(1)), IFmt), (Plain(Store(2)), IFmt), (Plain(StorePart(true)), IFmt), (Plain(Store(4)), IFmt),
    (Plain(Illegal), IFmt), (Plain(Illegal), IFmt), (Plain(StorePart(false)), IFmt), (Plain(Illegal), IFmt)]

  /** Reserved and unimplemented codes. */
  const OtherOps: seq<(Code, Format)> := [
    (Plain(Illegal), IFmt), (Plain(Illegal), IFmt), (Plain(Illegal), IFmt), (Plain(Illegal), IFmt),
    (Plain(Illegal), IFmt), (Plain(Illegal), IFmt), (Plain(Illegal), IFmt), (Plain(Illegal), IFmt),
    (Plain(Illegal), IFmt), (Plain(Illegal), IFmt), (Plain(Illegal), IFmt), (Plain(Illegal), IFmt),
    (Plain(Illegal), IFmt), (Plain(Illegal), IFmt), (Plain(Illegal), IFmt), (Plain(Illegal), IFmt)]

  /** The table by primary code, sixteen rows at a time. */
  const OpTable: seq<(Code, Format)> := FirstOps + OtherOps + MemoryOps + OtherOps

  const ShiftFunctions: seq<Op> := [
    ShiftBy(Sll), Illegal, ShiftBy(Srl), ShiftBy(Sra), Register(Sllv), Illegal, Register(Srlv), Register(Srav),
    JumpRegister(false), JumpRegister(true), Illegal, Illegal, Syscall, Illegal, Illegal, Illegal]

  const HiLoFunctions: seq<Op> := [
    MoveFrom(Hi), MoveTo(Hi), MoveFrom(Lo), MoveTo(Lo), Illegal, Illegal, Illegal, Illegal,
    Multiply(true), Multiply(false), Divide(true), Divide(false), Illegal, Illegal, Illegal, Illegal]

  const WordFunctions: seq<Op> := [
    Register(Add), Register(AddU), Register(Sub), Register(SubU), Register(And), Register(Or), Register(Xor), Register(Nor),
    Illegal, Illegal, Register(Slt), Register(SltU), Illegal, Illegal, Illegal, Illegal]

  const OtherFunctions: seq<Op> := [
    Illegal, Illegal, Illegal, Illegal, Illegal, Illegal, Illegal, Illegal,
    Illegal, Illegal, Illegal, Illegal, Illegal, Illegal, Illegal, Illegal]

  /** The table by function code. */
  const SpecialTable: seq<Op> := ShiftFunctions + HiLoFunctions + WordFunctions + OtherFunctions

  /** The simulator's own processor hides interrupts and repaired faults from disciplined programs. */
  lemma SimulatorTransparent(s: State, ds: seq<State>, rounds: seq<Round>)
    requires Run(Processor(OpTable, SpecialTable), ds, rounds) && Sound(s.regs) && ds[0] == s
    requires Disciplined(Processor(OpTable, SpecialTable), s, |rounds|)
    ensures CleanAfter(Processor(OpTable, SpecialTable), s, |rounds|).Some?
    ensures var c := CleanAfter(Processor(OpTable, SpecialTable), s, |rounds|).value;
            && Alike(c.regs, ds[|rounds|].regs) && c.mem == ds[|rounds|].mem
  {
    Transparent(Processor(OpTable, SpecialTable), s, ds, rounds, |rounds|);
  }
}
