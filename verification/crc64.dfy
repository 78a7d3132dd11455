/** CRC-64 with the ISO 3309 (HDLC) polynomial x^64 + x^4 + x^3 + x + 1, as
    Go's `hash/crc64` computes it with `crc64.MakeTable(crc64.ISO)`: the
    polynomial in reflected (least significant bit first) form, the register
    inverted before and after, and a 256-entry table consumed one byte at a
    time. The 64-bit register is modelled as its 64 bits, least significant
    first, so that `crc >> 1` drops the head and `^` is bitwise inequality.
    The bit-at-a-time division is the reference the table form is proved
    against. */
module Crc64 {
  import opened Base


  /** A 64-bit register, bit `i` at index `i`. */
  type Word = w: seq<bool> | |w| == 64 witness Zeros(64)

  function Zeros(n: nat): (r: seq<bool>)
    ensures |r| == n
    ensures forall i :: 0 <= i < n ==> !r[i]
  {
    seq(n, i => false)
  }

  /** The low `k` bits of `n`, least significant first. */
  function BitsOf(n: nat, k: nat): (r: seq<bool>)
    ensures |r| == k
    decreases k
  {
    if k == 0 then [] else [n % 2 == 1] + BitsOf(n / 2, k - 1)
  }

  /** The number a sequence of bits denotes, least significant first. */
  function Value(w: seq<bool>): nat
    decreases |w|
  {
    if w == [] then 0 else (if w[0] then 1 else 0) + 2 * Value(w[1..])
  }

  /** `uint64(n)`: the low 64 bits of `n`. */
  function WordOf(n: nat): Word {
    BitsOf(n, 64)
  }

  /** The `uint64` a register holds. */
  function WordValue(w: Word): (r: uint64) {
    ValueBound(w);
    Pow2Of64();
    Value(w)
  }

  /** `a ^ b`. */
  function Xor(a: Word, b: Word): Word {
    seq(64, i requires 0 <= i < 64 => a[i] != b[i])
  }

  /** `^a`. */
  function Not(a: Word): Word {
    seq(64, i requires 0 <= i < 64 => !a[i])
  }

  /** `a >> 1`. */
  function Halve(a: Word): Word {
    a[1..] + [false]
  }

  /** `a >> 8`. */
  function HighBits(a: Word): Word {
    a[8..] + Zeros(8)
  }

  /** `uint64(byte(a))`: the low byte, zero-extended. */
  function LowByte(a: Word): Word {
    a[..8] + Zeros(56)
  }

  /** `a &^ 0xFF`: everything but the low byte. */
  function HighPart(a: Word): Word {
    Zeros(8) + a[8..]
  }

  /** `crc64.ISO`: the reflected form of x^64 + x^4 + x^3 + x + 1, that is
      0xD800000000000000, whose set bits are 63, 62, 60 and 59. */
  function IsoPoly(): Word {
    seq(64, i => i == 59 || i == 60 || i == 62 || i == 63)
  }

  /** One bit of polynomial division in reflected form:
      `if crc&1 == 1 { crc = (crc >> 1) ^ poly } else { crc >>= 1 }`. */
  function Shift(crc: Word): Word {
    if crc[0] then Xor(Halve(crc), IsoPoly()) else Halve(crc)
  }

  /** `n` bits of polynomial division. */
  function Shifts(crc: Word, n: nat): Word
    decreases n
  {
    if n == 0 then crc else Shifts(Shift(crc), n - 1)
  }

  /** Entry `i` of the table `crc64.MakeTable` builds: eight bits of division
      applied to `uint64(i)`. */
  function TableEntry(i: Word): Word {
    Shifts(i, 8)
  }

  /** One iteration of Go's update loop: `tab[byte(crc)^v] ^ (crc >> 8)`. */
  function TableStep(crc: Word, v: byte): Word {
    Xor(TableEntry(Xor(LowByte(crc), WordOf(v))), HighBits(crc))
  }

  /** Go's update loop over the bytes, on the already inverted register. */
  function TableUpdate(crc: Word, data: seq<byte>): Word
    decreases |data|
  {
    if data == [] then crc else TableUpdate(TableStep(crc, data[0]), data[1..])
  }

  /** `crc64.Checksum(data, table)`: invert, update from zero, invert. */
  function Checksum(data: seq<byte>): uint64 {
    WordValue(Not(TableUpdate(Not(Zeros(64)), data)))
  }

  /** Reference: feed one byte into the register and divide bit by bit. */
  function BitUpdate(crc: Word, data: seq<byte>): Word
    decreases |data|
  {
    if data == [] then crc else BitUpdate(Shifts(Xor(crc, WordOf(data[0])), 8), data[1..])
  }

  /** Reference checksum, bit at a time. */
  function BitwiseChecksum(data: seq<byte>): uint64 {
    WordValue(Not(BitUpdate(Not(Zeros(64)), data)))
  }

  lemma {:induction false} ValueBound(w: seq<bool>)
    ensures Value(w) < Pow2(|w|)
    decreases |w|
  {
    if w != [] {
      ValueBound(w[1..]);
    }
  }

  lemma Pow2Of64()
    ensures Pow2(64) == 0x1_0000_0000_0000_0000
  {
    assert Pow2(8) == 0x100;
    assert Pow2(16) == 0x1_0000;
    assert Pow2(24) == 0x100_0000;
    assert Pow2(32) == 0x1_0000_0000;
    assert Pow2(40) == 0x100_0000_0000;
    assert Pow2(48) == 0x1_0000_0000_0000;
    assert Pow2(56) == 0x100_0000_0000_0000;
  }

  /** Reading the low `k` bits of a number below 2^k back gives the number. */
  lemma {:induction false} ValueBitsOf(n: nat, k: nat)
    requires n < Pow2(k)
    ensures Value(BitsOf(n, k)) == n
    decreases k
  {
    if k > 0 {
      var r := BitsOf(n, k);
      assert r[1..] == BitsOf(n / 2, k - 1);
      ValueBitsOf(n / 2, k - 1);
    }
  }

  /** Bits read back from their value are the same bits. */
  lemma {:induction false} BitsOfValue(w: seq<bool>)
    ensures BitsOf(Value(w), |w|) == w
    decreases |w|
  {
    if w != [] {
      BitsOfValue(w[1..]);
      var v := Value(w);
      assert v % 2 == 1 <==> w[0];
      assert v / 2 == Value(w[1..]);
    }
  }

  /** A byte has no bits above the low eight. */
  lemma {:induction false} BitsOfSmall(n: nat, k: nat, j: nat)
    requires n < Pow2(j)
    ensures forall i :: j <= i < k ==> !BitsOf(n, k)[i]
    decreases k
  {
    if k > 0 {
      if j == 0 {
        BitsOfSmall(n / 2, k - 1, 0);
      } else {
        BitsOfSmall(n / 2, k - 1, j - 1);
      }
    }
  }

  lemma ByteHigh(v: byte)
    ensures forall i :: 8 <= i < 64 ==> !WordOf(v)[i]
  {
    assert Pow2(8) == 256;
    BitsOfSmall(v, 64, 8);
  }

  lemma HalveLinear(a: Word, b: Word)
    ensures Halve(Xor(a, b)) == Xor(Halve(a), Halve(b))
  {
  }

  /** One bit of division is linear over GF(2). */
  lemma ShiftLinear(a: Word, b: Word)
    ensures Shift(Xor(a, b)) == Xor(Shift(a), Shift(b))
  {
    HalveLinear(a, b);
  }

  /** Any number of bits of division is linear. */
  lemma {:induction false} ShiftsLinear(a: Word, b: Word, n: nat)
    ensures Shifts(Xor(a, b), n) == Xor(Shifts(a, n), Shifts(b, n))
    decreases n
  {
    if n > 0 {
      ShiftLinear(a, b);
      ShiftsLinear(Shift(a), Shift(b), n - 1);
    }
  }

  /** A register whose low `n` bits are clear is just shifted by `n`. */
  lemma {:induction false} ShiftsClearLow(a: Word, n: nat)
    requires n <= 64
    requires forall i :: 0 <= i < n ==> !a[i]
    ensures Shifts(a, n) == a[n..] + Zeros(n)
    decreases n
  {
    if n > 0 {
      assert Shift(a) == Halve(a);
      ShiftsClearLow(Halve(a), n - 1);
      assert Halve(a)[n - 1..] + Zeros(n - 1) == a[n..] + Zeros(n);
    }
  }

  /** The register splits into the byte the table sees and the rest. */
  lemma SplitRegister(crc: Word, v: byte)
    ensures Xor(crc, WordOf(v)) == Xor(Xor(LowByte(crc), WordOf(v)), HighPart(crc))
  {
    ByteHigh(v);
  }

  /** One table lookup does the work of eight bits of division. */
  lemma TableStepIsEightShifts(crc: Word, v: byte)
    ensures TableStep(crc, v) == Shifts(Xor(crc, WordOf(v)), 8)
  {
    SplitRegister(crc, v);
    ShiftsLinear(Xor(LowByte(crc), WordOf(v)), HighPart(crc), 8);
    ShiftsClearLow(HighPart(crc), 8);
    assert HighPart(crc)[8..] + Zeros(8) == HighBits(crc);
  }

  /** The table-driven update Go runs equals the bit-at-a-time reference. */
  lemma {:induction false} TableUpdateIsBitUpdate(crc: Word, data: seq<byte>)
    ensures TableUpdate(crc, data) == BitUpdate(crc, data)
    decreases |data|
  {
    if data != [] {
      TableStepIsEightShifts(crc, data[0]);
      TableUpdateIsBitUpdate(TableStep(crc, data[0]), data[1..]);
    }
  }

  lemma ChecksumIsBitwise(data: seq<byte>)
    ensures Checksum(data) == BitwiseChecksum(data)
  {
    TableUpdateIsBitUpdate(Not(Zeros(64)), data);
  }

  /** The `uint64` and the register are the same 64 bits: reading a
      register as a number and back loses nothing. */
  lemma WordOfValue(w: Word)
    ensures WordOf(WordValue(w)) == w
  {
    BitsOfValue(w);
  }

  /** Every `uint64` is some register: its 64 bits read back as the number. */
  lemma WordValueOf(n: uint64)
    ensures WordValue(WordOf(n)) == n
  {
    Pow2Of64();
    ValueBitsOf(n, 64);
  }
}
