/**
 brand-logo-image.ts, lines 57-75: the table-driven CRC-32 (PNG Second Edition,
 section 5.5 and annex D) against the bit-serial definition: one data bit at a time,
 least significant first, through the reflected polynomial.

 A 32-bit word is the list of its bits, least significant first, so that exclusive or
 and shifting are what they are on the bits.
 */
module Crc32 {
  import opened Utf8

  type Bits = seq<bool>

  const WIDTH: nat := 32

  // ----- words -----

  /** The `k` lowest bits of a number. */
  function BitsOf(n: nat, k: nat): (r: Bits)
    ensures |r| == k
    decreases k
  {
    if k == 0 then [] else [n % 2 == 1] + BitsOf(n / 2, k - 1)
  }

  function ValueOf(bits: Bits): nat {
    if bits == [] then 0 else (if bits[0] then 1 else 0) + 2 * ValueOf(bits[1..])
  }

  function Zeroes(k: nat): (r: Bits)
    ensures |r| == k && forall i :: 0 <= i < k ==> !r[i]
  {
    if k == 0 then [] else Zeroes(k - 1) + [false]
  }

  function Ones(k: nat): (r: Bits)
    ensures |r| == k && forall i :: 0 <= i < k ==> r[i]
  {
    if k == 0 then [] else Ones(k - 1) + [true]
  }

  function Xor(a: Bits, b: Bits): (r: Bits)
    requires |a| == |b|
    ensures |r| == |a| && forall i :: 0 <= i < |a| ==> r[i] == (a[i] != b[i])
  {
    if a == [] then [] else [a[0] != b[0]] + Xor(a[1..], b[1..])
  }

  /** `w >>> n`. */
  function ShiftRight(w: Bits, n: nat): (r: Bits)
    requires n <= |w|
    ensures |r| == |w|
  {
    w[n..] + Zeroes(n)
  }

  /** A shorter value as a word. */
  function Extend(bits: Bits): (r: Bits)
    requires |bits| <= WIDTH
    ensures |r| == WIDTH
  {
    bits + Zeroes(WIDTH - |bits|)
  }

  const POLYNOMIAL: Bits := BitsOf(0xEDB8_8320, WIDTH)

  /** The generator of PNG's annex D without its highest term: the exponents of its other terms. */
  const TERMS: set<int> := {26, 23, 22, 16, 12, 11, 10, 8, 7, 5, 4, 2, 1, 0}

  lemma {:induction false} FourBits(high: nat, low: nat, k: nat)
    requires low < 16
    ensures BitsOf(16 * high + low, k + 4) == [low % 2 == 1, low / 2 % 2 == 1, low / 4 % 2 == 1, low / 8 == 1] + BitsOf(high, k)
  {
    hide BitsOf;
    OneBit(high, low / 8, k);
    OneBit(2 * high + low / 8, low / 4 % 2, k + 1);
    OneBit(4 * high + low / 4, low / 2 % 2, k + 2);
    OneBit(8 * high + low / 2, low % 2, k + 3);
  }

  lemma {:induction false} OneBit(high: nat, bit: nat, k: nat)
    requires bit < 2
    ensures BitsOf(2 * high + bit, k + 1) == [bit == 1] + BitsOf(high, k)
  {
  }

  /** The constant is the generator, its bits in reverse: the lowest bit stands for the term of exponent 31. */
  lemma {:induction false} PolynomialIsGenerator()
    ensures forall i :: 0 <= i < WIDTH ==> (POLYNOMIAL[i] <==> 31 - i in TERMS)
  {
    hide BitsOf;
    FourBits(0xEDB_8832, 0x0, 28);
    FourBits(0xED_B883, 0x2, 24);
    FourBits(0xE_DB88, 0x3, 20);
    FourBits(0xEDB8, 0x8, 16);
    FourBits(0xEDB, 0x8, 12);
    FourBits(0xED, 0xB, 8);
    FourBits(0xE, 0xD, 4);
    FourBits(0, 0xE, 0);
  }

  lemma {:induction false} BitsRoundTrip(bits: Bits)
    ensures BitsOf(ValueOf(bits), |bits|) == bits
  {
    if bits != [] {
      BitsRoundTrip(bits[1..]);
      assert ValueOf(bits) / 2 == ValueOf(bits[1..]);
    }
  }

  lemma {:induction false} ZeroBits(k: nat)
    ensures BitsOf(0, k) == Zeroes(k)
  {
    if k > 0 {
      ZeroBits(k - 1);
    }
  }

  /** The bits above a small number are zero. */
  lemma {:induction false} ExtendedBits(bits: Bits, k: nat)
    ensures BitsOf(ValueOf(bits), |bits| + k) == bits + Zeroes(k)
  {
    if bits == [] {
      ZeroBits(k);
    } else {
      ExtendedBits(bits[1..], k);
      assert ValueOf(bits) / 2 == ValueOf(bits[1..]);
      assert bits + Zeroes(k) == [bits[0]] + (bits[1..] + Zeroes(k));
    }
  }

  lemma {:induction false} ByteValue(bits: Bits)
    requires |bits| == 8
    ensures ValueOf(bits) < 256
  {
    ValueBound(bits);
    PowersOfTwo();
  }

  function Power(k: nat): nat {
    if k == 0 then 1 else 2 * Power(k - 1)
  }

  lemma {:induction false} ValueBound(bits: Bits)
    ensures ValueOf(bits) < Power(|bits|)
  {
    if bits != [] {
      ValueBound(bits[1..]);
    }
  }

  lemma {:induction false} PowersOfTwo()
    ensures Power(8) == 256
  {
    assert Power(4) == 16;
  }

  // ----- the register -----

  /** One shift of the register, with feedback when a one is shifted out. */
  function Shift(w: Bits): (r: Bits)
    requires |w| == WIDTH
    ensures |r| == WIDTH
  {
    if w[0] then Xor(POLYNOMIAL, ShiftRight(w, 1)) else ShiftRight(w, 1)
  }

  function Shifts(w: Bits, n: nat): (r: Bits)
    requires |w| == WIDTH
    ensures |r| == WIDTH
    decreases n
  {
    if n == 0 then w else Shifts(Shift(w), n - 1)
  }

  /** Combines one data bit with the lowest bit of the register. */
  function Combine(w: Bits, bit: bool): (r: Bits)
    requires |w| == WIDTH
    ensures |r| == WIDTH
  {
    [w[0] != bit] + w[1..]
  }

  // ----- the bit-serial definition -----

  function FeedBits(crc: Bits, data: Bits): (r: Bits)
    requires |crc| == WIDTH
    ensures |r| == WIDTH
    decreases |data|
  {
    if data == [] then crc else FeedBits(Shift(Combine(crc, data[0])), data[1..])
  }

  function FeedBytes(crc: Bits, bytes: Bytes): (r: Bits)
    requires |crc| == WIDTH
    ensures |r| == WIDTH
  {
    if bytes == [] then crc
    else FeedBits(FeedBytes(crc, bytes[..|bytes| - 1]), BitsOf(bytes[|bytes| - 1] as nat, 8))
  }

  /** The register starts with all ones and is complemented at the end. */
  function Crc(bytes: Bytes): (r: Bits)
    ensures |r| == WIDTH
  {
    Xor(FeedBytes(Ones(WIDTH), bytes), Ones(WIDTH))
  }

  // ----- the register is linear -----

  lemma {:induction false} ShiftIsLinear(x: Bits, y: Bits)
    requires |x| == |y| == WIDTH
    ensures Shift(Xor(x, y)) == Xor(Shift(x), Shift(y))
  {
    hide Xor, Zeroes;
    var left, right := Shift(Xor(x, y)), Xor(Shift(x), Shift(y));
    forall i | 0 <= i < WIDTH ensures left[i] == right[i] {
    }
  }

  lemma {:induction false} ShiftsAreLinear(x: Bits, y: Bits, n: nat)
    requires |x| == |y| == WIDTH
    ensures Shifts(Xor(x, y), n) == Xor(Shifts(x, n), Shifts(y, n))
    decreases n
  {
    if n > 0 {
      ShiftIsLinear(x, y);
      ShiftsAreLinear(Shift(x), Shift(y), n - 1);
    }
  }

  /** As long as zeroes are shifted out, there is no feedback. */
  lemma {:induction false} ZeroesShiftOut(w: Bits, n: nat)
    requires |w| == WIDTH && n <= WIDTH && forall i :: 0 <= i < n ==> !w[i]
    ensures Shifts(w, n) == ShiftRight(w, n)
    decreases n
  {
    hide Zeroes, Xor;
    if n == 0 {
      ShiftNothing(w);
    } else {
      var half := ShiftRight(w, 1);
      assert forall i :: 0 <= i < n - 1 ==> half[i] == w[i + 1];
      ZeroesShiftOut(half, n - 1);
      ShiftTwice(w, 1, n - 1);
    }
  }

  lemma {:induction false} ShiftNothing(w: Bits)
    ensures ShiftRight(w, 0) == w
  {
    assert w[0..] + [] == w;
  }

  lemma {:induction false} ZeroesJoin(a: nat, b: nat)
    ensures Zeroes(a) + Zeroes(b) == Zeroes(a + b)
  {
    hide Zeroes;
  }

  lemma {:induction false} ShiftTwice(w: Bits, a: nat, b: nat)
    requires a + b <= |w|
    ensures ShiftRight(ShiftRight(w, a), b) == ShiftRight(w, a + b)
  {
    hide Zeroes;
    var once := ShiftRight(w, a);
    assert once[b..] == w[a + b..] + Zeroes(a);
    ZeroesJoin(a, b);
  }

  /** Eight shifts at once: the low byte through the table, the rest moved down. */
  lemma {:induction false} OneByteByTable(w: Bits)
    requires |w| == WIDTH
    ensures Shifts(w, 8) == Xor(Shifts(Extend(w[..8]), 8), ShiftRight(w, 8))
  {
    var low, high := Extend(w[..8]), Zeroes(8) + w[8..];
    assert Xor(low, high) == w;
    ShiftsAreLinear(low, high, 8);
    ZeroesShiftOut(high, 8);
    assert high[8..] == w[8..];
  }

  lemma {:induction false} FirstBit(crc: Bits, data: Bits)
    requires |crc| == WIDTH && 0 < |data| <= WIDTH
    ensures Shift(Xor(crc, Extend(data))) == Xor(Shift(Combine(crc, data[0])), Extend(data[1..]))
  {
    hide Xor, Zeroes;
    var left, right := Shift(Xor(crc, Extend(data))), Xor(Shift(Combine(crc, data[0])), Extend(data[1..]));
    forall i | 0 <= i < WIDTH ensures left[i] == right[i] {
    }
  }

  /** Feeding bits one by one is the same as combining them with the register first. */
  lemma {:induction false} FeedIsShift(crc: Bits, data: Bits)
    requires |crc| == WIDTH && |data| <= WIDTH
    ensures FeedBits(crc, data) == Shifts(Xor(crc, Extend(data)), |data|)
    decreases |data|
  {
    if data == [] {
      assert Xor(crc, Extend(data)) == crc;
    } else {
      FirstBit(crc, data);
      FeedIsShift(Shift(Combine(crc, data[0])), data[1..]);
    }
  }

  // ----- the table -----

  /** The eight shifts of every index. */
  predicate AreEntries(table: seq<Bits>) {
    forall i :: 0 <= i < |table| ==> table[i] == Shifts(BitsOf(i, WIDTH), 8)
  }

  predicate IsTable(table: seq<Bits>) {
    |table| == 256 && AreEntries(table)
  }

  /** The inner loop of CRC_TABLE. */
  method TableEntry(index: nat) returns (value: Bits)
    ensures |value| == WIDTH && value == Shifts(BitsOf(index, WIDTH), 8)
  {
    hide Xor, ShiftRight, BitsOf;
    value := BitsOf(index, WIDTH);
    for bit := 0 to 8
      invariant |value| == WIDTH && Shifts(value, 8 - bit) == Shifts(BitsOf(index, WIDTH), 8)
    {
      value := if value[0] then Xor(POLYNOMIAL, ShiftRight(value, 1)) else ShiftRight(value, 1);
    }
  }

  /** CRC_TABLE */
  method BuildTable() returns (table: array<Bits>)
    ensures fresh(table) && table.Length == 256 && IsTable(table[..])
  {
    hide Shifts, BitsOf;
    ghost var entries: seq<Bits> := [];
    table := new Bits[256](_ => []);
    for index := 0 to 256
      invariant |entries| == index && AreEntries(entries)
      invariant table[..index] == entries
    {
      var value := TableEntry(index);
      entries := entries + [value];
      table[index] := value;
    }
    assert table[..] == table[..256];
  }

  /** `(crc ^ byte) & 0xff`. */
  function Index(crc: Bits, b: Byte): (i: nat)
    requires |crc| == WIDTH
    ensures i < 256
  {
    var low := Xor(crc, Extend(BitsOf(b as nat, 8)))[..8];
    ByteValue(low);
    ValueOf(low)
  }

  /** A byte leaves the bits above the lowest eight as they are. */
  lemma {:induction false} HighBitsStay(crc: Bits, data: Bits)
    requires |crc| == WIDTH && |data| == 8
    ensures ShiftRight(Xor(crc, Extend(data)), 8) == ShiftRight(crc, 8)
  {
    hide Xor, Zeroes;
    assert Xor(crc, Extend(data))[8..] == crc[8..];
  }

  lemma {:induction false} LowEntry(table: seq<Bits>, crc: Bits, b: Byte)
    requires IsTable(table) && |crc| == WIDTH
    ensures table[Index(crc, b)] == Shifts(Extend(Xor(crc, Extend(BitsOf(b as nat, 8)))[..8]), 8)
  {
    hide Shifts, BitsOf, Xor, ValueOf, Zeroes;
    ExtendedBits(Xor(crc, Extend(BitsOf(b as nat, 8)))[..8], 24);
  }

  lemma {:induction false} TableStep(table: seq<Bits>, crc: Bits, b: Byte)
    requires IsTable(table) && |crc| == WIDTH
    ensures |table[Index(crc, b)]| == WIDTH
    ensures Xor(table[Index(crc, b)], ShiftRight(crc, 8)) == FeedBits(crc, BitsOf(b as nat, 8))
  {
    hide Shifts, FeedBits, BitsOf, Xor, ShiftRight, Extend, Index, IsTable;
    var data := BitsOf(b as nat, 8);
    FeedIsShift(crc, data);
    OneByteByTable(Xor(crc, Extend(data)));
    HighBitsStay(crc, data);
    LowEntry(table, crc, b);
  }

  method FeedByte(table: array<Bits>, crc: Bits, b: Byte) returns (next: Bits)
    requires table.Length == 256 && IsTable(table[..]) && |crc| == WIDTH
    ensures |next| == WIDTH && next == FeedBits(crc, BitsOf(b as nat, 8))
  {
    TableStep(table[..], crc, b);
    var entry := table[Index(crc, b)];
    assert entry == table[..][Index(crc, b)];
    next := Xor(entry, ShiftRight(crc, 8));
  }

  lemma {:induction false} FeedOneMore(crc: Bits, bytes: Bytes, start: nat, index: nat)
    requires |crc| == WIDTH && start <= index < |bytes|
    ensures FeedBytes(crc, bytes[start..index + 1]) == FeedBits(FeedBytes(crc, bytes[start..index]), BitsOf(bytes[index] as nat, 8))
  {
    hide FeedBits, BitsOf;
    assert bytes[start..index + 1][..index - start] == bytes[start..index];
  }

  /** crc32: the table gives the bit-serial CRC of the range. */
  method ComputeCrc(table: array<Bits>, bytes: Bytes, start: nat, end: nat) returns (crc: Bits)
    requires table.Length == 256 && IsTable(table[..]) && start <= end <= |bytes|
    ensures crc == Crc(bytes[start..end])
  {
    hide FeedBits, BitsOf, Xor, Ones, IsTable;
    crc := Ones(WIDTH);
    for index := start to end
      invariant |crc| == WIDTH && crc == FeedBytes(Ones(WIDTH), bytes[start..index])
    {
      FeedOneMore(Ones(WIDTH), bytes, start, index);
      crc := FeedByte(table, crc, bytes[index]);
    }
    crc := Xor(crc, Ones(WIDTH));
  }
}
