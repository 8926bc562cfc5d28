/**
 The CRC-32 of the write-ahead log: a 256-entry table filled in place, and a loop that consumes one byte a step. The
 reference is the bit-at-a-time reflected register of RFC 1952, section 8: each message bit, least significant
 first, is added to the register, which is then shifted once.
 */
module Crc32 {
  import opened Bytes
  import opened Register

  const POLY: bv32 := 0xEDB8_8320
  const ALL_ONES: bv32 := 0xFFFF_FFFF

  // ----- Reference: one message bit at a time -----

  function BitStep(c: bv32): bv32 {
    if c & 1 == 1 then POLY ^ (c >> 1) else c >> 1
  }

  function FeedBit(c: bv32, bit: bool): bv32 {
    BitStep(if bit then c ^ 1 else c)
  }

  function LowBit(x: bv32): bool { x & 1 == 1 }

  function Shift(x: bv32): bv32 { x >> 1 }

  function Xor(x: bv32, y: bv32): bv32 { x ^ y }

  /** A byte as a register value. */
  function Widen(b: Byte): bv32 { ToBits(b) as bv32 }

  function BitsOfByte(b: Byte): seq<bool> {
    LowBits(LowBit, Shift, Widen(b), 8)
  }

  /** The message as a bit string, each byte least significant bit first. */
  function BitsOf(data: ByteString): (bits: seq<bool>)
    ensures |bits| == 8 * |data|
  {
    if data == [] then [] else BitsOfByte(data[0]) + BitsOf(data[1..])
  }

  function Crc(data: ByteString): bv32 {
    FeedAll(FeedBit, ALL_ONES, BitsOf(data)) ^ ALL_ONES
  }

  // ----- Linearity of the register -----

  lemma XorShift(x: bv32, y: bv32)
    ensures (x ^ y) >> 1 == (x >> 1) ^ (y >> 1)
    ensures (x ^ y) & 1 == (x & 1) ^ (y & 1)
    ensures x & 1 == 0 || x & 1 == 1
  {}

  lemma XorRearranged(p: bv32, x: bv32, y: bv32)
    ensures p ^ (x ^ y) == (p ^ x) ^ y
    ensures p ^ (x ^ y) == x ^ (p ^ y)
    ensures x ^ y == (p ^ x) ^ (p ^ y)
  {}

  lemma BitStepOfXor(x: bv32, y: bv32)
    ensures BitStep(x ^ y) == BitStep(x) ^ BitStep(y)
  {
    XorShift(x, y);
    XorShift(y, x);
    XorRearranged(POLY, x >> 1, y >> 1);
  }

  lemma BitStepLinear()
    ensures Distributes(BitStep, Xor)
  {
    forall x, y ensures BitStep(Xor(x, y)) == Xor(BitStep(x), BitStep(y)) {
      BitStepOfXor(x, y);
    }
  }

  lemma EvenSummand(c: bv32, x: bv32)
    requires x & 1 == 0
    ensures (c ^ x) & 1 == c & 1
    ensures (POLY ^ (c >> 1)) ^ (x >> 1) == POLY ^ ((c ^ x) >> 1)
    ensures (c >> 1) ^ (x >> 1) == (c ^ x) >> 1
  {}

  lemma OddSummand(c: bv32, x: bv32)
    requires x & 1 == 1
    ensures (c ^ x) & 1 == (c ^ 1) & 1
    ensures (POLY ^ ((c ^ 1) >> 1)) ^ (x >> 1) == POLY ^ ((c ^ x) >> 1)
    ensures ((c ^ 1) >> 1) ^ (x >> 1) == (c ^ x) >> 1
  {}

  lemma FeedEven(c: bv32, x: bv32)
    requires x & 1 == 0
    ensures FeedBit(c, false) ^ (x >> 1) == BitStep(c ^ x)
  {
    EvenSummand(c, x);
  }

  lemma FeedOdd(c: bv32, x: bv32)
    requires x & 1 == 1
    ensures FeedBit(c, true) ^ (x >> 1) == BitStep(c ^ x)
  {
    OddSummand(c, x);
  }

  lemma FeedLowest(c: bv32, x: bv32)
    ensures Xor(FeedBit(c, LowBit(x)), Shift(x)) == BitStep(Xor(c, x))
  {
    if x & 1 == 1 {
      FeedOdd(c, x);
    } else {
      assert x & 1 == 0;
      FeedEven(c, x);
    }
  }

  lemma BitStepFeedsLowest()
    ensures FeedsLowest(BitStep, FeedBit, LowBit, Shift, Xor)
  {
    forall c, x ensures Xor(FeedBit(c, LowBit(x)), Shift(x)) == BitStep(Xor(c, x)) {
      FeedLowest(c, x);
    }
  }

  // ----- The table -----

  /** The entry the table holds at index i: eight shifts of the register started at i. */
  function TableEntry(i: Byte): bv32 {
    Iterate(BitStep, Widen(i), 8)
  }

  lemma EightShifts(x: bv32)
    ensures Iterate(Shift, x, 8) == x >> 8
  {
    assert x >> 8 == x >> 1 >> 1 >> 1 >> 1 >> 1 >> 1 >> 1 >> 1;
  }

  lemma ByteShiftedOut(b: bv8)
    ensures (b as bv32) >> 8 == 0
  {}

  lemma EightStepsOfHighPart(y: bv32)
    requires y & 0xFF == 0
    ensures Iterate(BitStep, y, 8) == y >> 8
  {
    assert y & 1 == 0 && (y >> 1) & 1 == 0 && (y >> 1 >> 1) & 1 == 0 && (y >> 1 >> 1 >> 1) & 1 == 0;
    assert (y >> 1 >> 1 >> 1 >> 1) & 1 == 0 && (y >> 1 >> 1 >> 1 >> 1 >> 1) & 1 == 0;
    assert (y >> 1 >> 1 >> 1 >> 1 >> 1 >> 1) & 1 == 0 && (y >> 1 >> 1 >> 1 >> 1 >> 1 >> 1 >> 1) & 1 == 0;
    assert y >> 8 == y >> 1 >> 1 >> 1 >> 1 >> 1 >> 1 >> 1 >> 1;
  }

  lemma SplitLowByte(c: bv32, b: bv8)
    ensures c ^ (b as bv32) == ((c ^ (b as bv32)) & 0xFF) ^ (c & 0xFFFF_FF00)
    ensures ((c ^ (b as bv32)) & 0xFF) as bv8 as bv32 == (c ^ (b as bv32)) & 0xFF
    ensures (c & 0xFFFF_FF00) & 0xFF == 0
    ensures (c & 0xFFFF_FF00) >> 8 == c >> 8
  {}

  function TableIndex(c: bv32, b: Byte): Byte {
    FromBits(((c ^ Widen(b)) & 0xFF) as bv8)
  }

  lemma IndexWidened(c: bv32, b: Byte)
    ensures Widen(TableIndex(c, b)) == ((c ^ Widen(b)) & 0xFF) as bv8 as bv32
  {
    FromBitsInjective(((c ^ Widen(b)) & 0xFF) as bv8);
  }

  lemma LookupIsEightSteps(c: bv32, b: Byte)
    ensures Xor(TableEntry(TableIndex(c, b)), c >> 8) == Iterate(BitStep, Xor(c, Widen(b)), 8)
  {
    IndexWidened(c, b);
    LookupAt(c, ToBits(b), Widen(TableIndex(c, b)), Widen(b));
  }

  lemma LookupAt(c: bv32, b: bv8, index: bv32, wide: bv32)
    requires wide == b as bv32 && index == ((c ^ wide) & 0xFF) as bv8 as bv32
    ensures Xor(Iterate(BitStep, index, 8), c >> 8) == Iterate(BitStep, Xor(c, wide), 8)
  {
    LowByteLookup(c, b);
  }

  lemma LowByteLookup(c: bv32, b: bv8)
    ensures Xor(Iterate(BitStep, ((c ^ (b as bv32)) & 0xFF) as bv8 as bv32, 8), c >> 8)
         == Iterate(BitStep, Xor(c, b as bv32), 8)
  {
    SplitLowByte(c, b);
    BitStepLinear();
    IterateDistributes(BitStep, Xor, (c ^ (b as bv32)) & 0xFF, c & 0xFFFF_FF00, 8);
    EightStepsOfHighPart(c & 0xFFFF_FF00);
  }

  lemma XorZero(x: bv32)
    ensures x ^ 0 == x
  {}

  lemma EightStepsAreOneByte(c: bv32, b: Byte)
    ensures Iterate(BitStep, Xor(c, Widen(b)), 8) == FeedAll(FeedBit, c, BitsOfByte(b))
  {
    BitStepFeedsLowest();
    FeedLowBits(BitStep, FeedBit, LowBit, Shift, Xor, c, Widen(b), 8);
    EightShifts(Widen(b));
    ByteShiftedOut(ToBits(b));
    XorZero(FeedAll(FeedBit, c, BitsOfByte(b)));
  }

  lemma {:induction false} BitsOfConcat(a: ByteString, b: ByteString)
    ensures BitsOf(a + b) == BitsOf(a) + BitsOf(b)
  {
    if a == [] {
      assert a + b == b;
    } else {
      assert (a + b)[1..] == a[1..] + b;
      BitsOfConcat(a[1..], b);
    }
  }

  lemma OneMoreByte(data: ByteString, i: nat)
    requires i < |data|
    ensures FeedAll(FeedBit, ALL_ONES, BitsOf(data[..i + 1]))
         == FeedAll(FeedBit, FeedAll(FeedBit, ALL_ONES, BitsOf(data[..i])), BitsOfByte(data[i]))
  {
    assert data[..i + 1] == data[..i] + [data[i]];
    BitsOfConcat(data[..i], [data[i]]);
    assert BitsOf([data[i]]) == BitsOfByte(data[i]);
    FeedAllConcat(FeedBit, ALL_ONES, BitsOf(data[..i]), BitsOfByte(data[i]));
  }

  /** The first n entries are in place. */
  ghost predicate Filled(entries: seq<bv32>, n: nat) {
    n <= |entries| && forall b: Byte {:trigger TableEntry(b)} {:trigger entries[b]} :: b < n ==> entries[b] == TableEntry(b)
  }

  lemma FillOne(entries: seq<bv32>, i: Byte, c: bv32)
    requires Filled(entries, i) && i < |entries| && c == TableEntry(i)
    ensures Filled(entries[i := c], i + 1)
  {}

  /** The lookup table and the checksum loop; the table is built once, on first use. */
  class Crc32Table {
    const table: array<bv32>
    var initialised: bool

    ghost predicate Valid()
      reads this, table
    {
      && table.Length == 256
      && (initialised ==> Filled(table[..], 256))
    }

    constructor ()
      ensures Valid() && fresh(table)
    {
      table := new bv32[256];
      initialised := false;
    }

    method InitTable()
      requires Valid()
      modifies this, table
      ensures Valid() && initialised
    {
      if initialised {
        return;
      }
      for i := 0 to 256
        invariant Filled(table[..], i)
      {
        var c := Entry(i);
        FillOne(table[..], i, c);
        table[i] := c;
      }
      initialised := true;
    }

    /** The inner loop: one entry, bit by bit. */
    method Entry(i: Byte) returns (c: bv32)
      ensures c == TableEntry(i)
    {
      c := Widen(i);
      for j := 0 to 8
        invariant Iterate(BitStep, c, 8 - j) == TableEntry(i)
      {
        c := BitStep(c);
      }
    }

    /** The table-driven, byte-at-a-time checksum is the bit-at-a-time one, for every input. */
    method Checksum(data: ByteString) returns (r: nat)
      requires Valid()
      modifies this, table
      ensures Valid()
      ensures r == CrcNumber(data)
    {
      InitTable();
      var c := ALL_ONES;
      for i := 0 to |data|
        invariant Valid() && initialised
        invariant c == FeedAll(FeedBit, ALL_ONES, BitsOf(data[..i]))
      {
        LookupIsEightSteps(c, data[i]);
        EightStepsAreOneByte(c, data[i]);
        OneMoreByte(data, i);
        c := Xor(table[TableIndex(c, data[i])], c >> 8);
      }
      assert data[..|data|] == data;
      r := (c ^ ALL_ONES) as nat;
    }
  }

  // ----- Burst detection -----

  lemma FeedBitInjective()
    ensures InjectiveInState(FeedBit)
  {
    forall x, y, b | FeedBit(x, b) == FeedBit(y, b) ensures x == y {}
  }

  /** k shifts do not clear the difference of two registers. */
  predicate Apart(x: bv32, y: bv32, k: nat) {
    Iterate(Shift, x ^ y, k) != 0
  }

  lemma {:induction false} LargerStaysNonzero(x: bv32, y: bv32, k: nat)
    requires x <= y && Iterate(Shift, x, k) != 0
    ensures Iterate(Shift, y, k) != 0
    decreases k
  {
    if k == 0 {
      NonzeroAbove(x, y);
    } else {
      ShiftKeepsOrder(x, y);
      LargerStaysNonzero(Shift(x), Shift(y), k - 1);
    }
  }

  lemma NonzeroAbove(x: bv32, y: bv32)
    requires x <= y && x != 0
    ensures y != 0
  {}

  lemma ShiftKeepsOrder(x: bv32, y: bv32)
    requires x <= y
    ensures Shift(x) <= Shift(y)
  {}

  lemma FeedBitDifference(x: bv32, y: bv32, a: bool, b: bool)
    ensures (x ^ y) >> 1 <= FeedBit(x, a) ^ FeedBit(y, b)
  {}

  lemma FeedBitClosesGap()
    ensures ClosesGap(FeedBit, Apart)
  {
    forall x, y, a, b, k: nat, j: nat | Apart(x, y, k) && k == j + 1
      ensures Apart(FeedBit(x, a), FeedBit(y, b), j)
    {
      FeedBitDifference(x, y, a, b);
      LargerStaysNonzero((x ^ y) >> 1, FeedBit(x, a) ^ FeedBit(y, b), j);
    }
  }

  lemma IterateShiftPoly()
    ensures Iterate(Shift, POLY, 31) != 0
  {
    IterateAdd(Shift, POLY, 8, 23);
    EightShifts(POLY);
    IterateAdd(Shift, POLY >> 8, 8, 15);
    EightShifts(POLY >> 8);
    IterateAdd(Shift, POLY >> 8 >> 8, 8, 7);
    EightShifts(POLY >> 8 >> 8);
    var top := POLY >> 8 >> 8 >> 8;
    assert top >> 1 >> 1 >> 1 >> 1 >> 1 >> 1 >> 1 == 1;
  }

  lemma FirstDifferingBit(x: bv32, a: bool, b: bool)
    requires a != b
    ensures FeedBit(x, a) ^ FeedBit(x, b) == POLY
  {}

  /** From one register, two different bit strings of one length up to 32 lead to different registers. */
  lemma {:induction false} ShortStringsSeparated(x: bv32, u: seq<bool>, v: seq<bool>)
    requires |u| == |v| <= 32 && u != v
    ensures FeedAll(FeedBit, x, u) != FeedAll(FeedBit, x, v)
    decreases |u|
  {
    if u[0] == v[0] {
      ShortStringsSeparated(FeedBit(x, u[0]), u[1..], v[1..]);
    } else {
      var x1, y1 := FeedBit(x, u[0]), FeedBit(x, v[0]);
      FirstDifferingBit(x, u[0], v[0]);
      IterateShiftPoly();
      IterateAdd(Shift, POLY, |u| - 1, 32 - |u|);
      ZeroStaysZero(32 - |u|);
      FeedBitClosesGap();
      FeedAllApart(FeedBit, Apart, x1, y1, u[1..], v[1..], 0);
      EqualRegistersNotApart(FeedAll(FeedBit, x1, u[1..]), FeedAll(FeedBit, y1, v[1..]));
    }
  }

  lemma {:induction false} ZeroStaysZero(k: nat)
    ensures Iterate(Shift, 0, k) == 0
  {
    if k > 0 {
      ZeroStaysZero(k - 1);
    }
  }

  lemma EqualRegistersNotApart(x: bv32, y: bv32)
    requires Apart(x, y, 0)
    ensures x != y
  {}

  /** Two messages of one length whose bits agree outside a window of at most 32 consecutive bits. */
  ghost predicate DifferInBurst(a: ByteString, b: ByteString, at: nat, n: nat) {
    && |a| == |b| && a != b
    && n <= 32 && at + n <= |BitsOf(a)|
    && BitsOf(a)[..at] == BitsOf(b)[..at]
    && BitsOf(a)[at + n..] == BitsOf(b)[at + n..]
  }

  lemma BitsOfParts(data: ByteString, at: nat)
    requires at <= |data|
    ensures BitsOf(data)[..8 * at] == BitsOf(data[..at])
    ensures BitsOf(data)[8 * at..] == BitsOf(data[at..])
  {
    assert data == data[..at] + data[at..];
    BitsOfConcat(data[..at], data[at..]);
  }

  /** In particular messages that agree outside a window of at most four bytes. */
  lemma ByteWindowIsBurst(a: ByteString, b: ByteString, at: nat, n: nat)
    requires |a| == |b| && a != b && n <= 4 && at + n <= |a|
    requires a[..at] == b[..at] && a[at + n..] == b[at + n..]
    ensures DifferInBurst(a, b, 8 * at, 8 * n)
  {
    SameFront(a, b, at);
    SameBack(a, b, at + n);
    assert 8 * at + 8 * n == 8 * (at + n);
  }

  lemma SameFront(a: ByteString, b: ByteString, at: nat)
    requires at <= |a| == |b| && a[..at] == b[..at]
    ensures BitsOf(a)[..8 * at] == BitsOf(b)[..8 * at]
  {
    BitsOfParts(a, at);
    BitsOfParts(b, at);
  }

  lemma SameBack(a: ByteString, b: ByteString, at: nat)
    requires at <= |a| == |b| && a[at..] == b[at..]
    ensures BitsOf(a)[8 * at..] == BitsOf(b)[8 * at..]
  {
    BitsOfParts(a, at);
    BitsOfParts(b, at);
  }

  lemma XorOnesCancels(x: bv32, y: bv32)
    requires x ^ ALL_ONES == y ^ ALL_ONES
    ensures x == y
  {}

  lemma {:induction false} BitsDetermineBytes(a: ByteString, b: ByteString)
    requires |a| == |b| && BitsOf(a) == BitsOf(b)
    ensures a == b
  {
    if a != [] {
      assert BitsOf(a)[..8] == BitsOfByte(a[0]) && BitsOf(b)[..8] == BitsOfByte(b[0]);
      assert BitsOf(a)[8..] == BitsOf(a[1..]) && BitsOf(b)[8..] == BitsOf(b[1..]);
      ByteFromBits(a[0], b[0]);
      BitsDetermineBytes(a[1..], b[1..]);
    }
  }

  lemma ByteFromBits(x: Byte, y: Byte)
    requires BitsOfByte(x) == BitsOfByte(y)
    ensures x == y
  {
    LowAndShiftDetermine();
    EightShifts(Widen(x));
    EightShifts(Widen(y));
    ByteShiftedOut(ToBits(x));
    ByteShiftedOut(ToBits(y));
    LowBitsDetermine(LowBit, Shift, Widen(x), Widen(y), 8);
    WidenInjective(ToBits(x), ToBits(y));
    ToBitsInjective(x);
    ToBitsInjective(y);
  }

  lemma LowAndShiftDetermine()
    ensures DeterminedByParts(LowBit, Shift)
  {
    forall x, y | LowBit(x) == LowBit(y) && Shift(x) == Shift(y) ensures x == y {}
  }

  lemma WidenInjective(x: bv8, y: bv8)
    requires x as bv32 == y as bv32
    ensures x == y
  {}

  /** A burst error of up to 32 bits, at any position in a message of any length, changes the checksum. */
  lemma BurstDetected(a: ByteString, b: ByteString, at: nat, n: nat)
    requires DifferInBurst(a, b, at, n)
    ensures CrcNumber(a) != CrcNumber(b)
  {
    if BitsOf(a) == BitsOf(b) {
      BitsDetermineBytes(a, b);
    }
    RegistersDiffer(BitsOf(a), BitsOf(b), at, n);
    if Crc(a) == Crc(b) {
      XorOnesCancels(FeedAll(FeedBit, ALL_ONES, BitsOf(a)), FeedAll(FeedBit, ALL_ONES, BitsOf(b)));
    }
    if CrcNumber(a) == CrcNumber(b) {
      NumberDeterminesRegister(Crc(a), Crc(b));
    }
  }

  lemma RegistersDiffer(u: seq<bool>, v: seq<bool>, at: nat, n: nat)
    requires |u| == |v| && u != v && at + n <= |u| && n <= 32
    requires u[..at] == v[..at] && u[at + n..] == v[at + n..]
    ensures FeedAll(FeedBit, ALL_ONES, u) != FeedAll(FeedBit, ALL_ONES, v)
  {
    var x := FeedAll(FeedBit, ALL_ONES, u[..at]);
    var y, z := FeedAll(FeedBit, x, u[at..at + n]), FeedAll(FeedBit, x, v[at..at + n]);
    assert u == u[..at] + u[at..at + n] + u[at + n..];
    assert v == v[..at] + v[at..at + n] + v[at + n..];
    ShortStringsSeparated(x, u[at..at + n], v[at..at + n]);
    FedInThreeParts(u, at, n);
    FedInThreeParts(v, at, n);
    FeedBitInjective();
    FeedAllInjective(FeedBit, y, z, u[at + n..]);
  }

  lemma FedInThreeParts(bits: seq<bool>, at: nat, n: nat)
    requires at + n <= |bits|
    ensures FeedAll(FeedBit, ALL_ONES, bits)
         == FeedAll(FeedBit, FeedAll(FeedBit, FeedAll(FeedBit, ALL_ONES, bits[..at]), bits[at..at + n]), bits[at + n..])
  {
    assert bits == bits[..at] + bits[at..];
    assert bits[at..] == bits[at..at + n] + bits[at + n..];
    FeedAllConcat(FeedBit, ALL_ONES, bits[..at], bits[at..]);
    FeedAllConcat(FeedBit, FeedAll(FeedBit, ALL_ONES, bits[..at]), bits[at..at + n], bits[at + n..]);
  }

  // ----- The checksum as a number -----

  function CrcNumber(data: ByteString): (n: nat)
    ensures n < 0x1_0000_0000
  {
    Crc(data) as nat
  }

  lemma NumberDeterminesRegister(x: bv32, y: bv32)
    requires x as nat == y as nat
    ensures x == y
  {
    assert (x as nat) as bv32 == x && (y as nat) as bv32 == y;
  }

  // ----- The check value -----

  function Eight(c: bv32): bv32 {
    BitStep(BitStep(BitStep(BitStep(BitStep(BitStep(BitStep(BitStep(c))))))))
  }

  lemma EightIsIterate(c: bv32)
    ensures Iterate(BitStep, c, 8) == Eight(c)
  {
    IterateAdd(BitStep, c, 4, 4);
    FourIsIterate(c);
    FourIsIterate(BitStep(BitStep(BitStep(BitStep(c)))));
  }

  lemma FourIsIterate(c: bv32)
    ensures Iterate(BitStep, c, 4) == BitStep(BitStep(BitStep(BitStep(c))))
  {
    var x := BitStep(c);
    assert Iterate(BitStep, BitStep(BitStep(BitStep(x))), 0) == BitStep(BitStep(BitStep(x)));
    assert Iterate(BitStep, BitStep(BitStep(x)), 1) == BitStep(BitStep(BitStep(x)));
    assert Iterate(BitStep, BitStep(x), 2) == BitStep(BitStep(BitStep(x)));
    assert Iterate(BitStep, x, 3) == BitStep(BitStep(BitStep(x)));
  }

  /** The register after a message, before the final complement. */
  function Fed(data: ByteString): bv32 {
    FeedAll(FeedBit, ALL_ONES, BitsOf(data))
  }

  lemma FedOneMore(data: ByteString, b: Byte)
    ensures Fed(data + [b]) == Eight(Xor(Fed(data), Widen(b)))
  {
    var c := Fed(data);
    assert (data + [b])[..|data|] == data && (data + [b])[..|data| + 1] == data + [b];
    OneMoreByte(data + [b], |data|);
    EightStepsAreOneByte(c, b);
    EightIsIterate(Xor(c, Widen(b)));
  }

  lemma DigitsWidened()
    ensures Widen(0x31) == 0x31
    ensures Widen(0x32) == 0x32
    ensures Widen(0x33) == 0x33
    ensures Widen(0x34) == 0x34
    ensures Widen(0x35) == 0x35
    ensures Widen(0x36) == 0x36
    ensures Widen(0x37) == 0x37
    ensures Widen(0x38) == 0x38
    ensures Widen(0x39) == 0x39
  {}

  lemma Digit1() ensures Eight(0xFFFF_FFFF ^ 0x31) == 0x7C23_1048 {}

  lemma Digit2() ensures Eight(0x7C23_1048 ^ 0x32) == 0xB0AC_BB32 {}

  lemma Digit3() ensures Eight(0xB0AC_BB32 ^ 0x33) == 0x77B7_9C2D {}

  lemma Digit4() ensures Eight(0x77B7_9C2D ^ 0x34) == 0x641C_1F5C {}

  lemma Digit5() ensures Eight(0x641C_1F5C ^ 0x35) == 0x340A_C5E3 {}

  lemma Digit6() ensures Eight(0x340A_C5E3 ^ 0x36) == 0xF68D_2C9E {}

  lemma Digit7() ensures Eight(0xF68D_2C9E ^ 0x37) == 0xAFFC_9660 {}

  lemma Digit8() ensures Eight(0xAFFC_9660 ^ 0x38) == 0x651F_2550 {}

  lemma Digit9() ensures Eight(0x651F_2550 ^ 0x39) == 0x340B_C6D9 {}

  lemma FedNext(data: ByteString, k: nat, wide: bv32, c: bv32, next: bv32)
    requires k < |data| && Fed(data[..k]) == c && Widen(data[k]) == wide && Eight(c ^ wide) == next
    ensures Fed(data[..k + 1]) == next
  {
    FedOneMore(data[..k], data[k]);
    assert data[..k + 1] == data[..k] + [data[k]];
  }

  /** The digits from 1 to 9, in ASCII. */
  ghost predicate NineDigits(data: ByteString) {
    |data| == 9 && forall k :: 0 <= k < 9 ==> data[k] == 0x31 + k
  }

  lemma FirstThree(data: ByteString)
    requires NineDigits(data)
    ensures Fed(data[..3]) == 0x77B7_9C2D
  {
    DigitsWidened();
    assert data[..0] == [] && Fed(data[..0]) == 0xFFFF_FFFF;
    Digit1();
    FedNext(data, 0, 0x31, 0xFFFF_FFFF, 0x7C23_1048);
    Digit2();
    FedNext(data, 1, 0x32, 0x7C23_1048, 0xB0AC_BB32);
    Digit3();
    FedNext(data, 2, 0x33, 0xB0AC_BB32, 0x77B7_9C2D);
  }

  lemma NextThree(data: ByteString)
    requires NineDigits(data) && Fed(data[..3]) == 0x77B7_9C2D
    ensures Fed(data[..6]) == 0xF68D_2C9E
  {
    DigitsWidened();
    Digit4();
    FedNext(data, 3, 0x34, 0x77B7_9C2D, 0x641C_1F5C);
    Digit5();
    FedNext(data, 4, 0x35, 0x641C_1F5C, 0x340A_C5E3);
    Digit6();
    FedNext(data, 5, 0x36, 0x340A_C5E3, 0xF68D_2C9E);
  }

  lemma LastThree(data: ByteString)
    requires NineDigits(data) && Fed(data[..6]) == 0xF68D_2C9E
    ensures Fed(data[..9]) == 0x340B_C6D9
  {
    DigitsWidened();
    Digit7();
    FedNext(data, 6, 0x37, 0xF68D_2C9E, 0xAFFC_9660);
    Digit8();
    FedNext(data, 7, 0x38, 0xAFFC_9660, 0x651F_2550);
    Digit9();
    FedNext(data, 8, 0x39, 0x651F_2550, 0x340B_C6D9);
  }

  lemma Complement()
    ensures (0x340B_C6D9 as bv32 ^ ALL_ONES) as nat == 0xCBF4_3926
  {
    assert 0x340B_C6D9 as bv32 ^ ALL_ONES == 0xCBF4_3926;
  }

  /** The check value published for this checksum: that of the digits from 1 to 9 is CBF43926. */
  lemma CheckValue(data: ByteString)
    requires NineDigits(data)
    ensures CrcNumber(data) == 0xCBF4_3926
  {
    FirstThree(data);
    NextThree(data);
    LastThree(data);
    assert data[..9] == data;
    Complement();
  }
}
