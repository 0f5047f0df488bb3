/**
 The table-driven CRC-32 of section 8 of RFC 1952.

 The reference definition is the bit-serial shift register with the reflected polynomial: bytes
 are sent low bit first and the register shifts right. The code's byte loop over a generated
 table is proved to refine it.
 */
module Crc32 {
  import opened Telemetry
  import opened ShiftRegister

  const POLY: bv32 := 0xEDB8_8320

  function Xor(x: bv32, y: bv32): bv32 { x ^ y }
  function Down(w: bv32): bv32 { w >> 1 }
  function Up(w: bv32): bv32 { w << 1 }
  predicate Odd(w: bv32) { w & 1 == 1 }
  function Load(bit: bool): bv32 { if bit then 1 else 0 }
  function Place(b: Byte): bv32 { b as bv32 }

  const REGISTER: Register<bv32> := Register(32, 0, POLY, Xor, Down, Up, Odd, Load, Place)

  /** The checksum of `bytes`, by the bit-serial definition. */
  function Checksum(bytes: seq<Byte>): bv32 {
    !Run(REGISTER, 0xFFFF_FFFF, Bits(REGISTER, bytes))
  }

  // ----- the register obeys the laws -----
  // Facts about bare words come first; each is then restated for the register.

  lemma BareXor(x: bv32, y: bv32, z: bv32)
    ensures x ^ y == y ^ x
    ensures (x ^ y) ^ z == x ^ (y ^ z)
    ensures x ^ 0 == x && 0 ^ x == x && x ^ x == 0
  {}

  lemma BareDown(x: bv32, y: bv32)
    ensures (x ^ y) >> 1 == (x >> 1) ^ (y >> 1)
    ensures ((x ^ y) & 1 == 1) == ((x & 1 == 1) != (y & 1 == 1))
  {}

  lemma BareLoss(x: bv32)
    ensures (x >> 1) ^ 0xEDB8_8320 != 0
    ensures x & 1 != 1 && x >> 1 == 0 ==> x == 0
  {}

  lemma BareUp(x: bv32)
    ensures ((x >> 1) << 1) ^ (if x & 1 == 1 then 1 else 0) == x
    ensures (x << 1) & 1 != 1
    ensures x >> 31 == 0 ==> (x << 1) >> 1 == x
  {}

  lemma BareFourShifts(w: bv32)
    ensures (((w >> 1) >> 1) >> 1) >> 1 == w >> 4
  {}

  lemma DownFour(w: bv32)
    ensures Down(Down(Down(Down(w)))) == w >> 4
  {
    BareFourShifts(w);
  }

  lemma DownN4(w: bv32, n: nat)
    ensures DownN(REGISTER, w, n + 4) == DownN(REGISTER, w >> 4, n)
  {
    var w2 := Down(Down(w));
    assert DownN(REGISTER, w, n + 4) == DownN(REGISTER, w2, n + 2) == DownN(REGISTER, Down(Down(w2)), n);
    DownFour(w);
  }

  lemma BareShiftSums(w: bv32)
    ensures (w >> 4) >> 4 == w >> 8
    ensures (w >> 8) >> 8 == w >> 16
    ensures (((((w >> 16) >> 8) >> 4) >> 1) >> 1) >> 1 == w >> 31
  {}

  lemma DownN8(w: bv32, n: nat)
    ensures DownN(REGISTER, w, n + 8) == DownN(REGISTER, w >> 8, n)
  {
    DownN4(w, n + 4);
    DownN4(w >> 4, n);
    BareShiftSums(w);
  }

  lemma DownN16(w: bv32, n: nat)
    ensures DownN(REGISTER, w, n + 16) == DownN(REGISTER, w >> 16, n)
  {
    DownN8(w, n + 8);
    DownN8(w >> 8, n);
    BareShiftSums(w);
  }

  lemma DownN3(w: bv32)
    ensures DownN(REGISTER, w, 3) == Down(Down(Down(w)))
  {
    var w1 := Down(w);
    var w2 := Down(w1);
    assert DownN(REGISTER, w, 3) == DownN(REGISTER, w1, 2) == DownN(REGISTER, w2, 1);
    assert DownN(REGISTER, w2, 1) == DownN(REGISTER, Down(w2), 0);
  }

  lemma DownN31(w: bv32)
    ensures DownN(REGISTER, w, 31) == w >> 31
  {
    var v := ((w >> 16) >> 8) >> 4;
    DownN16(w, 15);
    DownN8(w >> 16, 7);
    DownN4((w >> 16) >> 8, 3);
    DownN3(v);
    BareShiftSums(w);
  }

  lemma XorHolds(x: bv32, y: bv32, z: bv32)
    ensures XorLaw(REGISTER, x, y, z)
  {
    XorAssociative(x, y, z);
    BareXor(x, y, z);
  }

  lemma XorAssociative(x: bv32, y: bv32, z: bv32)
    ensures Xor(Xor(x, y), z) == Xor(x, Xor(y, z))
  {
    BareXor(x, y, z);
  }

  lemma DownHolds(x: bv32, y: bv32)
    ensures DownLaw(REGISTER, x, y)
  {
    BareDown(x, y);
  }

  lemma LossHolds(x: bv32)
    ensures LossLaw(REGISTER, x)
  {
    BareLoss(x);
  }

  lemma UpHolds(x: bv32)
    ensures UpLaw(REGISTER, x)
  {
    BareUp(x);
    DownN31(x);
  }

  lemma BarePlace(b: Byte)
    ensures (b as bv32) >> 8 == 0
    ensures (b as bv32) as Byte == b
  {}

  lemma PlaceHolds(a: Byte, b: Byte)
    ensures PlaceLaw(REGISTER, a, b)
  {
    DownN8(Place(a), 0);
    BarePlace(a);
    BarePlace(b);
  }

  lemma RegisterLaws()
    ensures Laws(REGISTER)
  {
    forall x, y, z ensures XorLaw(REGISTER, x, y, z) { XorHolds(x, y, z); }
    forall x, y ensures DownLaw(REGISTER, x, y) { DownHolds(x, y); }
    forall x ensures LossLaw(REGISTER, x) { LossHolds(x); }
    forall x ensures UpLaw(REGISTER, x) { UpHolds(x); }
    forall a, b ensures PlaceLaw(REGISTER, a, b) { PlaceHolds(a, b); }
  }

  /** Every burst of at most 32 consecutive bits changes the checksum. */
  lemma ChecksumDetectsBurst(u: seq<Byte>, v: seq<Byte>, start: nat)
    requires u != v && |u| == |v|
    requires DifferOnlyWithin(Bits(REGISTER, u), Bits(REGISTER, v), start, 32)
    ensures Checksum(u) != Checksum(v)
  {
    RegisterLaws();
    DetectsBurst(REGISTER, 0xFFFF_FFFF, u, v, start);
    ComplementInjective(Run(REGISTER, 0xFFFF_FFFF, Bits(REGISTER, u)), Run(REGISTER, 0xFFFF_FFFF, Bits(REGISTER, v)));
  }

  lemma ComplementInjective(x: bv32, y: bv32)
    requires x != y
    ensures !x != !y
  {
    assert !!x == x && !!y == y;
  }

  // ----- the table refines the register -----

  /** What the generated table holds at index `b`: the register eight steps after `b`. */
  function TableEntry(b: Byte): bv32 {
    StepN(REGISTER, Place(b), 8)
  }

  lemma BareLowZeros(w: bv32)
    requires w & 0xF == 0
    ensures w & 1 != 1 && (w >> 1) & 1 != 1 && ((w >> 1) >> 1) & 1 != 1 && (((w >> 1) >> 1) >> 1) & 1 != 1
  {}

  lemma LowZeros4(w: bv32, n: nat)
    requires w & 0xF == 0 && LowZeros(REGISTER, w >> 4, n)
    ensures LowZeros(REGISTER, w, n + 4)
  {
    BareLowZeros(w);
    DownFour(w);
    var w1 := Down(w);
    var w2 := Down(w1);
    var w3 := Down(w2);
    assert LowZeros(REGISTER, Down(w3), n);
    assert LowZeros(REGISTER, w2, n + 2);
  }

  lemma LowZeros8(w: bv32)
    requires w & 0xF == 0 && (w >> 4) & 0xF == 0
    ensures LowZeros(REGISTER, w, 8)
  {
    LowZeros4(w >> 4, 0);
    assert LowZeros(REGISTER, w >> 4, 0 + 4);
    LowZeros4(w, 4);
  }

  lemma BareHigh(x: bv32)
    ensures (x & 0xFFFF_FF00) & 0xF == 0 && ((x & 0xFFFF_FF00) >> 4) & 0xF == 0
  {}

  lemma HighLowZeros(x: bv32)
    ensures LowZeros(REGISTER, x & 0xFFFF_FF00, 8)
  {
    BareHigh(x);
    LowZeros8(x & 0xFFFF_FF00);
  }

  lemma StepsOfHighAndLow(hi: bv32, lo: bv32)
    requires LowZeros(REGISTER, hi, 8)
    ensures StepN(REGISTER, Xor(hi, lo), 8) == Xor(hi >> 8, StepN(REGISTER, lo, 8))
  {
    RegisterLaws();
    StepsOfSplit(REGISTER, hi, lo, 8);
    DownN8(hi, 0);
  }

  lemma BareSplit(x: bv32)
    ensures x == (x & 0xFFFF_FF00) ^ (x & 0xFF)
    ensures (x & 0xFFFF_FF00) >> 8 == x >> 8
    ensures ((x & 0xFF) as Byte) as bv32 == x & 0xFF
  {}

  lemma SplitWord(x: bv32, low: Byte)
    requires low == (x & 0xFF) as Byte
    ensures Xor(x & 0xFFFF_FF00, Place(low)) == x && (x & 0xFFFF_FF00) >> 8 == x >> 8
  {
    BareSplit(x);
  }

  /** Eight steps are a shift by one byte and one table entry. */
  lemma EightSteps(x: bv32, low: Byte)
    requires low == (x & 0xFF) as Byte
    ensures StepN(REGISTER, x, 8) == Xor(x >> 8, TableEntry(low))
  {
    hide Xor, Place, StepN, LowZeros;
    SplitWord(x, low);
    HighLowZeros(x);
    StepsOfHighAndLow(x & 0xFFFF_FF00, Place(low));
  }

  lemma BareByteLoad(c: bv32, b: Byte)
    ensures (c ^ b as bv32) >> 8 == c >> 8
  {}

  lemma ByteSteps(c: bv32, b: Byte, x: bv32, low: Byte)
    requires x == c ^ b as bv32 && low == (x & 0xFF) as Byte
    ensures Xor(c >> 8, TableEntry(low)) == StepN(REGISTER, x, 8)
  {
    hide Xor, TableEntry, StepN;
    EightSteps(x, low);
    BareByteLoad(c, b);
  }

  function LowByte(x: bv32): Byte { (x & 0xFF) as Byte }

  function TableEntries(): Byte -> bv32 { b => TableEntry(b) }

  /** `table` is the table that is to be generated. */
  predicate IsLookup(table: seq<bv32>) {
    |table| == 256 && forall n :: 0 <= n < 256 ==> table[n] == TableEntries()(ToByte(n))
  }

  /** The code's update of the register for one byte. */
  function Advance(table: seq<bv32>, crc: bv32, b: Byte): bv32
    requires |table| == 256
  {
    (crc >> 8) ^ table[IntOf(LowByte(crc ^ b as bv32))]
  }

  lemma LookupLow(table: seq<bv32>, low: Byte)
    requires IsLookup(table)
    ensures table[IntOf(low)] == TableEntry(low)
  {
    ToByteOfByte(low);
  }

  lemma AdvanceIs(table: seq<bv32>, crc: bv32, b: Byte, low: Byte)
    requires |table| == 256 && low == LowByte(crc ^ b as bv32)
    ensures Advance(table, crc, b) == Xor(crc >> 8, table[IntOf(low)])
  {
    hide IntOf;
  }

  lemma AdvanceIsEightSteps(table: seq<bv32>, crc: bv32, b: Byte, x: bv32, low: Byte)
    requires IsLookup(table) && x == crc ^ b as bv32 && low == LowByte(x)
    ensures Advance(table, crc, b) == StepN(REGISTER, x, 8)
  {
    hide Xor, TableEntry, StepN, Advance, IntOf;
    LookupLow(table, low);
    AdvanceIs(table, crc, b, low);
    ByteSteps(crc, b, x, low);
  }

  function Advancing(table: seq<bv32>): (bv32, Byte) -> bv32
    requires |table| == 256
  {
    (crc, b) => Advance(table, crc, b)
  }

  lemma AdvancingHolds(table: seq<bv32>, crc: bv32, b: Byte)
    requires IsLookup(table)
    ensures ShiftRegister.EightSteps(REGISTER, Advancing(table), crc, b)
  {
    var x := crc ^ b as bv32;
    AdvanceIsEightSteps(table, crc, b, x, LowByte(x));
  }

  /** With the generated table, the byte loop is the bit-serial register. */
  lemma ByteLoopIsRun(table: seq<bv32>, message: seq<Byte>)
    requires IsLookup(table)
    ensures Fold(Advancing(table), 0xFFFF_FFFF, message) == Run(REGISTER, 0xFFFF_FFFF, Bits(REGISTER, message))
  {
    RegisterLaws();
    forall c, b ensures ShiftRegister.EightSteps(REGISTER, Advancing(table), c, b) { AdvancingHolds(table, c, b); }
    FoldIsRun(REGISTER, Advancing(table), 0xFFFF_FFFF, message);
  }

  lemma BareMaskOfOne(c: bv32, mask: bv32)
    requires mask == 0 - (c & 1) && c & 1 == 1
    ensures 0xEDB8_8320 & mask == 0xEDB8_8320
  {}

  lemma BareMaskOfZero(c: bv32, mask: bv32)
    requires mask == 0 - (c & 1) && c & 1 != 1
    ensures (c >> 1) ^ (0xEDB8_8320 & mask) == c >> 1
  {}

  lemma MaskedDown(c: bv32, mask: bv32)
    requires mask == 0 - (c & 1)
    ensures Odd(c) ==> (c >> 1) ^ (POLY & mask) == Xor(Down(c), POLY)
    ensures !Odd(c) ==> (c >> 1) ^ (POLY & mask) == Down(c)
  {
    if Odd(c) {
      BareMaskOfOne(c, mask);
    } else {
      BareMaskOfZero(c, mask);
    }
  }

  lemma StepIs(c: bv32)
    ensures Odd(c) ==> Step(REGISTER, c) == Xor(Down(c), POLY)
    ensures !Odd(c) ==> Step(REGISTER, c) == Down(c)
  {
    hide Odd, Xor, Down;
  }

  lemma MaskedStep(c: bv32, mask: bv32)
    requires mask == 0 - (c & 1)
    ensures (c >> 1) ^ (POLY & mask) == Step(REGISTER, c)
  {
    hide Odd, Xor, Down, Step;
    MaskedDown(c, mask);
    StepIs(c);
  }

  /** One turn of the code's inner loop. */
  method InnerTurn(c: bv32) returns (next: bv32)
    ensures next == Step(REGISTER, c)
  {
    var mask := 0 - (c & 1);
    MaskedStep(c, mask);
    next := (c >> 1) ^ (POLY & mask);
  }

  /** The inner loop of `gen_crc32_lookup`. */
  method EightTurns(byte: Byte) returns (crc: bv32)
    ensures crc == TableEntries()(byte)
  {
    crc := byte as bv32;
    var j := 7;
    while j >= 0
      invariant -1 <= j <= 7
      invariant StepN(REGISTER, crc, j + 1) == TableEntry(byte)
    {
      crc := InnerTurn(crc);
      j := j - 1;
    }
  }

  /** `gen_crc32_lookup`: fills the table in place. */
  method GenLookup(table: array<bv32>)
    requires table.Length == 256
    modifies table
    ensures IsLookup(table[..])
  {
    ghost var entries := TableEntries();
    var byte := 0;
    while byte <= 255
      invariant 0 <= byte <= 256
      invariant forall n :: 0 <= n < byte ==> table[n] == entries(ToByte(n))
    {
      var crc := EightTurns(ToByte(byte));
      table[byte] := crc;
      byte := byte + 1;
    }
  }

  /** The body of the loop of `checksum_crc32`. */
  method UpdateByte(table: array<bv32>, crc: bv32, byte: Byte) returns (next: bv32)
    requires table.Length == 256
    ensures next == Advance(table[..], crc, byte)
  {
    next := (crc >> 8) ^ table[IntOf(LowByte(crc ^ byte as bv32))];
  }

  /** `checksum_crc32`: the byte loop over the table computes the bit-serial checksum. */
  method Compute(table: array<bv32>, buffer: seq<Byte>) returns (r: bv32)
    requires IsLookup(table[..])
    ensures r == Checksum(buffer)
  {
    ghost var next := Advancing(table[..]);
    var crc: bv32 := 0xFFFF_FFFF;
    var i := 0;
    while i < |buffer|
      invariant 0 <= i <= |buffer|
      invariant Fold(next, crc, buffer[i..]) == Fold(next, 0xFFFF_FFFF, buffer)
    {
      assert buffer[i..][1..] == buffer[i + 1..];
      assert Fold(next, crc, buffer[i..]) == Fold(next, next(crc, buffer[i]), buffer[i + 1..]);
      crc := UpdateByte(table, crc, buffer[i]);
      i := i + 1;
    }
    ByteLoopIsRun(table[..], buffer);
    r := !crc;
  }
}
