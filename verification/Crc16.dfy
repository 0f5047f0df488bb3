/**
 The CRC-16 of the serial frame's header: polynomial 0x1021, high bit first, starting from all ones
 and complemented at the end.
 */
module Crc16 {
  import opened Telemetry
  import opened ShiftRegister

  const POLY: bv16 := 0x1021

  function Xor(x: bv16, y: bv16): bv16 { x ^ y }
  function Down(w: bv16): bv16 { w << 1 }
  function Up(w: bv16): bv16 { w >> 1 }
  predicate Odd(w: bv16) { w & 0x8000 == 0x8000 }
  function Load(bit: bool): bv16 { if bit then 0x8000 else 0 }
  function Place(b: Byte): bv16 { (b as bv16) << 8 }

  const REGISTER: Register<bv16> := Register(16, 0, POLY, Xor, Down, Up, Odd, Load, Place)

  /** The checksum of `bytes`, by the bit-serial definition. */
  function Checksum(bytes: seq<Byte>): bv16 {
    !Run(REGISTER, 0xFFFF, Bits(REGISTER, bytes))
  }

  // ----- the register obeys the laws -----
  // Facts about bare words come first; each is then restated for the register.

  lemma BareXor(x: bv16, y: bv16, z: bv16)
    ensures x ^ y == y ^ x
    ensures (x ^ y) ^ z == x ^ (y ^ z)
    ensures x ^ 0 == x && 0 ^ x == x && x ^ x == 0
  {}

  lemma XorAssociative(x: bv16, y: bv16, z: bv16)
    ensures Xor(Xor(x, y), z) == Xor(x, Xor(y, z))
  {
    BareXor(x, y, z);
  }

  lemma XorHolds(x: bv16, y: bv16, z: bv16)
    ensures XorLaw(REGISTER, x, y, z)
  {
    XorAssociative(x, y, z);
    BareXor(x, y, z);
  }

  lemma BareDown(x: bv16, y: bv16)
    ensures (x ^ y) << 1 == (x << 1) ^ (y << 1)
    ensures ((x ^ y) & 0x8000 == 0x8000) == ((x & 0x8000 == 0x8000) != (y & 0x8000 == 0x8000))
  {}

  lemma OddOfXor(x: bv16, y: bv16)
    ensures Odd(Xor(x, y)) == (Odd(x) != Odd(y))
  {
    BareDown(x, y);
  }

  lemma DownOfXor(x: bv16, y: bv16)
    ensures Down(Xor(x, y)) == Xor(Down(x), Down(y))
  {
    BareDown(x, y);
  }

  lemma RegisterDownOfXor(x: bv16, y: bv16)
    ensures REGISTER.down(REGISTER.xor(x, y)) == REGISTER.xor(REGISTER.down(x), REGISTER.down(y))
  {
    DownOfXor(x, y);
  }

  lemma RegisterOddOfXor(x: bv16, y: bv16)
    ensures REGISTER.odd(REGISTER.xor(x, y)) == (REGISTER.odd(x) != REGISTER.odd(y))
  {
    OddOfXor(x, y);
  }

  lemma DownHolds(x: bv16, y: bv16)
    ensures DownLaw(REGISTER, x, y)
  {
    RegisterDownOfXor(x, y);
    RegisterOddOfXor(x, y);
  }

  lemma BareLoss(x: bv16)
    ensures (x << 1) ^ 0x1021 != 0
    ensures x & 0x8000 != 0x8000 && x << 1 == 0 ==> x == 0
  {}

  lemma LossHolds(x: bv16)
    ensures LossLaw(REGISTER, x)
  {
    BareLoss(x);
  }

  lemma BareUp(x: bv16)
    ensures (x >> 1) & 0x8000 != 0x8000
    ensures x << 15 == 0 ==> (x >> 1) << 1 == x
  {}

  lemma BareShiftSums(w: bv16)
    ensures (((w << 1) << 1) << 1) << 1 == w << 4
    ensures (w << 4) << 4 == w << 8
    ensures ((((w << 8) << 4) << 1) << 1) << 1 == w << 15
  {}

  lemma DownFour(w: bv16)
    ensures Down(Down(Down(Down(w)))) == w << 4
  {
    BareShiftSums(w);
  }

  lemma DownN4(w: bv16, n: nat)
    ensures DownN(REGISTER, w, n + 4) == DownN(REGISTER, w << 4, n)
  {
    var w2 := Down(Down(w));
    assert DownN(REGISTER, w, n + 4) == DownN(REGISTER, w2, n + 2) == DownN(REGISTER, Down(Down(w2)), n);
    DownFour(w);
  }

  lemma DownN8(w: bv16, n: nat)
    ensures DownN(REGISTER, w, n + 8) == DownN(REGISTER, w << 8, n)
  {
    DownN4(w, n + 4);
    DownN4(w << 4, n);
    BareShiftSums(w);
  }

  lemma DownN3(w: bv16)
    ensures DownN(REGISTER, w, 3) == Down(Down(Down(w)))
  {
    var w1 := Down(w);
    var w2 := Down(w1);
    assert DownN(REGISTER, w, 3) == DownN(REGISTER, w1, 2) == DownN(REGISTER, w2, 1);
    assert DownN(REGISTER, w2, 1) == DownN(REGISTER, Down(w2), 0);
  }

  lemma DownN15(w: bv16)
    ensures DownN(REGISTER, w, 15) == w << 15
  {
    DownN8(w, 7);
    DownN4(w << 8, 3);
    DownN3((w << 8) << 4);
    BareShiftSums(w);
  }

  lemma BareUpOfDown(x: bv16)
    ensures x & 0x8000 == 0x8000 ==> ((x << 1) >> 1) ^ 0x8000 == x
    ensures x & 0x8000 != 0x8000 ==> ((x << 1) >> 1) ^ 0 == x
  {}

  lemma UpOfDown(x: bv16)
    ensures Xor(Up(Down(x)), Load(Odd(x))) == x
    ensures !Odd(Up(x))
  {
    BareUpOfDown(x);
    BareUp(x);
    if Odd(x) {
      assert Load(Odd(x)) == 0x8000;
    } else {
      assert Load(Odd(x)) == 0;
    }
  }

  lemma DownOfUp(x: bv16)
    requires x << 15 == 0
    ensures Down(Up(x)) == x
  {
    BareUp(x);
  }

  lemma UpHolds(x: bv16)
    ensures UpLaw(REGISTER, x)
  {
    UpOfDown(x);
    DownN15(x);
    if x << 15 == 0 { DownOfUp(x); }
  }

  lemma BarePlace(b: Byte)
    ensures ((b as bv16) << 8) << 8 == 0
    ensures (((b as bv16) << 8) >> 8) as Byte == b
  {}

  lemma PlaceHolds(a: Byte, b: Byte)
    ensures PlaceLaw(REGISTER, a, b)
  {
    DownN8(Place(a), 0);
    BarePlace(a);
    BarePlace(b);
  }

  lemma RegisterLaws()
    ensures Laws(REGISTER)
  {
    forall x, y, z ensures XorLaw(REGISTER, x, y, z) { XorHolds(x, y, z); }
    forall x, y ensures DownLaw(REGISTER, x, y) { DownHolds(x, y); }
    forall x ensures LossLaw(REGISTER, x) { LossHolds(x); }
    forall x ensures UpLaw(REGISTER, x) { UpHolds(x); }
    forall a, b ensures PlaceLaw(REGISTER, a, b) { PlaceHolds(a, b); }
  }

  /** Every burst of at most 16 consecutive bits changes the checksum. */
  lemma ChecksumDetectsBurst(u: seq<Byte>, v: seq<Byte>, start: nat)
    requires u != v && |u| == |v|
    requires DifferOnlyWithin(Bits(REGISTER, u), Bits(REGISTER, v), start, 16)
    ensures Checksum(u) != Checksum(v)
  {
    RegisterLaws();
    DetectsBurst(REGISTER, 0xFFFF, u, v, start);
    ComplementInjective(Run(REGISTER, 0xFFFF, Bits(REGISTER, u)), Run(REGISTER, 0xFFFF, Bits(REGISTER, v)));
  }

  lemma ComplementInjective(x: bv16, y: bv16)
    requires x != y
    ensures !x != !y
  {
    assert !!x == x && !!y == y;
  }

  // ----- the code's loops -----

  function Advance(crc: bv16, b: Byte): bv16 {
    StepN(REGISTER, Xor(crc, Place(b)), 8)
  }

  function Advancing(): (bv16, Byte) -> bv16 {
    (crc, b) => Advance(crc, b)
  }

  lemma AdvancingHolds(crc: bv16, b: Byte)
    ensures EightSteps(REGISTER, Advancing(), crc, b)
  {}

  lemma ByteLoopIsRun(message: seq<Byte>)
    ensures Fold(Advancing(), 0xFFFF, message) == Run(REGISTER, 0xFFFF, Bits(REGISTER, message))
  {
    RegisterLaws();
    forall c, b ensures EightSteps(REGISTER, Advancing(), c, b) { AdvancingHolds(c, b); }
    FoldIsRun(REGISTER, Advancing(), 0xFFFF, message);
  }

  lemma BareTop(c: bv16)
    ensures (c & 0x8000 != 0) == (c & 0x8000 == 0x8000)
  {}

  method InnerTurn(c: bv16) returns (next: bv16)
    ensures next == Step(REGISTER, c)
  {
    BareTop(c);
    if c & 0x8000 != 0 {
      next := (c << 1) ^ 0x1021;
    } else {
      next := c << 1;
    }
  }

  /** The inner loop of `checksum_crc16`. */
  method UpdateByte(c: bv16, byte: Byte) returns (crc: bv16)
    ensures crc == Advance(c, byte)
  {
    crc := c ^ ((byte as bv16) << 8);
    var j := 0;
    while j < 8
      invariant 0 <= j <= 8
      invariant StepN(REGISTER, crc, 8 - j) == Advance(c, byte)
    {
      crc := InnerTurn(crc);
      j := j + 1;
    }
  }

  /** `checksum_crc16` computes the bit-serial checksum. */
  method Compute(buffer: seq<Byte>) returns (r: bv16)
    ensures r == Checksum(buffer)
  {
    ghost var next := Advancing();
    var crc: bv16 := 0xFFFF;
    var i := 0;
    while i < |buffer|
      invariant 0 <= i <= |buffer|
      invariant Fold(next, crc, buffer[i..]) == Fold(next, 0xFFFF, buffer)
    {
      assert buffer[i..][1..] == buffer[i + 1..];
      assert Fold(next, crc, buffer[i..]) == Fold(next, next(crc, buffer[i]), buffer[i + 1..]);
      crc := UpdateByte(crc, buffer[i]);
      i := i + 1;
    }
    ByteLoopIsRun(buffer);
    r := !crc;
  }
}
