/** The CRC-16 on messages whose checksum is known, and the message followed by its own checksum. */
module Crc16Values {
  import opened Telemetry
  import opened ShiftRegister
  import opened Crc16

  /** One step and eight steps of the register, written out to be computed with. */
  function Turn(c: bv16): bv16 { if c & 0x8000 == 0x8000 then (c << 1) ^ 0x1021 else c << 1 }

  function EightTimes(c: bv16): bv16 { Turn(Turn(Turn(Turn(Turn(Turn(Turn(Turn(c)))))))) }

  function Next(crc: bv16, b: Byte): bv16 { EightTimes(crc ^ ((b as bv16) << 8)) }

  lemma TurnIsStep(c: bv16)
    ensures Step(REGISTER, c) == Turn(c)
  {}

  lemma {:induction false} EightMore(c: bv16, n: nat)
    ensures StepN(REGISTER, c, n + 8) == StepN(REGISTER, EightTimes(c), n)
  {
    hide Turn, Step;
    FourSteps(REGISTER, c, n + 4);
    FourTurns(c);
    var c4 := Turn(Turn(Turn(Turn(c))));
    FourSteps(REGISTER, c4, n);
    FourTurns(c4);
  }

  lemma {:induction false} EightTimesIsSteps(c: bv16)
    ensures StepN(REGISTER, c, 8) == EightTimes(c)
  {
    hide EightTimes;
    EightMore(c, 0);
  }

  lemma FourTurns(c: bv16)
    ensures Step(REGISTER, Step(REGISTER, Step(REGISTER, Step(REGISTER, c)))) == Turn(Turn(Turn(Turn(c))))
  {
    hide Turn, Step;
    TurnIsStep(c);
    TurnIsStep(Turn(c));
    TurnIsStep(Turn(Turn(c)));
    TurnIsStep(Turn(Turn(Turn(c))));
  }

  lemma NextHolds(crc: bv16, b: Byte)
    ensures ShiftRegister.EightSteps(REGISTER, Next, crc, b)
  {
    hide EightTimes, StepN;
    EightTimesIsSteps(crc ^ ((b as bv16) << 8));
    PlacedIs(crc, b);
  }

  lemma PlacedIs(crc: bv16, b: Byte)
    ensures REGISTER.xor(crc, REGISTER.place(b)) == crc ^ ((b as bv16) << 8)
  {}

  /** The checksum of a message, from the registers that its bytes lead through. */
  lemma {:induction false} ChecksumIs(bytes: seq<Byte>, crcs: seq<bv16>)
    requires Passes(Next, bytes, crcs) && crcs[0] == 0xFFFF
    ensures Checksum(bytes) == !crcs[|bytes|]
  {
    hide Next, Run, Bits, Laws, Fold, ShiftRegister.EightSteps;
    RegisterLaws();
    forall c, b ensures ShiftRegister.EightSteps(REGISTER, Next, c, b) { NextHolds(c, b); }
    FoldIsRun(REGISTER, Next, 0xFFFF, bytes);
    FoldPasses(Next, bytes, crcs);
  }

  /** The digits "123456789" in ASCII. */
  const DIGITS: seq<Byte> := [0x31, 0x32, 0x33, 0x34, 0x35, 0x36, 0x37, 0x38, 0x39]

  lemma DigitsPass()
    ensures Next(0xFFFF, 0x31) == 0xC782
    ensures Next(0xC782, 0x32) == 0x3DBA
    ensures Next(0x3DBA, 0x33) == 0x5BCE
    ensures Next(0x5BCE, 0x34) == 0x5349
    ensures Next(0x5349, 0x35) == 0x4560
    ensures Next(0x4560, 0x36) == 0x2EF4
    ensures Next(0x2EF4, 0x37) == 0x7718
    ensures Next(0x7718, 0x38) == 0xA12B
    ensures Next(0xA12B, 0x39) == 0x29B1
  {}

  /** The published check value of the algorithm, and the checksum of nothing. */
  lemma CheckValue()
    ensures Checksum(DIGITS) == 0xD64E && Checksum([]) == 0
  {
    hide Next, Checksum;
    DigitsPass();
    ChecksumIs(DIGITS, [0xFFFF, 0xC782, 0x3DBA, 0x5BCE, 0x5349, 0x4560, 0x2EF4, 0x7718, 0xA12B, 0x29B1]);
    ChecksumIs([], [0xFFFF]);
    Complements();
  }

  lemma Complements()
    ensures !(0x29B1 as bv16) == 0xD64E && !(0xFFFF as bv16) == 0
  {}

  // ----- a message followed by its checksum -----

  function HighByte(w: bv16): Byte { (w >> 8) as Byte }

  function LowByte(w: bv16): Byte { (w & 0xFF) as Byte }

  lemma BareHalves(w: bv16)
    ensures (((w >> 8) as Byte as bv16) << 8) ^ (w & 0xFF) == w
    ensures (w & 0xFF) << 8 == w << 8
    ensures ((w & 0xFF) as Byte as bv16) << 8 == w << 8
    ensures ((w << 8) >> 8) as Byte == (w & 0xFF) as Byte
  {}

  lemma Halves(w: bv16)
    ensures Xor(Place(HighByte(w)), w & 0xFF) == w
    ensures HighByte(w << 8) == LowByte(w)
  {
    BareHalves(w);
  }

  lemma BareNoTopBits(w: bv16)
    requires w & 0xF000 == 0
    ensures w & 0x8000 != 0x8000 && (w << 1) & 0x8000 != 0x8000
    ensures ((w << 1) << 1) & 0x8000 != 0x8000 && (((w << 1) << 1) << 1) & 0x8000 != 0x8000
  {}

  lemma LowZeros4(w: bv16, n: nat)
    requires w & 0xF000 == 0 && LowZeros(REGISTER, w << 4, n)
    ensures LowZeros(REGISTER, w, n + 4)
  {
    BareNoTopBits(w);
    DownFour(w);
    var w1 := Down(w);
    var w2 := Down(w1);
    var w3 := Down(w2);
    assert LowZeros(REGISTER, Down(w3), n);
    assert LowZeros(REGISTER, w2, n + 2);
  }

  lemma BareLowHalf(w: bv16)
    ensures (w & 0xFF) & 0xF000 == 0 && ((w & 0xFF) << 4) & 0xF000 == 0
  {}

  lemma LowHalfIsFar(w: bv16)
    ensures LowZeros(REGISTER, w & 0xFF, 8)
  {
    hide Odd, Down;
    BareLowHalf(w);
    LowZeros4((w & 0xFF) << 4, 0);
    LowZeros4(w & 0xFF, 4);
  }

  /** The high byte is the first eight bits of a word. */
  lemma Peel(w: bv16, n: nat)
    ensures Unpack(REGISTER, w, 8 + n) == ByteBits(REGISTER, HighByte(w)) + Unpack(REGISTER, w << 8, n)
  {
    hide Unpack, LowZeros, DownN, Laws, Xor, Place, HighByte, ByteBits;
    RegisterLaws();
    LowHalfIsFar(w);
    Halves(w);
    FirstByteOfWord(REGISTER, HighByte(w), w & 0xFF, n);
    XorIs(Place(HighByte(w)), w & 0xFF, HighByte(w));
    DownN8(w & 0xFF, 0);
    DownNothing((w & 0xFF) << 8);
    BareHalves(w);
  }

  lemma XorIs(x: bv16, y: bv16, b: Byte)
    ensures REGISTER.xor(x, y) == Xor(x, y) && REGISTER.place(b) == Place(b)
  {}

  lemma DownNothing(w: bv16)
    ensures DownN(REGISTER, w, 0) == w && |Unpack(REGISTER, w, 0)| == 0
  {}

  /** The bits of a word are those of its two bytes, the high one first. */
  lemma WordBits(w: bv16)
    ensures Unpack(REGISTER, w, 16) == Bits(REGISTER, [HighByte(w), LowByte(w)])
    ensures DownN(REGISTER, w, 16) == 0
  {
    hide Unpack, DownN, ByteBits, HighByte, LowByte;
    Peel(w, 8);
    Peel(w << 8, 0);
    Halves(w);
    DownNothing((w << 8) << 8);
    DownN8(w, 8);
    DownN8(w << 8, 0);
    BareEmpty(w);
    BitsOfTwo(HighByte(w), LowByte(w));
  }

  lemma BareEmpty(w: bv16)
    ensures (w << 8) << 8 == 0
  {}

  lemma {:induction false} BitsOfTwo(a: Byte, b: Byte)
    ensures Bits(REGISTER, [a, b]) == ByteBits(REGISTER, a) + ByteBits(REGISTER, b)
  {
    hide ByteBits;
    assert [a, b][1..] == [b] && [b][1..] == [];
    assert Bits(REGISTER, []) == [];
    assert ByteBits(REGISTER, b) + [] == ByteBits(REGISTER, b);
  }

  lemma {:induction false} AllOnes()
    ensures StepN(REGISTER, 0xFFFF, 16) == 0x1D0F
  {
    hide Turn, Step, StepN, EightTimes;
    EightMore(0xFFFF, 8);
    EightTimesIsSteps(EightTimes(0xFFFF));
    OnesTurn();
  }

  lemma OnesTurn()
    ensures EightTimes(EightTimes(0xFFFF)) == 0x1D0F
  {}

  lemma BareComplement(w: bv16)
    ensures w ^ !w == 0xFFFF
  {}

  lemma XorComplement(w: bv16)
    ensures REGISTER.xor(w, !w) == 0xFFFF
  {
    BareComplement(w);
  }

  /** Any message followed by its checksum, high byte first, leaves one and the same register. */
  lemma {:induction false} Residue(message: seq<Byte>)
    ensures
      var crc := Checksum(message);
      Run(REGISTER, 0xFFFF, Bits(REGISTER, message + [HighByte(crc), LowByte(crc)])) == 0x1D0F
  {
    hide Run, Bits, HighByte, LowByte, Unpack, StepN, DownN, Laws;
    var r, crc := Run(REGISTER, 0xFFFF, Bits(REGISTER, message)), Checksum(message);
    RegisterLaws();
    BitsConcat(REGISTER, message, [HighByte(crc), LowByte(crc)]);
    RunConcat(REGISTER, 0xFFFF, Bits(REGISTER, message), Bits(REGISTER, [HighByte(crc), LowByte(crc)]));
    WordBits(crc);
    RunOfWord(REGISTER, r, crc);
    XorComplement(r);
    AllOnes();
  }
}
