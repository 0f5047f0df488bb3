/** The CRC-32 on messages whose checksum is known, and the message followed by its own checksum. */
module Crc32Values {
  import opened Telemetry
  import opened ShiftRegister
  import opened Crc32

  /** One step and eight steps of the register, written out to be computed with. */
  function Turn(c: bv32): bv32 { if c & 1 == 1 then (c >> 1) ^ 0xEDB8_8320 else c >> 1 }

  function EightTimes(c: bv32): bv32 { Turn(Turn(Turn(Turn(Turn(Turn(Turn(Turn(c)))))))) }

  function Next(crc: bv32, b: Byte): bv32 { EightTimes(crc ^ b as bv32) }

  lemma TurnIsStep(c: bv32)
    ensures Step(REGISTER, c) == Turn(c)
  {}

  lemma {:induction false} EightMore(c: bv32, n: nat)
    ensures StepN(REGISTER, c, n + 8) == StepN(REGISTER, EightTimes(c), n)
  {
    hide Turn, Step;
    FourSteps(REGISTER, c, n + 4);
    FourTurns(c);
    var c4 := Turn(Turn(Turn(Turn(c))));
    FourSteps(REGISTER, c4, n);
    FourTurns(c4);
  }

  lemma {:induction false} EightTimesIsSteps(c: bv32)
    ensures StepN(REGISTER, c, 8) == EightTimes(c)
  {
    hide EightTimes;
    EightMore(c, 0);
  }

  lemma FourTurns(c: bv32)
    ensures Step(REGISTER, Step(REGISTER, Step(REGISTER, Step(REGISTER, c)))) == Turn(Turn(Turn(Turn(c))))
  {
    hide Turn, Step;
    TurnIsStep(c);
    TurnIsStep(Turn(c));
    TurnIsStep(Turn(Turn(c)));
    TurnIsStep(Turn(Turn(Turn(c))));
  }

  lemma NextHolds(crc: bv32, b: Byte)
    ensures ShiftRegister.EightSteps(REGISTER, Next, crc, b)
  {
    hide EightTimes, StepN;
    EightTimesIsSteps(crc ^ b as bv32);
    PlacedIs(crc, b);
  }

  lemma PlacedIs(crc: bv32, b: Byte)
    ensures REGISTER.xor(crc, REGISTER.place(b)) == crc ^ b as bv32
  {}

  /** The checksum of a message, from the registers that its bytes lead through. */
  lemma {:induction false} ChecksumIs(bytes: seq<Byte>, crcs: seq<bv32>)
    requires Passes(Next, bytes, crcs) && crcs[0] == 0xFFFF_FFFF
    ensures Checksum(bytes) == !crcs[|bytes|]
  {
    hide Next, Run, Bits, Laws, Fold, ShiftRegister.EightSteps;
    RegisterLaws();
    forall c, b ensures ShiftRegister.EightSteps(REGISTER, Next, c, b) { NextHolds(c, b); }
    FoldIsRun(REGISTER, Next, 0xFFFF_FFFF, bytes);
    FoldPasses(Next, bytes, crcs);
  }

  /** The digits "123456789" in ASCII. */
  const DIGITS: seq<Byte> := [0x31, 0x32, 0x33, 0x34, 0x35, 0x36, 0x37, 0x38, 0x39]

  lemma DigitsPass()
    ensures Next(0xFFFF_FFFF, 0x31) == 0x7C23_1048
    ensures Next(0x7C23_1048, 0x32) == 0xB0AC_BB32
    ensures Next(0xB0AC_BB32, 0x33) == 0x77B7_9C2D
    ensures Next(0x77B7_9C2D, 0x34) == 0x641C_1F5C
    ensures Next(0x641C_1F5C, 0x35) == 0x340A_C5E3
    ensures Next(0x340A_C5E3, 0x36) == 0xF68D_2C9E
    ensures Next(0xF68D_2C9E, 0x37) == 0xAFFC_9660
    ensures Next(0xAFFC_9660, 0x38) == 0x651F_2550
    ensures Next(0x651F_2550, 0x39) == 0x340B_C6D9
  {}

  /** The published check value of the algorithm, and the checksum of nothing. */
  lemma CheckValue()
    ensures Checksum(DIGITS) == 0xCBF4_3926 && Checksum([]) == 0
  {
    hide Next, Checksum;
    DigitsPass();
    ChecksumIs(DIGITS, [0xFFFF_FFFF, 0x7C23_1048, 0xB0AC_BB32, 0x77B7_9C2D, 0x641C_1F5C, 0x340A_C5E3, 0xF68D_2C9E, 0xAFFC_9660, 0x651F_2550, 0x340B_C6D9]);
    ChecksumIs([], [0xFFFF_FFFF]);
    Complements();
  }

  lemma Complements()
    ensures !(0x340B_C6D9 as bv32) == 0xCBF4_3926 && !(0xFFFF_FFFF as bv32) == 0
  {}

  // ----- a message followed by its checksum -----

  lemma XorIs(x: bv32, y: bv32, b: Byte)
    ensures REGISTER.xor(x, y) == Xor(x, y) && REGISTER.place(b) == Place(b)
  {}

  lemma XorCommutes(x: bv32, y: bv32)
    ensures Xor(x, y) == Xor(y, x)
  {
    BareXor(x, y, x);
  }

  /** A word without its low byte. */
  function Rest(w: bv32): bv32 { w >> 8 }

  /** The low byte is the first eight bits of a word. */
  lemma Peel(w: bv32, n: nat)
    ensures Unpack(REGISTER, w, 8 + n) == ByteBits(REGISTER, LowByte(w)) + Unpack(REGISTER, Rest(w), n)
    ensures DownN(REGISTER, w, 8 + n) == DownN(REGISTER, Rest(w), n)
  {
    hide Unpack, LowZeros, DownN, Laws, Xor, Place, ByteBits;
    RegisterLaws();
    HighLowZeros(w);
    SplitWord(w, LowByte(w));
    XorCommutes(Place(LowByte(w)), w & 0xFFFF_FF00);
    FirstByteOfWord(REGISTER, LowByte(w), w & 0xFFFF_FF00, n);
    XorIs(Place(LowByte(w)), w & 0xFFFF_FF00, LowByte(w));
    DownN8(w & 0xFFFF_FF00, 0);
    DownNothing((w & 0xFFFF_FF00) >> 8);
    DownN8(w, n);
  }

  lemma DownNothing(w: bv32)
    ensures DownN(REGISTER, w, 0) == w && |Unpack(REGISTER, w, 0)| == 0
  {}

  /** A word as four bytes, low byte first. */
  function WordBytes(w: bv32): (bs: seq<Byte>)
    ensures |bs| == 4
  {
    [LowByte(w), LowByte(Rest(w)), LowByte(Rest(Rest(w))), LowByte(Rest(Rest(Rest(w))))]
  }

  /** The bits of a word are those of its four bytes, the low one first. */
  lemma WordBits(w: bv32)
    ensures Unpack(REGISTER, w, 32) == Bits(REGISTER, WordBytes(w))
    ensures DownN(REGISTER, w, 32) == 0
  {
    hide Unpack, DownN, ByteBits, LowByte, Rest, Bits;
    var w1 := Rest(w);
    var w2 := Rest(w1);
    var w3 := Rest(w2);
    Peel(w, 24);
    Peel(w1, 16);
    Peel(w2, 8);
    Peel(w3, 0);
    DownNothing(Rest(w3));
    RestEmpty(w);
    BitsCons(LowByte(w), [LowByte(w1), LowByte(w2), LowByte(w3)]);
    BitsCons(LowByte(w1), [LowByte(w2), LowByte(w3)]);
    BitsCons(LowByte(w2), [LowByte(w3)]);
    BitsCons(LowByte(w3), []);
    assert WordBytes(w) == [LowByte(w)] + [LowByte(w1), LowByte(w2), LowByte(w3)];
    assert [LowByte(w1), LowByte(w2), LowByte(w3)] == [LowByte(w1)] + [LowByte(w2), LowByte(w3)];
    assert [LowByte(w2), LowByte(w3)] == [LowByte(w2)] + [LowByte(w3)] && [LowByte(w3)] == [LowByte(w3)] + [];
    assert |Unpack(REGISTER, Rest(w3), 0)| == |Bits(REGISTER, [])| == 0;
  }

  lemma RestEmpty(w: bv32)
    ensures Rest(Rest(Rest(Rest(w)))) == 0
  {
    BareEmpty(w);
  }

  lemma BareEmpty(w: bv32)
    ensures (((w >> 8) >> 8) >> 8) >> 8 == 0
  {}

  lemma {:induction false} BitsCons(b: Byte, rest: seq<Byte>)
    ensures Bits(REGISTER, [b] + rest) == ByteBits(REGISTER, b) + Bits(REGISTER, rest)
  {
    hide ByteBits;
    assert ([b] + rest)[1..] == rest;
  }

  lemma {:induction false} AllOnes()
    ensures StepN(REGISTER, 0xFFFF_FFFF, 32) == 0xDEBB_20E3
  {
    hide Turn, Step, StepN, EightTimes;
    var c := EightTimes(0xFFFF_FFFF);
    EightMore(0xFFFF_FFFF, 24);
    EightMore(c, 16);
    EightMore(EightTimes(c), 8);
    EightTimesIsSteps(EightTimes(EightTimes(c)));
    OnesTurn();
  }

  lemma OnesTurn()
    ensures EightTimes(EightTimes(EightTimes(EightTimes(0xFFFF_FFFF)))) == 0xDEBB_20E3
  {}

  lemma BareComplement(w: bv32)
    ensures w ^ !w == 0xFFFF_FFFF
  {}

  lemma XorComplement(w: bv32)
    ensures REGISTER.xor(w, !w) == 0xFFFF_FFFF
  {
    BareComplement(w);
  }

  /** Any message followed by its checksum, low byte first, leaves one and the same register. */
  lemma {:induction false} Residue(message: seq<Byte>)
    ensures Run(REGISTER, 0xFFFF_FFFF, Bits(REGISTER, message + WordBytes(Checksum(message)))) == 0xDEBB_20E3
  {
    hide Run, Bits, WordBytes, Unpack, StepN, DownN, Laws;
    var r, crc := Run(REGISTER, 0xFFFF_FFFF, Bits(REGISTER, message)), Checksum(message);
    RegisterLaws();
    BitsConcat(REGISTER, message, WordBytes(crc));
    RunConcat(REGISTER, 0xFFFF_FFFF, Bits(REGISTER, message), Bits(REGISTER, WordBytes(crc)));
    WordBits(crc);
    RunOfWord(REGISTER, r, crc);
    XorComplement(r);
    AllOnes();
  }
}
