/** The serial format in bytes: what the checks on the wire add up to, and one frame written out. */
module SerialValues {
  import opened Telemetry
  import opened ShiftRegister
  import opened Framing
  import opened SerialErrors
  import Crc16
  import Crc32
  import Crc16Values
  import Crc32Values

  // ----- the checks as they are sent -----

  lemma BareBytes32(w: bv32)
    ensures (((w >> 8) >> 8) & 0xFF) as Byte == ((w >> 16) & 0xFF) as Byte
    ensures ((((w >> 8) >> 8) >> 8) & 0xFF) as Byte == (w >> 24) as Byte
  {}

  lemma SentLowFirst(w: bv32)
    ensures Word32(w) == Crc32Values.WordBytes(w)
  {
    BareBytes32(w);
  }

  /** A payload and its check as sent leave the register of the check at one constant. */
  lemma PayloadResidue(payload: seq<Byte>)
    ensures Run(Crc32.REGISTER, 0xFFFF_FFFF, Bits(Crc32.REGISTER, payload + PayloadCheck(payload))) == 0xDEBB_20E3
  {
    hide Word32, Crc32Values.WordBytes, Run, Bits, Crc32.Checksum;
    SentLowFirst(Crc32.Checksum(payload));
    Crc32Values.Residue(payload);
  }

  /** A header and its check, which is sent low byte first, leave it at one constant when the check's bytes are taken high one first. */
  lemma HeaderResidue(header: seq<Byte>)
    ensures
      var check := HeaderCheck(header);
      Run(Crc16.REGISTER, 0xFFFF, Bits(Crc16.REGISTER, header + [check[1], check[0]])) == 0x1D0F
  {
    hide Run, Bits, Crc16.Checksum;
    Crc16Values.Residue(header);
  }

  // ----- one frame -----

  /** A packet with id 1, timestamp 3 and the two bytes that are escaped as its payload. */
  const EXAMPLE := Packet(1, 3, [0x7E, 0x7D])

  const EXAMPLE_HEADER: seq<Byte> := [0x01, 0x00, 0x02, 0x00, 0x03, 0x00, 0x00, 0x00]

  lemma SmallBytes()
    ensures ToByte(0) == 0 && ToByte(1) == 1 && ToByte(2) == 2 && ToByte(3) == 3
  {
    assert Count(0) == 0 && Count(1) == 1 + Count(0) && Count(2) == 1 + Count(1) && Count(3) == 1 + Count(2);
    ToByteOfByte(0);
    ToByteOfByte(1);
    ToByteOfByte(2);
    ToByteOfByte(3);
  }

  lemma ExampleHeader()
    ensures EXAMPLE.Valid() && HeaderBytes(EXAMPLE) == EXAMPLE_HEADER
  {
    hide ToByte;
    SmallBytes();
    assert Le16(0) == [0, 0] && Le16(1) == [1, 0] && Le16(2) == [2, 0] && Le16(3) == [3, 0];
    assert Le32(3) == [3, 0] + [0, 0];
  }

  lemma HeaderPasses()
    ensures Crc16Values.Next(0xFFFF, 0x01) == 0xF1D1
    ensures Crc16Values.Next(0xF1D1, 0x00) == 0x2E3E
    ensures Crc16Values.Next(0x2E3E, 0x02) == 0xDBEE
    ensures Crc16Values.Next(0xDBEE, 0x00) == 0x9416
    ensures Crc16Values.Next(0x9416, 0x03) == 0xE55E
    ensures Crc16Values.Next(0xE55E, 0x00) == 0xF38B
    ensures Crc16Values.Next(0xF38B, 0x00) == 0x547C
    ensures Crc16Values.Next(0x547C, 0x00) == 0x6671
  {}

  lemma PayloadPasses()
    ensures Crc32Values.Next(0xFFFF_FFFF, 0x7E) == 0x9A40_4C49
    ensures Crc32Values.Next(0x9A40_4C49, 0x7D) == 0x212E_B4F9
  {}

  lemma BareWords(v: bv16, w: bv32)
    requires v == 0x6671 && w == 0x212E_B4F9
    ensures (!v & 0xFF) as Byte == 0x8E && (!v >> 8) as Byte == 0x99
    ensures (!w & 0xFF) as Byte == 0x06 && ((!w >> 8) & 0xFF) as Byte == 0x4B
    ensures ((!w >> 16) & 0xFF) as Byte == 0xD1 && (!w >> 24) as Byte == 0xDE
  {}

  lemma ExampleChecks()
    ensures HeaderCheck(EXAMPLE_HEADER) == [0x8E, 0x99] && PayloadCheck([0x7E, 0x7D]) == [0x06, 0x4B, 0xD1, 0xDE]
  {
    hide Crc16Values.Next, Crc32Values.Next, Crc16.Checksum, Crc32.Checksum;
    HeaderPasses();
    PayloadPasses();
    Crc16Values.ChecksumIs(EXAMPLE_HEADER, [0xFFFF, 0xF1D1, 0x2E3E, 0xDBEE, 0x9416, 0xE55E, 0xF38B, 0x547C, 0x6671]);
    Crc32Values.ChecksumIs([0x7E, 0x7D], [0xFFFF_FFFF, 0x9A40_4C49, 0x212E_B4F9]);
    BareWords(0x6671, 0x212E_B4F9);
  }

  lemma {:induction false} StuffCons(b: Byte, rest: seq<Byte>)
    ensures Stuff([b] + rest) == StuffByte(b) + Stuff(rest)
  {
    hide StuffByte;
    assert ([b] + rest)[1..] == rest;
  }

  lemma {:induction false} StuffPlain(bs: seq<Byte>)
    requires forall i :: 0 <= i < |bs| ==> bs[i] != DELIMITER && bs[i] != ESCAPE
    ensures Stuff(bs) == bs
    decreases |bs|
  {
    if bs != [] { StuffPlain(bs[1..]); }
  }

  /** The whole frame of that packet: delimiter, header, check, the payload with both bytes escaped, check. */
  lemma ExampleFrame()
    ensures EXAMPLE.Valid()
    ensures Frame(CRCS, EXAMPLE) ==
      [0x7E] + [0x01, 0x00, 0x02, 0x00, 0x03, 0x00, 0x00, 0x00] + [0x8E, 0x99]
      + [0x7D, 0x5E, 0x7D, 0x5D] + [0x06, 0x4B, 0xD1, 0xDE]
  {
    hide Stuff, HeaderBytes, HeaderCheck, PayloadCheck;
    ExampleHeader();
    ExampleChecks();
    var a: seq<Byte>, b: seq<Byte> := EXAMPLE_HEADER + [0x8E, 0x99], [0x06, 0x4B, 0xD1, 0xDE];
    StuffPlain(a);
    StuffPlain(b);
    StuffCons(0x7D, b);
    StuffCons(0x7E, [0x7D] + b);
    StuffConcat(a, [0x7E] + ([0x7D] + b));
    assert Content(CRCS, EXAMPLE) == a + ([0x7E] + ([0x7D] + b));
  }
}
