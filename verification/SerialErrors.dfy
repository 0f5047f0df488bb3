/** The serial format with the code's two checksums: which damage it notices, and which it does not. */
module SerialErrors {
  import opened Telemetry
  import opened ShiftRegister
  import opened Framing
  import opened FramingTheorems
  import Crc16
  import Crc32

  /** A checksum as it lies in memory, low byte first. */
  function Word16(w: bv16): (bs: Two) {
    [(w & 0xFF) as Byte, (w >> 8) as Byte]
  }

  function Word32(w: bv32): (bs: Four) {
    [(w & 0xFF) as Byte, ((w >> 8) & 0xFF) as Byte, ((w >> 16) & 0xFF) as Byte, (w >> 24) as Byte]
  }

  lemma Word16Injective(v: bv16, w: bv16)
    requires Word16(v) == Word16(w)
    ensures v == w
  {
    assert Word16(v)[0] == Word16(w)[0] && Word16(v)[1] == Word16(w)[1];
  }

  lemma Word32Injective(v: bv32, w: bv32)
    requires Word32(v) == Word32(w)
    ensures v == w
  {
    assert Word32(v)[0] == Word32(w)[0] && Word32(v)[1] == Word32(w)[1];
    assert Word32(v)[2] == Word32(w)[2] && Word32(v)[3] == Word32(w)[3];
  }

  /** The bytes of a checksum in memory, put together low byte first, are the checksum. */
  lemma Word16Layout(w: bv16)
    ensures (Word16(w)[0] as bv16) | ((Word16(w)[1] as bv16) << 8) == w
  {}

  lemma Word32Layout(w: bv32)
    ensures
      var bs := Word32(w);
      (bs[0] as bv32) | ((bs[1] as bv32) << 8) | ((bs[2] as bv32) << 16) | ((bs[3] as bv32) << 24) == w
  {}

  function HeaderCheck(bs: seq<Byte>): (c: Two) { Word16(Crc16.Checksum(bs)) }

  function PayloadCheck(bs: seq<Byte>): (c: Four) { Word32(Crc32.Checksum(bs)) }

  /** The checks of the code. */
  const CRCS: Checks := Checks(HeaderCheck, PayloadCheck)

  // ----- damage that is noticed -----

  /** Whatever arrives as the header and its check: if the check is not that of the header, nothing is returned. */
  lemma WrongHeader(k: Checks, s: seq<Byte>, pos: nat, h: seq<Byte>, c: seq<Byte>, tail: seq<Byte>, m: Memory)
    requires |h| == 8 && |c| == 2 && At(s, pos, Stuff(h) + (Stuff(c) + tail))
    requires k.header(h) != c
    ensures ReadFrame(k, s, pos, m) == (None, pos + |Stuff(h)| + |Stuff(c)|)
  {
    hide Framing.ReadBytes, Framing.At, Framing.Stuff;
    var p1 := ReadPart(s, pos, h, Stuff(c) + tail);
    var p2 := ReadPart(s, p1, c, tail);
  }

  /** A frame around the four parts, whether or not they belong together. */
  function RawFrame(h: seq<Byte>, c: seq<Byte>, l: seq<Byte>, d: seq<Byte>): seq<Byte> {
    [DELIMITER] + Stuff(h + (c + (l + d)))
  }

  lemma {:induction false} WrongPayload(k: Checks, s: seq<Byte>, pos: nat, h: seq<Byte>, c: seq<Byte>, l: seq<Byte>, d: seq<Byte>, m: Memory)
    requires |h| == 8 && |c| == 2 && |d| == 4 && HeaderOf(h).length == |l|
    requires At(s, pos, Stuff(h + (c + (l + d))))
    requires k.payload(l) != d
    ensures ReadFrame(k, s, pos, m).0 == None
  {
    hide Framing.FrameReads, Framing.At, Framing.Stuff;
    ReadParts(s, pos, h, c, l, d);
  }

  lemma RawStarts(s: seq<Byte>, pos: nat, t: seq<Byte>)
    requires At(s, pos, [DELIMITER] + t)
    ensures Skip(s, pos) == pos + 1 && At(s, pos + 1, t)
  {
    AtParts(s, pos, [DELIMITER], t);
    SkipAt(s, pos);
  }

  /** Two buffers of one length, different only inside a window of `width` bits in the order the checksum takes them. */
  ghost predicate Burst16(u: seq<Byte>, v: seq<Byte>, start: nat) {
    u != v && |u| == |v| && DifferOnlyWithin(Bits(Crc16.REGISTER, u), Bits(Crc16.REGISTER, v), start, 16)
  }

  ghost predicate Burst32(u: seq<Byte>, v: seq<Byte>, start: nat) {
    u != v && |u| == |v| && DifferOnlyWithin(Bits(Crc32.REGISTER, u), Bits(Crc32.REGISTER, v), start, 32)
  }

  lemma HeaderCheckNotices(u: seq<Byte>, v: seq<Byte>, start: nat)
    requires Burst16(u, v, start)
    ensures HeaderCheck(u) != HeaderCheck(v)
  {
    hide Crc16.Checksum, Word16;
    Crc16.ChecksumDetectsBurst(u, v, start);
    if HeaderCheck(u) == HeaderCheck(v) { Word16Injective(Crc16.Checksum(u), Crc16.Checksum(v)); }
  }

  lemma PayloadCheckNotices(u: seq<Byte>, v: seq<Byte>, start: nat)
    requires Burst32(u, v, start)
    ensures PayloadCheck(u) != PayloadCheck(v)
  {
    hide Crc32.Checksum, Word32;
    Crc32.ChecksumDetectsBurst(u, v, start);
    if PayloadCheck(u) == PayloadCheck(v) { Word32Injective(Crc32.Checksum(u), Crc32.Checksum(v)); }
  }

  /** A burst of at most 16 bits in the header of an otherwise intact frame is always noticed. */
  lemma HeaderBurstIsNoticed(s: seq<Byte>, pos: nat, p: Packet, h: seq<Byte>, start: nat, m: Memory)
    requires p.Valid() && Burst16(HeaderBytes(p), h, start)
    requires At(s, pos, RawFrame(h, HeaderCheck(HeaderBytes(p)), p.payload, PayloadCheck(p.payload)))
    ensures NextPacket(CRCS, s, pos, m).0 == None
  {
    hide Framing.ReadFrame, Framing.At, Framing.Stuff, HeaderCheck, PayloadCheck, Burst16;
    var c, l, d := HeaderCheck(HeaderBytes(p)), p.payload, PayloadCheck(p.payload);
    BurstKeepsLength(HeaderBytes(p), h, start);
    HeaderCheckNotices(HeaderBytes(p), h, start);
    RawStarts(s, pos, Stuff(h + (c + (l + d))));
    StuffParts(h, c, l, d);
    WrongHeader(CRCS, s, pos + 1, h, c, Stuff(l) + Stuff(d), m);
  }

  lemma BurstKeepsLength(u: seq<Byte>, v: seq<Byte>, start: nat)
    ensures Burst16(u, v, start) || Burst32(u, v, start) ==> |u| == |v|
  {}

  /** A burst of at most 32 bits in the payload of an otherwise intact frame is always noticed. */
  lemma PayloadBurstIsNoticed(s: seq<Byte>, pos: nat, p: Packet, l: seq<Byte>, start: nat, m: Memory)
    requires p.Valid() && Burst32(p.payload, l, start)
    requires At(s, pos, RawFrame(HeaderBytes(p), HeaderCheck(HeaderBytes(p)), l, PayloadCheck(p.payload)))
    ensures NextPacket(CRCS, s, pos, m).0 == None
  {
    hide Framing.ReadFrame, Framing.At, Framing.Stuff, HeaderCheck, PayloadCheck, Burst32;
    var h, c, d := HeaderBytes(p), HeaderCheck(HeaderBytes(p)), PayloadCheck(p.payload);
    BurstKeepsLength(p.payload, l, start);
    PayloadCheckNotices(p.payload, l, start);
    HeaderRoundTrip(p);
    RawStarts(s, pos, Stuff(h + (c + (l + d))));
    WrongPayload(CRCS, s, pos + 1, h, c, l, d, m);
  }

  // ----- damage that is not noticed -----

  lemma ChecksumOfNothing()
    ensures Crc32.Checksum([]) == 0
  {}

  lemma CheckOfNothing()
    ensures PayloadCheck([]) == [0, 0, 0, 0]
  {
    hide Crc32.Checksum;
    ChecksumOfNothing();
  }

  lemma OverlayZeros(d: seq<Byte>)
    requires |d| <= 4
    ensures Overlay(d, [], 4) == [0, 0, 0, 0] <==> forall i :: 0 <= i < |d| ==> d[i] == 0
  {
    var o := Overlay(d, [], 4);
    FourZeros();
    assert forall i :: 0 <= i < |d| ==> o[i] == d[i];
    assert forall i :: |d| <= i < 4 ==> o[i] == 0;
    if forall i :: 0 <= i < |d| ==> d[i] == 0 {
      assert o == [o[0], o[1], o[2], o[3]];
    }
  }

  lemma FourZeros()
    ensures Padded([], 4) == [0, 0, 0, 0]
  {
    assert Padded([], 1) == [0] + Padded([], 0) == [0];
    assert Padded([], 2) == [0] + Padded([], 1) == [0, 0];
    assert Padded([], 3) == [0] + Padded([], 2) == [0, 0, 0];
  }

  /**
   A frame announcing an empty payload is accepted exactly when those bytes of its CRC that arrived
   are all zero, however few they are: the CRC-32 of nothing is zero and the read's failure is ignored.
   */
  lemma EmptyPayloadAccepted(parts: Reads, m: Memory)
    requires parts.WellFormed() && parts.header.ok && parts.headerCrc.ok
    requires parts.headerCrc.data == HeaderCheck(parts.header.data)
    requires HeaderOf(parts.header.data).length == 0 && m.hasRoom
    ensures Judge(CRCS, parts, m).0.Some? <==> forall i :: 0 <= i < |parts.crc.data| ==> parts.crc.data[i] == 0
  {
    hide HeaderCheck, PayloadCheck, Framing.Overlay;
    CheckOfNothing();
    OverlayZeros(parts.crc.data);
  }

  function CutOff(p: Packet): seq<Byte>
    requires p.Valid()
  {
    [DELIMITER] + (Stuff(HeaderBytes(p)) + Stuff(HeaderCheck(HeaderBytes(p))))
  }

  /** In particular a frame cut off before its CRC passes: the decoder returns a packet it did not receive whole. */
  lemma CutOffEmptyPacketIsAccepted(p: Packet, m: Memory)
    requires p.Valid() && p.payload == [] && m.hasRoom
    ensures NextPacket(CRCS, CutOff(p), 0, m).0 == Some(p)
    ensures !TookExactly(CRCS, CutOff(p), 0, m, Frame(CRCS, p))
  {
    hide Framing.NextPacket, Framing.At, Framing.Stuff, CutOff, Framing.FrameReads, TookExactly, HeaderCheck, PayloadCheck;
    var s := CutOff(p);
    CutOffStarts(p);
    CutOffReads(s, 1, p);
    CutOffJudged(s, p, m);
    WholeIffAllRead(CRCS, s, 0, m, p);
  }

  lemma CutOffStarts(p: Packet)
    requires p.Valid()
    ensures
      var s := CutOff(p);
      var t := Stuff(HeaderBytes(p)) + Stuff(HeaderCheck(HeaderBytes(p)));
      Skip(s, 0) == 1 && At(s, 1, t) && |s| == 1 + |t|
  {
    hide Framing.At, Framing.Stuff, HeaderCheck, Telemetry.HeaderBytes, Framing.Skip;
    var t := Stuff(HeaderBytes(p)) + Stuff(HeaderCheck(HeaderBytes(p)));
    AtIsSlice([DELIMITER] + t, 0, [DELIMITER] + t);
    RawStarts([DELIMITER] + t, 0, t);
  }

  lemma CutOffJudged(s: seq<Byte>, p: Packet, m: Memory)
    requires p.Valid() && p.payload == [] && m.hasRoom && Skip(s, 0) == 1
    requires
      var parts := FrameReads(s, 1);
      && parts.header.ok && parts.header.data == HeaderBytes(p)
      && parts.headerCrc.ok && parts.headerCrc.data == HeaderCheck(HeaderBytes(p))
      && parts.crc.data == []
    ensures NextPacket(CRCS, s, 0, m).0 == Some(p)
  {
    hide HeaderCheck, PayloadCheck, Framing.FrameReads, Framing.Judge, Telemetry.HeaderBytes;
    var parts := FrameReads(s, 1);
    HeaderRoundTrip(p);
    EmptyPayloadAccepted(parts, m);
    JudgeEmpty(parts, p, m);
  }

  lemma CutOffReads(s: seq<Byte>, pos: nat, p: Packet)
    requires p.Valid() && p.payload == []
    requires At(s, pos, Stuff(HeaderBytes(p)) + Stuff(HeaderCheck(HeaderBytes(p))))
    requires |s| == pos + |Stuff(HeaderBytes(p)) + Stuff(HeaderCheck(HeaderBytes(p)))|
    ensures
      var parts := FrameReads(s, pos);
      && parts.header.ok && parts.header.data == HeaderBytes(p)
      && parts.headerCrc.ok && parts.headerCrc.data == HeaderCheck(HeaderBytes(p))
      && parts.crc.data == [] && !parts.crc.ok
  {
    hide Framing.ReadBytes, Framing.At, Framing.Stuff, HeaderCheck;
    var h, c := HeaderBytes(p), HeaderCheck(HeaderBytes(p));
    HeaderRoundTrip(p);
    var p1 := ReadPart(s, pos, h, Stuff(c));
    ReadStuffed(s, p1, c);
    var p2 := p1 + |Stuff(c)|;
    ReadNothing(s, p2);
    NothingAfterTheEnd(s, p2, 4);
  }

  lemma ReadNothing(s: seq<Byte>, pos: nat)
    ensures ReadBytes(s, pos, 0) == Read(true, [], pos)
  {}

  lemma JudgeEmpty(parts: Reads, p: Packet, m: Memory)
    requires p.Valid() && p.payload == [] && parts.WellFormed() && parts.header.ok
    requires parts.header.data == HeaderBytes(p)
    requires Judge(CRCS, parts, m).0.Some?
    ensures Judge(CRCS, parts, m).0 == Some(p)
  {
    hide HeaderCheck, PayloadCheck;
    HeaderRoundTrip(p);
  }
}
