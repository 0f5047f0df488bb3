/** What the framed format promises of intact frames: round trip and canonicity. */
module FramingTheorems {
  import opened Telemetry
  import opened Framing

  // ----- one intact frame -----

  lemma StuffParts(h: seq<Byte>, c: seq<Byte>, l: seq<Byte>, d: seq<Byte>)
    ensures Stuff(h + (c + (l + d))) == Stuff(h) + (Stuff(c) + (Stuff(l) + Stuff(d)))
  {
    StuffConcat(h, c + (l + d));
    StuffConcat(c, l + d);
    StuffConcat(l, d);
  }

  /** Reads that are all complete, and hold these parts. */
  ghost predicate Hold(parts: Reads, h: seq<Byte>, c: seq<Byte>, l: seq<Byte>, d: seq<Byte>) {
    && parts.header.ok && parts.header.data == h
    && parts.headerCrc.ok && parts.headerCrc.data == c
    && parts.payload.ok && parts.payload.data == l
    && parts.crc.ok && parts.crc.data == d
  }

  lemma ReadsAre(s: seq<Byte>, pos: nat, h: Read, c: Read, l: Read, d: Read)
    requires ReadBytes(s, pos, 8) == h && h.ok
    requires ReadBytes(s, h.pos, 2) == c
    requires ReadBytes(s, c.pos, HeaderOf(h.data).length) == l
    requires ReadBytes(s, l.pos, 4) == d
    ensures FrameReads(s, pos) == Reads(h, c, l, d)
  {}

  /** Parts that are all there are read back in full. */
  lemma ReadParts(s: seq<Byte>, pos: nat, h: seq<Byte>, c: seq<Byte>, l: seq<Byte>, d: seq<Byte>)
    requires At(s, pos, Stuff(h + (c + (l + d))))
    requires |h| == 8 && |c| == 2 && |d| == 4 && HeaderOf(h).length == |l|
    ensures Hold(FrameReads(s, pos), h, c, l, d)
    ensures FrameReads(s, pos).crc.pos == pos + |Stuff(h + (c + (l + d)))|
  {
    StuffParts(h, c, l, d);
    var p1 := ReadPart(s, pos, h, Stuff(c) + (Stuff(l) + Stuff(d)));
    var p2 := ReadPart(s, p1, c, Stuff(l) + Stuff(d));
    var p3 := ReadPart(s, p2, l, Stuff(d));
    ReadStuffed(s, p3, d);
    ReadsAre(s, pos, Read(true, h, p1), Read(true, c, p2), Read(true, l, p3), Read(true, d, p3 + |Stuff(d)|));
  }

  lemma JudgeIntact(k: Checks, parts: Reads, header: seq<Byte>, payload: seq<Byte>, m: Memory)
    requires parts.WellFormed() && |header| == 8 && HeaderOf(header).length == |payload|
    requires Hold(parts, header, k.header(header), payload, k.payload(payload))
    ensures
      var h := HeaderOf(header);
      Judge(k, parts, m) ==
        if Allocates(m, |payload|) then (Some(Packet(h.id, h.timestamp, payload)), parts.crc.pos) else (None, parts.headerCrc.pos)
  {
    hide HeaderOf;
  }

  lemma ReadContentParts(k: Checks, s: seq<Byte>, pos: nat, p: Packet)
    requires p.Valid() && At(s, pos, Stuff(Content(k, p)))
    ensures Hold(FrameReads(s, pos), HeaderBytes(p), k.header(HeaderBytes(p)), p.payload, k.payload(p.payload))
    ensures FrameReads(s, pos).crc.pos == pos + |Stuff(Content(k, p))|
  {
    hide Framing.FrameReads;
    HeaderRoundTrip(p);
    ReadParts(s, pos, HeaderBytes(p), k.header(HeaderBytes(p)), p.payload, k.payload(p.payload));
  }

  /**
   The content of a frame, once the delimiter has been read, gives the packet if the heap has room and the payload is no
   longer than the longest that is allocated, and nothing otherwise.
   */
  lemma ReadContent(k: Checks, s: seq<Byte>, pos: nat, p: Packet, m: Memory)
    requires p.Valid() && At(s, pos, Stuff(Content(k, p)))
    ensures m.hasRoom && |p.payload| <= 4000 ==> ReadFrame(k, s, pos, m) == (Some(p), pos + |Stuff(Content(k, p))|)
    ensures !m.hasRoom || |p.payload| > 4000 ==> ReadFrame(k, s, pos, m).0 == None
    ensures ReadFrame(k, s, pos, m).1 <= pos + |Stuff(Content(k, p))|
  {
    hide Framing.FrameReads, Framing.Judge, Framing.Content, HeaderOf, HeaderBytes, Stuff, At;
    ReadContentParts(k, s, pos, p);
    HeaderRoundTrip(p);
    JudgeIntact(k, FrameReads(s, pos), HeaderBytes(p), p.payload, m);
  }

  lemma SkipAt(s: seq<Byte>, pos: nat)
    requires Get(s, pos) == DELIMITER
    ensures Skip(s, pos) == pos + 1
  {}

  lemma FrameStarts(k: Checks, s: seq<Byte>, pos: nat, p: Packet)
    requires p.Valid()
    ensures At(s, pos, Frame(k, p)) <==> At(s, pos, [DELIMITER]) && At(s, pos + 1, Stuff(Content(k, p)))
    ensures At(s, pos, [DELIMITER]) ==> pos < |s| && s[pos] == DELIMITER
  {
    AtParts(s, pos, [DELIMITER], Stuff(Content(k, p)));
  }

  /** An intact frame is decoded to its packet, and nothing after it is touched. */
  lemma ReadIntactFrame(k: Checks, s: seq<Byte>, pos: nat, p: Packet, m: Memory)
    requires p.Valid() && At(s, pos, Frame(k, p))
    ensures m.hasRoom && |p.payload| <= 4000 ==> NextPacket(k, s, pos, m) == (Some(p), pos + |Frame(k, p)|)
    ensures !m.hasRoom || |p.payload| > 4000 ==> NextPacket(k, s, pos, m).0 == None
  {
    hide Framing.ReadFrame, Framing.Content;
    FrameStarts(k, s, pos, p);
    SkipAt(s, pos);
    ReadContent(k, s, pos + 1, p, m);
  }

  // ----- round trip of a whole sequence -----

  ghost predicate HaveRoom(ms: seq<Memory>) {
    forall i :: 0 <= i < |ms| ==> ms[i].hasRoom
  }

  ghost function Somes(ps: seq<Packet>): (r: seq<Option<Packet>>)
    ensures |r| == |ps| && forall i :: 0 <= i < |ps| ==> r[i] == Some(ps[i])
  {
    seq(|ps|, i requires 0 <= i < |ps| => Some(ps[i]))
  }

  /** Decoding the frames of any packets, wherever they lie, returns those packets and ends right after them. */
  lemma {:induction false} RoundTrip(k: Checks, s: seq<Byte>, pos: nat, ps: seq<Packet>, ms: seq<Memory>)
    requires AllValid(ps) && At(s, pos, Frames(k, ps))
    requires |ms| == |ps| && HaveRoom(ms)
    ensures Calls(k, s, pos, ms) == (Somes(ps), pos + |Frames(k, ps)|)
    decreases |ps|
  {
    hide Framing.NextPacket, Framing.Frame, Framing.At;
    if ps != [] {
      var next := pos + |Frame(k, ps[0])|;
      AtParts(s, pos, Frame(k, ps[0]), Frames(k, ps[1..]));
      ReadIntactFrame(k, s, pos, ps[0], ms[0]);
      RoundTrip(k, s, next, ps[1..], ms[1..]);
      assert Somes(ps) == [Some(ps[0])] + Somes(ps[1..]);
    }
  }

  // ----- canonicity -----

  /** The bytes a call took from the stream: from the delimiter it found to where it stopped. */
  ghost predicate TookExactly(k: Checks, s: seq<Byte>, pos: nat, m: Memory, bs: seq<Byte>) {
    At(s, Skip(s, pos) - 1, bs) && NextPacket(k, s, pos, m).1 == Skip(s, pos) - 1 + |bs|
  }

  predicate AllRead(parts: Reads) {
    parts.header.ok && parts.headerCrc.ok && parts.payload.ok && parts.crc.ok
  }

  /** `r` was read from exactly its own stuffing, at `pos`. */
  ghost predicate Exact(s: seq<Byte>, pos: nat, r: Read) {
    At(s, pos, Stuff(r.data)) && r.pos == pos + |Stuff(r.data)|
  }

  lemma FilledIsExact(s: seq<Byte>, pos: nat, n: nat)
    requires pos <= |s| && ReadBytes(s, pos, n).ok
    ensures Exact(s, pos, ReadBytes(s, pos, n)) && ReadBytes(s, pos, n).pos <= |s|
  {
    hide Framing.ReadBytes;
    ReadIsCanonical(s, pos, n);
    AtIsSlice(s, pos, Stuff(ReadBytes(s, pos, n).data));
  }

  lemma ExactParts(s: seq<Byte>, pos: nat, h: Read, c: Read, l: Read, d: Read)
    requires Exact(s, pos, h) && Exact(s, h.pos, c) && Exact(s, c.pos, l) && Exact(s, l.pos, d)
    ensures
      var content := h.data + (c.data + (l.data + d.data));
      At(s, pos, Stuff(content)) && d.pos == pos + |Stuff(content)|
  {
    hide Framing.At, Framing.Stuff;
    var t := Stuff(l.data) + Stuff(d.data);
    StuffParts(h.data, c.data, l.data, d.data);
    AtParts(s, c.pos, Stuff(l.data), Stuff(d.data));
    AtParts(s, h.pos, Stuff(c.data), t);
    AtParts(s, pos, Stuff(h.data), Stuff(c.data) + t);
  }

  lemma FilledReadsAreCanonical(s: seq<Byte>, pos: nat)
    requires pos <= |s| && AllRead(FrameReads(s, pos))
    ensures
      var parts := FrameReads(s, pos);
      var content := parts.header.data + (parts.headerCrc.data + (parts.payload.data + parts.crc.data));
      At(s, pos, Stuff(content)) && parts.crc.pos == pos + |Stuff(content)|
  {
    hide Framing.ReadBytes, Framing.At, Framing.Stuff;
    var parts := FrameReads(s, pos);
    FilledIsExact(s, pos, 8);
    FilledIsExact(s, parts.header.pos, 2);
    FilledIsExact(s, parts.headerCrc.pos, HeaderOf(parts.header.data).length);
    FilledIsExact(s, parts.payload.pos, 4);
    ExactParts(s, pos, parts.header, parts.headerCrc, parts.payload, parts.crc);
  }

  /** What lies in a buffer that was read into: the bytes read, then what it held, then zeros. */
  lemma {:induction false} OverlayIs(data: seq<Byte>, before: seq<Byte>, n: nat)
    requires |data| <= n
    ensures forall i :: 0 <= i < n ==>
      Overlay(data, before, n)[i] == if i < |data| then data[i] else if i < |before| then before[i] else 0
  {
    PaddedIs(before, n);
  }

  lemma {:induction false} PaddedIs(bs: seq<Byte>, n: nat)
    ensures forall i :: 0 <= i < n ==> Padded(bs, n)[i] == if i < |bs| then bs[i] else 0
    decreases n
  {
    if n > 0 { PaddedIs(if bs == [] then [] else bs[1..], n - 1); }
  }

  /** What `read_frame` accepts passed both checks. */
  lemma JudgeAccepts(k: Checks, parts: Reads, p: Packet, m: Memory)
    requires parts.WellFormed() && Judge(k, parts, m).0 == Some(p)
    ensures p.Valid() && parts.header.ok && parts.headerCrc.ok && Allocates(m, |p.payload|)
    ensures parts.header.data == HeaderBytes(p) && parts.headerCrc.data == k.header(HeaderBytes(p))
    ensures HeaderOf(parts.header.data).length == |p.payload|
    ensures Judge(k, parts, m).1 == parts.crc.pos
    ensures p.payload == Overlay(parts.payload.data, m.junk, |p.payload|)
    ensures k.payload(p.payload) == Overlay(parts.crc.data, [], 4)
  {
    HeaderCanonical(parts.header.data, p);
  }

  /**
   An accepted packet was received whole, that is, the bytes taken for it are its own encoding,
   exactly when the two reads succeeded whose results the code ignores.
   */
  lemma WholeIffAllRead(k: Checks, s: seq<Byte>, pos: nat, m: Memory, p: Packet)
    requires NextPacket(k, s, pos, m).0 == Some(p)
    ensures p.Valid()
    ensures AllRead(FrameReads(s, Skip(s, pos))) <==> TookExactly(k, s, pos, m, Frame(k, p))
  {
    hide Framing.FrameReads, Framing.Judge, Framing.Skip, Framing.At, Framing.Stuff;
    var start := Skip(s, pos);
    var parts := FrameReads(s, start);
    JudgeAccepts(k, parts, p, m);
    StartsInside(s, pos);
    FrameStarts(k, s, start - 1, p);
    if AllRead(parts) {
      FilledReadsAreCanonical(s, start);
    }
    if TookExactly(k, s, pos, m, Frame(k, p)) {
      ReadContentParts(k, s, start, p);
    }
  }

  lemma NothingAfterTheEnd(s: seq<Byte>, pos: nat, n: nat)
    ensures pos >= |s| && n > 0 ==> ReadBytes(s, pos, n) == Read(false, [], pos + 1)
  {}

  lemma StartsInside(s: seq<Byte>, pos: nat)
    requires FrameReads(s, Skip(s, pos)).header.ok
    ensures Skip(s, pos) <= |s| && At(s, Skip(s, pos) - 1, [DELIMITER])
  {
    NothingAfterTheEnd(s, Skip(s, pos), 8);
    assert [DELIMITER][1..] == [];
  }
}
