/**
 The framed serial format and its decoder, on values.

 A frame is a delimiter followed by the byte-stuffed header, its CRC-16, the payload and its
 CRC-32 (byte stuffing as in section 4.2 of RFC 1662). The decoder reads a stream that gives
 0x7E for ever once its bytes are used up, as the file reader's does.
 */
module Framing {
  import opened Telemetry

  const DELIMITER: Byte := 0x7E
  const ESCAPE: Byte := 0x7D

  // ----- encoding -----

  function StuffByte(b: Byte): (bs: seq<Byte>)
    ensures 1 <= |bs| <= 2
  {
    if b == DELIMITER then [ESCAPE, 0x5E] else if b == ESCAPE then [ESCAPE, 0x5D] else [b]
  }

  function Stuff(bs: seq<Byte>): (out: seq<Byte>)
    ensures |out| >= |bs|
  {
    if bs == [] then [] else StuffByte(bs[0]) + Stuff(bs[1..])
  }

  type Two = bs: seq<Byte> | |bs| == 2 witness [0, 0]
  type Four = bs: seq<Byte> | |bs| == 4 witness [0, 0, 0, 0]

  /** The two checksums, as the bytes they have in memory. What the format promises about whole frames holds for any. */
  datatype Checks = Checks(header: seq<Byte> -> Two, payload: seq<Byte> -> Four)

  /** What a frame carries, before stuffing. */
  function Content(k: Checks, p: Packet): (bs: seq<Byte>)
    requires p.Valid()
    ensures |bs| == 14 + |p.payload|
  {
    HeaderBytes(p) + (k.header(HeaderBytes(p)) + (p.payload + k.payload(p.payload)))
  }

  function Frame(k: Checks, p: Packet): (bs: seq<Byte>)
    requires p.Valid()
  {
    [DELIMITER] + Stuff(Content(k, p))
  }

  ghost predicate AllValid(ps: seq<Packet>) {
    forall i :: 0 <= i < |ps| ==> ps[i].Valid() && |ps[i].payload| <= MAX_TELEMETRY_PAYLOAD_SIZE
  }

  ghost function Frames(k: Checks, ps: seq<Packet>): (bs: seq<Byte>)
    requires AllValid(ps)
  {
    if ps == [] then [] else Frame(k, ps[0]) + Frames(k, ps[1..])
  }

  // ----- decoding -----

  function Get(s: seq<Byte>, pos: nat): Byte {
    if pos < |s| then s[pos] else DELIMITER
  }

  /** Outcome of reading into a buffer: whether it was filled, the bytes stored, and where the stream now is. */
  datatype Read = Read(ok: bool, data: seq<Byte>, pos: nat)

  /** One byte of content, or None when the code gives up; and the position after the bytes it took. */
  function ReadByte(s: seq<Byte>, pos: nat): (r: (Option<Byte>, nat))
    ensures pos < r.1 <= pos + 2
  {
    var b := Get(s, pos);
    if b == DELIMITER then (None, pos + 1)
    else if b == ESCAPE then
      var next := Get(s, pos + 1);
      if next != 0x5E && next != 0x5D then (None, pos + 2) else (Some(next ^ 0x20), pos + 2)
    else (Some(b), pos + 1)
  }

  function ReadBytes(s: seq<Byte>, pos: nat, n: nat): (r: Read)
    ensures pos <= r.pos <= pos + 2 * n && |r.data| <= n && (r.ok <==> |r.data| == n)
    decreases n, pos
  {
    if n == 0 then Read(true, [], pos) else
      match ReadByte(s, pos)
      case (None, next) => Read(false, [], next)
      case (Some(b), next) =>
        var r := ReadBytes(s, next, n - 1);
        r.(data := [b] + r.data)
  }

  /** What the allocator does for one call: whether the heap has room, and what its memory held before. */
  datatype Memory = Memory(hasRoom: bool, junk: seq<Byte>)

  predicate Allocates(m: Memory, length: nat) {
    length <= MAX_TELEMETRY_PAYLOAD_SIZE && m.hasRoom
  }

  /** A buffer of `n` bytes that held `before`, and zeros after it, once `data` was stored at its start. */
  function Overlay(data: seq<Byte>, before: seq<Byte>, n: nat): (bs: seq<Byte>)
    requires |data| <= n
    ensures |bs| == n && (|data| == n ==> bs == data)
  {
    data + Padded(before, n)[|data|..]
  }

  function Padded(bs: seq<Byte>, n: nat): (r: seq<Byte>)
    ensures |r| == n
    decreases n, bs
  {
    if n == 0 then [] else if bs == [] then [0] + Padded([], n - 1) else [bs[0]] + Padded(bs[1..], n - 1)
  }

  /** The four reads of a frame, each from where the one before stopped. */
  datatype Reads = Reads(header: Read, headerCrc: Read, payload: Read, crc: Read) {
    predicate WellFormed() {
      && |header.data| <= 8 && (header.ok <==> |header.data| == 8)
      && |headerCrc.data| <= 2 && (headerCrc.ok <==> |headerCrc.data| == 2)
      && (header.ok ==>
            var n := HeaderOf(header.data).length;
            |payload.data| <= n && (payload.ok <==> |payload.data| == n))
      && |crc.data| <= 4 && (crc.ok <==> |crc.data| == 4)
      && header.pos <= headerCrc.pos <= payload.pos <= crc.pos
    }
  }

  function FrameReads(s: seq<Byte>, pos: nat): (r: Reads)
    ensures r.WellFormed() && pos <= r.header.pos
  {
    var header := ReadBytes(s, pos, 8);
    var headerCrc := ReadBytes(s, header.pos, 2);
    var payload := ReadBytes(s, headerCrc.pos, if header.ok then HeaderOf(header.data).length else 0);
    var crc := ReadBytes(s, payload.pos, 4);
    Reads(header, headerCrc, payload, crc)
  }

  /** What `read_frame` makes of its reads: it ignores whether the payload and its CRC were read in full. */
  function Judge(k: Checks, parts: Reads, m: Memory): (r: (Option<Packet>, nat))
    requires parts.WellFormed()
    ensures parts.header.pos <= r.1
  {
    if !parts.header.ok then (None, parts.header.pos)
    else if !parts.headerCrc.ok then (None, parts.headerCrc.pos)
    else if parts.headerCrc.data != k.header(parts.header.data) then (None, parts.headerCrc.pos)
    else
      var h := HeaderOf(parts.header.data);
      if !Allocates(m, h.length) then (None, parts.headerCrc.pos)
      else
        var payload := Overlay(parts.payload.data, m.junk, h.length);
        var crc := Overlay(parts.crc.data, [], 4);
        if crc != k.payload(payload) then (None, parts.crc.pos)
        else (Some(Packet(h.id, h.timestamp, payload)), parts.crc.pos)
  }

  /** `read_frame`: the delimiter has been read. */
  function ReadFrame(k: Checks, s: seq<Byte>, pos: nat, m: Memory): (r: (Option<Packet>, nat))
    ensures pos <= r.1
  {
    Judge(k, FrameReads(s, pos), m)
  }

  /** The position just after the first delimiter at or after `pos`. */
  function Skip(s: seq<Byte>, pos: nat): (after: nat)
    ensures pos < after && Get(s, after - 1) == DELIMITER
    ensures forall i :: pos <= i < after - 1 ==> Get(s, i) != DELIMITER
    decreases if pos < |s| then |s| - pos else 0
  {
    if Get(s, pos) == DELIMITER then pos + 1 else Skip(s, pos + 1)
  }

  function NextPacket(k: Checks, s: seq<Byte>, pos: nat, m: Memory): (r: (Option<Packet>, nat))
    ensures pos < r.1
  {
    ReadFrame(k, s, Skip(s, pos), m)
  }

  /** The results of as many calls of `next_packet` as there are memories, and the final position. */
  function Calls(k: Checks, s: seq<Byte>, pos: nat, ms: seq<Memory>): (r: (seq<Option<Packet>>, nat))
    ensures |r.0| == |ms|
    decreases |ms|
  {
    if ms == [] then ([], pos) else
      var (result, next) := NextPacket(k, s, pos, ms[0]);
      var (results, end) := Calls(k, s, next, ms[1..]);
      ([result] + results, end)
  }

  // ----- stuffing -----

  lemma {:induction false} StuffConcat(u: seq<Byte>, v: seq<Byte>)
    ensures Stuff(u + v) == Stuff(u) + Stuff(v)
  {
    if u == [] {
      assert u + v == v;
    } else {
      assert (u + v)[1..] == u[1..] + v;
      StuffConcat(u[1..], v);
    }
  }

  /** The delimiter never occurs inside a frame. */
  lemma {:induction false} StuffedHasNoDelimiter(bs: seq<Byte>)
    ensures DELIMITER !in Stuff(bs)
  {
    if bs != [] {
      StuffedHasNoDelimiter(bs[1..]);
    }
  }

  /** `t` lies in `s` at `pos`. */
  ghost predicate At(s: seq<Byte>, pos: nat, t: seq<Byte>)
    decreases |t|
  {
    if t == [] then pos <= |s| else pos < |s| && s[pos] == t[0] && At(s, pos + 1, t[1..])
  }

  lemma {:induction false} AtIsSlice(s: seq<Byte>, pos: nat, t: seq<Byte>)
    ensures At(s, pos, t) <==> pos + |t| <= |s| && s[pos..pos + |t|] == t
    decreases |t|
  {
    if t != [] {
      AtIsSlice(s, pos + 1, t[1..]);
      if pos + |t| <= |s| {
        assert s[pos..pos + |t|] == [s[pos]] + s[pos + 1..pos + |t|];
        assert t == [t[0]] + t[1..];
      }
    }
  }

  lemma {:induction false} AtParts(s: seq<Byte>, pos: nat, t: seq<Byte>, u: seq<Byte>)
    ensures At(s, pos, t + u) <==> At(s, pos, t) && At(s, pos + |t|, u)
    decreases |t|
  {
    if t == [] {
      assert t + u == u;
      AtIsSlice(s, pos, u);
    } else {
      assert (t + u)[1..] == t[1..] + u;
      AtParts(s, pos + 1, t[1..], u);
    }
  }

  lemma Unescape()
    ensures 0x5E as Byte ^ 0x20 == DELIMITER && 0x5D as Byte ^ 0x20 == ESCAPE
  {}

  lemma ReadByteStuffed(s: seq<Byte>, pos: nat, b: Byte)
    requires At(s, pos, StuffByte(b))
    ensures ReadByte(s, pos) == (Some(b), pos + |StuffByte(b)|)
  {
    Unescape();
    assert StuffByte(b)[0] == s[pos];
    assert |StuffByte(b)| == 2 ==> StuffByte(b)[1] == s[pos + 1];
  }

  lemma ReadByteIsCanonical(s: seq<Byte>, pos: nat, b: Byte, next: nat)
    requires ReadByte(s, pos) == (Some(b), next)
    ensures At(s, pos, StuffByte(b)) && next == pos + |StuffByte(b)|
  {
    Unescape();
  }

  lemma ReadCons(s: seq<Byte>, pos: nat, b: Byte, next: nat, n: nat)
    requires ReadByte(s, pos) == (Some(b), next)
    ensures
      var rest := ReadBytes(s, next, n);
      ReadBytes(s, pos, n + 1) == Read(rest.ok, [b] + rest.data, rest.pos)
  {}

  /** Reading stuffed bytes gives the bytes back, and uses up exactly the stuffed ones. */
  lemma {:induction false} ReadStuffed(s: seq<Byte>, pos: nat, bs: seq<Byte>)
    requires At(s, pos, Stuff(bs))
    ensures ReadBytes(s, pos, |bs|) == Read(true, bs, pos + |Stuff(bs)|)
    decreases |bs|
  {
    if bs != [] {
      var b, rest := bs[0], bs[1..];
      var next := FirstByte(s, pos, b, Stuff(rest));
      ReadStuffed(s, next, rest);
      ReadCons(s, pos, b, next, |rest|);
      assert [b] + rest == bs;
    }
  }

  lemma FirstByte(s: seq<Byte>, pos: nat, b: Byte, tail: seq<Byte>) returns (next: nat)
    requires At(s, pos, StuffByte(b) + tail)
    ensures ReadByte(s, pos) == (Some(b), next) && next == pos + |StuffByte(b)| && At(s, next, tail)
  {
    AtParts(s, pos, StuffByte(b), tail);
    ReadByteStuffed(s, pos, b);
    next := pos + |StuffByte(b)|;
  }

  /** A filled buffer was read from exactly its own stuffing: no two byte strings decode alike. */
  lemma {:induction false} ReadIsCanonical(s: seq<Byte>, pos: nat, n: nat)
    requires pos <= |s| && ReadBytes(s, pos, n).ok
    ensures At(s, pos, Stuff(ReadBytes(s, pos, n).data))
    ensures ReadBytes(s, pos, n).pos == pos + |Stuff(ReadBytes(s, pos, n).data)|
    decreases n
  {
    if n > 0 {
      var (byte, next) := ReadByte(s, pos);
      var b, rest := byte.value, ReadBytes(s, next, n - 1);
      ReadByteIsCanonical(s, pos, b, next);
      ReadIsCanonical(s, next, n - 1);
      AtParts(s, pos, StuffByte(b), Stuff(rest.data));
      assert ([b] + rest.data)[1..] == rest.data;
    }
  }

  /** Reads the part of the frame that lies at `pos`, before `tail`. */
  lemma ReadPart(s: seq<Byte>, pos: nat, bs: seq<Byte>, tail: seq<Byte>) returns (next: nat)
    requires At(s, pos, Stuff(bs) + tail)
    ensures next == pos + |Stuff(bs)|
    ensures ReadBytes(s, pos, |bs|) == Read(true, bs, next) && At(s, next, tail)
  {
    next := pos + |Stuff(bs)|;
    AtParts(s, pos, Stuff(bs), tail);
    ReadStuffed(s, pos, bs);
  }
}
