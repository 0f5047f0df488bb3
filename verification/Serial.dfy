/** The serial interface: packets over byte streams, proved against the format of module Framing. */
module Serial {
  import opened Telemetry
  import opened Framing
  import opened FramingTheorems
  import opened FileStreams
  import opened SerialErrors
  import Resync
  import Crc16
  import Crc32

  // ----- sending -----

  /** The bytes of `now` that were put after `before` are the whole of `bs`, or, after a failure, a part of it. */
  ghost predicate Sent(ok: bool, before: seq<Byte>, now: seq<Byte>, bs: seq<Byte>) {
    before <= now <= before + bs && (ok ==> now == before + bs)
  }

  lemma SentOneMore(ok: bool, before: seq<Byte>, middle: seq<Byte>, now: seq<Byte>, u: seq<Byte>, v: seq<Byte>)
    requires middle == before + u && Sent(ok, middle, now, v)
    ensures Sent(ok, before, now, u + v)
  {
    assert before + u + v == before + (u + v);
  }

  lemma SentPart(before: seq<Byte>, now: seq<Byte>, u: seq<Byte>, v: seq<Byte>)
    requires Sent(false, before, now, u)
    ensures Sent(false, before, now, u + v)
  {
    assert before + u <= before + (u + v);
  }

  method PutStuffed(out: OutputStream, byte: Byte) returns (ok: bool)
    requires out.Valid()
    modifies out, out.buffer
    ensures out.Valid() && (out.reliable ==> ok)
    ensures Sent(ok, old(out.Contents()), out.Contents(), StuffByte(byte))
  {
    if byte == 0x7E || byte == 0x7D {
      ok := out.Put(0x7D);
      if !ok {
        return;
      }
      ok := out.Put(if byte == 0x7E then 0x5E else 0x5D);
    } else {
      ok := out.Put(byte);
    }
  }

  /** `serial_interface_write_bytes_to_buffer` */
  method WriteBytesToBuffer(out: OutputStream, data: seq<Byte>) returns (ok: bool)
    requires out.Valid()
    modifies out, out.buffer
    ensures out.Valid() && (out.reliable ==> ok)
    ensures Sent(ok, old(out.Contents()), out.Contents(), Stuff(data))
  {
    ghost var before := out.Contents();
    var i := 0;
    while i < |data|
      invariant 0 <= i <= |data| && out.Valid()
      invariant out.Contents() == before + Stuff(data[..i])
    {
      ghost var middle := out.Contents();
      ok := PutStuffed(out, data[i]);
      StuffOneMore(data, i);
      SentOneMore(ok, before, middle, out.Contents(), Stuff(data[..i]), StuffByte(data[i]));
      if !ok {
        SentPart(before, out.Contents(), Stuff(data[..i + 1]), Stuff(data[i + 1..]));
        return;
      }
      i := i + 1;
    }
    assert data[..i] == data;
    ok := true;
  }

  lemma StuffSingle(b: Byte)
    ensures Stuff([b]) == StuffByte(b)
  {
    assert Stuff([b]) == StuffByte(b) + Stuff([b][1..]);
  }

  lemma StuffSnoc(bs: seq<Byte>, b: Byte)
    ensures Stuff(bs + [b]) == Stuff(bs) + StuffByte(b)
  {
    StuffConcat(bs, [b]);
    StuffSingle(b);
  }

  lemma {:induction false} StuffOneMore(data: seq<Byte>, i: nat)
    requires i < |data|
    ensures Stuff(data[..i + 1]) == Stuff(data[..i]) + StuffByte(data[i])
    ensures Stuff(data) == Stuff(data[..i + 1]) + Stuff(data[i + 1..])
  {
    hide Framing.Stuff, Framing.StuffByte;
    StuffSnoc(data[..i], data[i]);
    assert data[..i] + [data[i]] == data[..i + 1];
    StuffConcat(data[..i + 1], data[i + 1..]);
    assert data[..i + 1] + data[i + 1..] == data;
  }

  lemma SentPrefix(ok: bool, before: seq<Byte>, now: seq<Byte>, done: seq<Byte>, part: seq<Byte>, rest: seq<Byte>, whole: seq<Byte>)
    requires whole == done + part + rest && Sent(ok, before + done, now, part)
    ensures before <= now <= before + whole
    ensures ok ==> now == before + (done + part)
  {
    assert before + done + part + rest == before + whole;
    assert before <= before + done;
  }

  lemma FrameInParts(p: Packet)
    requires p.Valid()
    ensures
      var h := HeaderBytes(p);
      Frame(CRCS, p) ==
        [DELIMITER] + Stuff(h) + Stuff(HeaderCheck(h)) + Stuff(p.payload) + Stuff(PayloadCheck(p.payload))
  {
    hide HeaderCheck, PayloadCheck, Framing.Stuff, Telemetry.HeaderBytes;
    StuffParts(HeaderBytes(p), HeaderCheck(HeaderBytes(p)), p.payload, PayloadCheck(p.payload));
  }

  /** Sends the next part of `whole`, `done` having been sent since `before`. */
  method SendPart(out: OutputStream, data: seq<Byte>, ghost before: seq<Byte>, ghost done: seq<Byte>, ghost rest: seq<Byte>,
                  ghost whole: seq<Byte>)
    returns (ok: bool)
    requires out.Valid() && out.Contents() == before + done && whole == done + Stuff(data) + rest
    modifies out, out.buffer
    ensures out.Valid() && (out.reliable ==> ok)
    ensures before <= out.Contents() <= before + whole
    ensures ok ==> out.Contents() == before + (done + Stuff(data))
  {
    ok := WriteBytesToBuffer(out, data);
    SentPrefix(ok, before, out.Contents(), done, Stuff(data), rest, whole);
  }

  /** `serial_interface_send_packet`: the whole frame goes out, or, if the stream times out, a part of it. */
  method SendPacket(out: OutputStream, table: array<bv32>, p: Packet) returns (ok: bool)
    requires out.Valid() && p.Valid() && Crc32.IsLookup(table[..])
    modifies out, out.buffer
    ensures out.Valid() && (out.reliable ==> ok)
    ensures Sent(ok, old(out.Contents()), out.Contents(), Frame(CRCS, p))
    ensures ok ==> out.file == out.Contents()
  {
    hide Framing.Stuff, Telemetry.HeaderBytes, Crc16.Checksum, Crc32.Checksum, Framing.Frame, FileStreams.OutputStream.Contents;
    hide Crc32.IsLookup;
    ghost var before, whole := out.Contents(), Frame(CRCS, p);
    var header := HeaderBytes(p);
    FrameInParts(p);
    ghost var h, c := Stuff(header), Stuff(HeaderCheck(header));
    ghost var l, d := Stuff(p.payload), Stuff(PayloadCheck(p.payload));
    ghost var d0 := [DELIMITER];

    ok := out.Put(0x7E);
    if !ok {
      return;
    }
    ok := SendPart(out, header, before, d0, c + l + d, whole);
    if !ok {
      return;
    }
    var headerCrc := Crc16.Compute(header);
    ok := SendPart(out, Word16(headerCrc), before, d0 + h, l + d, whole);
    if !ok {
      return;
    }
    ok := SendPart(out, p.payload, before, d0 + h + c, d, whole);
    if !ok {
      return;
    }
    var payloadCrc := Crc32.Compute(table, p.payload);
    ok := SendPart(out, Word32(payloadCrc), before, d0 + h + c + l, [], whole);
    if !ok {
      return;
    }
    ok := out.Flush();
  }

  /** Packets sent to a file one after the other: what `reader_thread` does with the packets it receives. */
  method SendAll(out: OutputStream, table: array<bv32>, ps: seq<Packet>)
    requires out.Valid() && out.reliable && AllValid(ps) && Crc32.IsLookup(table[..])
    modifies out, out.buffer
    ensures out.Valid() && out.Contents() == old(out.Contents()) + Frames(CRCS, ps)
    ensures ps != [] ==> out.file == out.Contents()
  {
    hide Framing.Frame, FileStreams.OutputStream.Contents, Crc32.IsLookup;
    ghost var before := out.Contents();
    var i := 0;
    while i < |ps|
      invariant 0 <= i <= |ps| && out.Valid()
      invariant out.Contents() + Frames(CRCS, ps[i..]) == before + Frames(CRCS, ps)
      invariant i > 0 ==> out.file == out.Contents()
    {
      assert ps[i..][0] == ps[i] && ps[i..][1..] == ps[i + 1..];
      ghost var middle := out.Contents();
      var ok := SendPacket(out, table, ps[i]);
      assert middle + Frame(CRCS, ps[i]) + Frames(CRCS, ps[i + 1..]) == middle + (Frame(CRCS, ps[i]) + Frames(CRCS, ps[i + 1..]));
      i := i + 1;
    }
  }

  // ----- receiving -----

  /** What a buffer holds after a read stored `data` at its start. */
  ghost predicate Stored(buffer: seq<Byte>, before: seq<Byte>, data: seq<Byte>) {
    |data| <= |before| && buffer == data + before[|data|..]
  }

  /** The whole of a read, when `got` has been read and the rest is to come. */
  ghost function Continue(got: seq<Byte>, rest: Read): Read {
    rest.(data := got + rest.data)
  }

  lemma ReadStep(s: seq<Byte>, pos: nat, n: nat, got: seq<Byte>)
    requires n > 0
    ensures
      var (b, next) := ReadByte(s, pos);
      Continue(got, ReadBytes(s, pos, n)) ==
        if b.Some? then Continue(got + [b.value], ReadBytes(s, next, n - 1)) else Read(false, got, next)
  {
    var (b, next) := ReadByte(s, pos);
    if b.Some? {
      assert got + ([b.value] + ReadBytes(s, next, n - 1).data) == got + [b.value] + ReadBytes(s, next, n - 1).data;
    }
  }

  /** The body of the loop of `serial_interface_read_bytes_to_buffer`: one byte of content, unless the code gives up. */
  method GetByte(inp: InputStream) returns (r: Option<Byte>)
    requires inp.Valid()
    modifies inp, inp.buffer
    ensures inp.Valid() && (r, inp.position) == ReadByte(inp.file, old(inp.position))
  {
    var byte := inp.Get();
    if byte == 0x7E {
      return None;
    }
    if byte == 0x7D {
      var next := inp.Get();
      if next != 0x5E && next != 0x5D {
        return None;
      }
      return Some(next ^ 0x20);
    }
    return Some(byte);
  }

  /** `serial_interface_read_bytes_to_buffer` */
  method ReadBytesToBuffer(inp: InputStream, buffer: array<Byte>, length: nat) returns (ok: bool)
    requires inp.Valid() && buffer != inp.buffer && length <= buffer.Length
    modifies inp, inp.buffer, buffer
    ensures inp.Valid()
    ensures
      var r := ReadBytes(inp.file, old(inp.position), length);
      ok == r.ok && inp.position == r.pos && Stored(buffer[..], old(buffer[..]), r.data)
  {
    hide Framing.ReadBytes, Framing.ReadByte, FileStreams.InputStream.Valid;
    ghost var before, whole := buffer[..], ReadBytes(inp.file, inp.position, length);
    ghost var got: seq<Byte> := [];
    var i := 0;
    while i < length
      invariant 0 <= i <= length && inp.Valid() && |got| == i
      invariant whole == Continue(got, ReadBytes(inp.file, inp.position, length - i))
      invariant Stored(buffer[..], before, got)
    {
      ReadStep(inp.file, inp.position, length - i, got);
      var byte := GetByte(inp);
      if byte == None {
        return false;
      }
      StoreOneMore(buffer[..], before, got, byte.value);
      buffer[i] := byte.value;
      got := got + [byte.value];
      i := i + 1;
    }
    ReadNothing(inp.file, inp.position);
    assert got + [] == got;
    ok := true;
  }

  lemma StoreOneMore(buffer: seq<Byte>, before: seq<Byte>, got: seq<Byte>, b: Byte)
    requires Stored(buffer, before, got) && |got| < |before|
    ensures Stored(buffer[|got| := b], before, got + [b])
  {}

  lemma {:induction false} PaddedToItsLength(bs: seq<Byte>)
    ensures Padded(bs, |bs|) == bs
  {
    if bs != [] {
      PaddedToItsLength(bs[1..]);
    }
  }

  lemma StoredIsOverlay(buffer: seq<Byte>, before: seq<Byte>, data: seq<Byte>)
    requires Stored(buffer, before, data)
    ensures buffer == Overlay(data, before, |before|)
    ensures before == [0, 0, 0, 0] ==> buffer == Overlay(data, [], 4)
    ensures |data| == |buffer| ==> buffer == data
  {
    PaddedToItsLength(before);
    FourZeros();
  }

  /**
   `serial_interface_read_frame`. `hasRoom` tells whether the heap can serve this call; `junk` is what
   the memory that it returns happened to hold.
   */
  method ReadFrame(inp: InputStream, table: array<bv32>, hasRoom: bool) returns (packet: Option<Packet>, ghost junk: seq<Byte>)
    requires inp.Valid() && Crc32.IsLookup(table[..])
    modifies inp, inp.buffer
    ensures inp.Valid()
    ensures (packet, inp.position) == Framing.ReadFrame(CRCS, inp.file, old(inp.position), Memory(hasRoom, junk))
  {
    hide Framing.ReadBytes, Framing.Overlay, Crc16.Checksum, Crc32.Checksum, Telemetry.HeaderOf, FileStreams.InputStream.Valid;
    hide Crc32.IsLookup, Word16, Word32;
    ghost var parts := FrameReads(inp.file, inp.position);
    junk := [];

    var header := new Byte[8];
    ghost var before := header[..];
    var ok := ReadBytesToBuffer(inp, header, 8);
    if !ok {
      return None, junk;
    }
    StoredIsOverlay(header[..], before, parts.header.data);

    var headerCrc := new Byte[2];
    before := headerCrc[..];
    ok := ReadBytesToBuffer(inp, headerCrc, 2);
    if !ok {
      return None, junk;
    }
    StoredIsOverlay(headerCrc[..], before, parts.headerCrc.data);
    var expected := Crc16.Compute(header[..]);
    if headerCrc[..] != Word16(expected) {
      return None, junk;
    }

    var h := HeaderOf(header[..]);
    if h.length > MAX_TELEMETRY_PAYLOAD_SIZE || !hasRoom {
      return None, junk;
    }
    packet, junk := ReadPayload(inp, table, h);
  }

  /** The rest of `serial_interface_read_frame`, once there is memory for the packet. */
  method ReadPayload(inp: InputStream, table: array<bv32>, h: Header) returns (packet: Option<Packet>, ghost junk: seq<Byte>)
    requires inp.Valid() && Crc32.IsLookup(table[..])
    modifies inp, inp.buffer
    ensures inp.Valid()
    ensures
      var l := ReadBytes(inp.file, old(inp.position), h.length);
      var d := ReadBytes(inp.file, l.pos, 4);
      var payload := Overlay(l.data, junk, h.length);
      && inp.position == d.pos
      && packet == if Overlay(d.data, [], 4) == PayloadCheck(payload) then Some(Packet(h.id, h.timestamp, payload)) else None
  {
    hide Framing.ReadBytes, Framing.Overlay, Crc32.Checksum, Telemetry.HeaderOf, FileStreams.InputStream.Valid;
    hide Crc32.IsLookup, Word32;
    ghost var start := inp.position;
    ghost var l := ReadBytes(inp.file, inp.position, h.length);
    var payload := new Byte[h.length];
    junk := payload[..];
    var ignored := ReadBytesToBuffer(inp, payload, h.length);
    StoredIsOverlay(payload[..], junk, l.data);

    var payloadCrc := new Byte[4](_ => 0);
    assert payloadCrc[..] == [0, 0, 0, 0];
    ghost var d := ReadBytes(inp.file, inp.position, 4);
    ignored := ReadBytesToBuffer(inp, payloadCrc, 4);
    StoredIsOverlay(payloadCrc[..], [0, 0, 0, 0], d.data);
    var expected := Crc32.Compute(table, payload[..]);
    if payloadCrc[..] != Word32(expected) {
      return None, junk;
    }
    return Some(Packet(h.id, h.timestamp, payload[..])), junk;
  }

  /** `serial_interface_next_packet` */
  method NextPacket(inp: InputStream, table: array<bv32>, hasRoom: bool) returns (packet: Option<Packet>, ghost junk: seq<Byte>)
    requires inp.Valid() && Crc32.IsLookup(table[..])
    modifies inp, inp.buffer
    ensures inp.Valid()
    ensures (packet, inp.position) == Framing.NextPacket(CRCS, inp.file, old(inp.position), Memory(hasRoom, junk))
  {
    hide Framing.ReadFrame, FileStreams.InputStream.Valid;
    ghost var start := inp.position;
    var byte := inp.Get();
    while byte != 0x7E
      invariant inp.Valid() && inp.position > start && byte == Get(inp.file, inp.position - 1)
      invariant Skip(inp.file, start) == Skip(inp.file, inp.position - 1)
      decreases if byte != 0x7E then |inp.file| - inp.position + 1 else 0
    {
      byte := inp.Get();
    }
    packet, junk := ReadFrame(inp, table, hasRoom);
  }

  // ----- recording and replaying -----

  /** At the end of the file every call returns nothing. */
  lemma NothingLeft(k: Checks, s: seq<Byte>, pos: nat, m: Memory)
    requires pos >= |s|
    ensures Framing.NextPacket(k, s, pos, m) == (None, pos + 2)
  {
    hide Framing.ReadBytes;
    SkipAt(s, pos);
    NothingAfterTheEnd(s, pos + 1, 8);
  }

  lemma {:induction false} NothingLeftForEver(k: Checks, s: seq<Byte>, pos: nat, ms: seq<Memory>)
    requires pos >= |s|
    ensures Calls(k, s, pos, ms).0 == seq(|ms|, _ => None)
    decreases |ms|
  {
    hide Framing.NextPacket;
    if ms != [] {
      NothingLeft(k, s, pos, ms[0]);
      NothingLeftForEver(k, s, pos + 2, ms[1..]);
    }
  }

  /** A file of packets sent is read back as exactly those packets, in order, and then nothing for ever. */
  lemma RecordedIsReplayed(ps: seq<Packet>, room: seq<Memory>, more: seq<Memory>)
    requires AllValid(ps) && |room| == |ps| && HaveRoom(room)
    ensures Calls(CRCS, Frames(CRCS, ps), 0, room + more).0 == Somes(ps) + seq(|more|, _ => None)
  {
    hide Framing.NextPacket, Framing.At, Framing.Frame;
    var s := Frames(CRCS, ps);
    AtIsSlice(s, 0, s);
    RoundTrip(CRCS, s, 0, ps, room);
    Resync.CallsConcat(CRCS, s, 0, room, more);
    NothingLeftForEver(CRCS, s, |s|, more);
  }

  /** Calls `next_packet` as often as `room` has entries: what the reading driver's loop does. */
  method ReadAll(inp: InputStream, table: array<bv32>, room: seq<bool>) returns (results: seq<Option<Packet>>, ghost ms: seq<Memory>)
    requires inp.Valid() && Crc32.IsLookup(table[..])
    modifies inp, inp.buffer
    ensures inp.Valid() && |ms| == |room| && forall i :: 0 <= i < |room| ==> ms[i].hasRoom == room[i]
    ensures (results, inp.position) == Calls(CRCS, inp.file, old(inp.position), ms)
  {
    hide Framing.NextPacket, FileStreams.InputStream.Valid, Crc32.IsLookup;
    results, ms := [], [];
    ghost var start := inp.position;
    var i := 0;
    while i < |room|
      invariant 0 <= i <= |room| && inp.Valid() && |ms| == i
      invariant forall j :: 0 <= j < i ==> ms[j].hasRoom == room[j]
      invariant (results, inp.position) == Calls(CRCS, inp.file, start, ms)
    {
      ghost var before := inp.position;
      var packet;
      ghost var junk;
      packet, junk := NextPacket(inp, table, room[i]);
      CallsSnoc(CRCS, inp.file, start, ms, Memory(room[i], junk));
      results := results + [packet];
      ms := ms + [Memory(room[i], junk)];
      i := i + 1;
    }
  }

  lemma CallsSnoc(k: Checks, s: seq<Byte>, pos: nat, ms: seq<Memory>, m: Memory)
    ensures
      var first := Calls(k, s, pos, ms);
      var last := Framing.NextPacket(k, s, first.1, m);
      Calls(k, s, pos, ms + [m]) == (first.0 + [last.0], last.1)
  {
    hide Framing.NextPacket;
    var first := Calls(k, s, pos, ms);
    Resync.CallsConcat(k, s, pos, ms, [m]);
    assert [m][1..] == [];
    assert Calls(k, s, first.1, [m]).0 == [Framing.NextPacket(k, s, first.1, m).0];
  }

  lemma ReplayWithRoom(ps: seq<Packet>, ms: seq<Memory>)
    requires AllValid(ps) && |ps| <= |ms| && HaveRoom(ms)
    ensures Calls(CRCS, Frames(CRCS, ps), 0, ms).0 == Somes(ps) + seq(|ms| - |ps|, _ => None)
  {
    hide Framing.Calls, Framing.Frames;
    RecordedIsReplayed(ps, ms[..|ps|], ms[|ps|..]);
    assert ms == ms[..|ps|] + ms[|ps|..];
  }

  method Record(table: array<bv32>, ps: seq<Packet>) returns (file: seq<Byte>)
    requires AllValid(ps) && Crc32.IsLookup(table[..])
    ensures file == Frames(CRCS, ps)
  {
    hide Framing.Frames, Crc32.IsLookup;
    var out := new OutputStream(true);
    SendAll(out, table, ps);
    var ok := out.Flush();
    file := out.file;
  }

  /** Packets sent to a file and read back from it are the packets sent, in order, and then nothing. */
  method RecordAndReplay(table: array<bv32>, ps: seq<Packet>, extra: nat) returns (results: seq<Option<Packet>>)
    requires AllValid(ps) && Crc32.IsLookup(table[..])
    ensures results == Somes(ps) + seq(extra, _ => None)
  {
    hide Framing.Calls, Framing.Frames, Crc32.IsLookup, Somes;
    var file := Record(table, ps);
    var inp := new InputStream(file);
    ghost var ms;
    results, ms := ReadAll(inp, table, seq(|ps| + extra, _ => true));
    ReplayWithRoom(ps, ms);
  }
}
