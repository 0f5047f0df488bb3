/** The drivers that write and replay m3tel files, proved against module M3File. */
module M3Drivers {
  import opened Telemetry
  import opened Can
  import opened CanInterface
  import opened M3File

  /** The writing driver's state: the timestamp of the packet being sent, and the file. */
  class RecordWriter {
    var lastTimestamp: nat
    var file: seq<Byte>

    constructor ()
      ensures file == [] && lastTimestamp == 0
    {
      lastTimestamp := 0;
      file := [];
    }

    /** `can_send`: one record. */
    method CanSend(f: Frame)
      requires Fits(f) && lastTimestamp < 0x1_0000_0000
      modifies this`file
      ensures file == old(file) + RecordOf(f, lastTimestamp)
    {
      var data := new Byte[8];
      var i := 0;
      while i < |f.data|
        invariant 0 <= i <= |f.data| && data[..i] == f.data[..i]
        modifies data
      {
        data[i] := f.data[i];
        i := i + 1;
      }
      while i < 8
        invariant |f.data| <= i <= 8 && data[..i] == f.data + Zeros(i - |f.data|)
        modifies data
      {
        data[i] := 0;
        i := i + 1;
        assert data[..i] == data[..i - 1] + [0] && Zeros(i - |f.data|) == Zeros(i - 1 - |f.data|) + [0];
      }
      assert data[..] == data[..8];
      file := file + (Le16(f.id) + [0, ToByte(|f.data|)] + data[..] + Le32(lastTimestamp));
    }

    /** `receive_packet`: the frames of one packet, all stamped with its timestamp. */
    method ReceivePacket(can: Interface, p: Packet)
      requires can.Valid() && WellFormed(can.mappings) && p.Valid()
      modifies this
      ensures (forall f :: f in Can.Send(can.mappings, p) ==> Fits(f))
      ensures file == old(file) + Records(Can.Send(can.mappings, p), p.timestamp)
    {
      hide Can.Send, RecordOf, Records;
      lastTimestamp := p.timestamp;
      SentFramesFit(can.mappings, p);
      var frames := can.Send(p);
      ghost var whole := file + Records(frames, p.timestamp);
      var i := 0;
      while i < |frames|
        invariant 0 <= i <= |frames| && lastTimestamp == p.timestamp
        invariant file + Records(frames[i..], p.timestamp) == whole
      {
        RecordsCons(frames[i..], p.timestamp);
        ghost var before := file;
        assert frames[i..][1..] == frames[i + 1..];
        CanSend(frames[i]);
        assert before + (RecordOf(frames[i], p.timestamp) + Records(frames[i + 1..], p.timestamp))
            == before + RecordOf(frames[i], p.timestamp) + Records(frames[i + 1..], p.timestamp);
        i := i + 1;
      }
      RecordsNil(frames[i..], p.timestamp);
      assert file + [] == file;
    }

    /** Packets received one after the other. */
    method ReceiveAll(can: Interface, ps: seq<Packet>)
      requires can.Valid() && WellFormed(can.mappings) && AllPackets(ps)
      modifies this
      ensures file == old(file) + FileOf(can.mappings, ps)
    {
      hide Can.Send, Records;
      ghost var t, whole := can.mappings, file + FileOf(can.mappings, ps);
      var i := 0;
      while i < |ps|
        invariant 0 <= i <= |ps|
        invariant file + FileOf(t, ps[i..]) == whole
      {
        assert ps[i..][0] == ps[i] && ps[i..][1..] == ps[i + 1..];
        ghost var before := file;
        ReceivePacket(can, ps[i]);
        assert before + Records(Can.Send(t, ps[i]), ps[i].timestamp) + FileOf(t, ps[i + 1..])
            == before + (Records(Can.Send(t, ps[i]), ps[i].timestamp) + FileOf(t, ps[i + 1..]));
        i := i + 1;
      }
    }
  }

  lemma {:induction false} RecordsCons(fs: seq<Frame>, timestamp: nat)
    requires timestamp < 0x1_0000_0000 && (forall f :: f in fs ==> Fits(f)) && fs != []
    ensures Records(fs, timestamp) == RecordOf(fs[0], timestamp) + Records(fs[1..], timestamp)
  {}

  lemma {:induction false} RecordsNil(fs: seq<Frame>, timestamp: nat)
    requires timestamp < 0x1_0000_0000 && fs == []
    ensures Records(fs, timestamp) == []
  {}

  lemma {:induction false} RunCons(t: seq<Mapping>, slots: seq<Slot>, a: Arrival, rest: seq<Arrival>)
    requires SlotsValid(t, slots)
    ensures
      var (next, out) := Can.Receive(t, slots, a);
      Run(t, slots, [a] + rest) == (Run(t, next, rest).0, out + Run(t, next, rest).1)
  {
    hide Can.Receive;
    assert ([a] + rest)[1..] == rest;
  }

  lemma {:induction false} RunNil(t: seq<Mapping>, slots: seq<Slot>)
    requires SlotsValid(t, slots)
    ensures Run(t, slots, []) == (slots, [])
  {}

  lemma {:induction false} FullRecord(file: seq<Byte>, beyond: Memory)
    ensures |file| >= RECORD_SIZE ==>
      && ArrivalsIn(file, beyond) == [ArrivalIn(file[..RECORD_SIZE], beyond)] + ArrivalsIn(file[RECORD_SIZE..], beyond)
      && Rest(file) == Rest(file[RECORD_SIZE..])
    ensures |file| < RECORD_SIZE ==> ArrivalsIn(file, beyond) == [] && Rest(file) == file
  {}

  /** The struct after a read that fell short: the bytes there were, over what it held. */
  function Overwritten(rest: seq<Byte>, junk: seq<Byte>): (bs: seq<Byte>)
    requires |rest| <= |junk|
    ensures |bs| == |junk| && forall i :: 0 <= i < |bs| ==> bs[i] == if i < |rest| then rest[i] else junk[i]
  {
    rest + junk[|rest|..]
  }

  /**
   The loop of the replaying driver, over any file. `sent` is what the full records give. The stream reports its end only
   after a read that falls short, so the loop turns once more, on what was read then over the `junk` that the struct
   held; `extra` is what that turn gives.
   */
  method Replay(can: Interface, file: seq<Byte>, junk: seq<Byte>, beyond: Memory)
    returns (sent: seq<Delivery>, extra: seq<Delivery>)
    requires can.Valid() && can.initialized && |junk| == RECORD_SIZE
    modifies can.dataBuffers, can.validIdx
    ensures can.Valid() && can.initialized
    ensures
      var full := Run(can.mappings, old(can.Slots()), ArrivalsIn(file, beyond));
      && sent == full.1
      && (can.Slots(), extra) == Can.Receive(can.mappings, full.0, ArrivalIn(Overwritten(Rest(file), junk), beyond))
  {
    hide Can.Receive, Run, ArrivalsIn, ArrivalIn, SlotsValid, Rest;
    ghost var t, whole := can.mappings, Run(can.mappings, can.Slots(), ArrivalsIn(file, beyond));
    sent, extra := [], [];
    var rest, good := file, true;
    assert [] + whole.1 == whole.1;
    while good
      invariant can.Valid() && can.initialized
      invariant good ==>
        var more := Run(t, can.Slots(), ArrivalsIn(rest, beyond));
        whole == (more.0, sent + more.1) && Rest(rest) == Rest(file)
      invariant !good ==>
        sent == whole.1 && (can.Slots(), extra) == Can.Receive(t, whole.0, ArrivalIn(Overwritten(Rest(file), junk), beyond))
      decreases |rest|, good
    {
      FullRecord(rest, beyond);
      if |rest| >= RECORD_SIZE {
        var a := ArrivalIn(rest[..RECORD_SIZE], beyond);
        RunCons(t, can.Slots(), a, ArrivalsIn(rest[RECORD_SIZE..], beyond));
        ghost var before := sent;
        var out := can.Receive(a);
        sent := sent + out;
        rest := rest[RECORD_SIZE..];
        ghost var more := Run(t, can.Slots(), ArrivalsIn(rest, beyond)).1;
        assert before + (out + more) == before + out + more;
      } else {
        RunNil(t, can.Slots());
        assert sent + [] == sent;
        extra := can.Receive(ArrivalIn(Overwritten(rest, junk), beyond));
        good := false;
      }
    }
  }

  /**
   Packets written to an m3tel file and replayed into a fresh interface; and what the loop's last turn adds, which finds
   `junk` in the struct. Where every representable packet comes back, that turn gives a packet exactly when what it finds is
   delivered at once; and if it finds the last record again, it gives the last packet again if and only if `ComesTwice`.
   */
  method RecordAndReplay(mappings: seq<Mapping>, ps: seq<Packet>, junk: seq<Byte>, beyond: Memory)
    returns (results: seq<Packet>, extra: seq<Packet>)
    requires WellFormed(mappings) && AllPackets(ps) && |junk| == RECORD_SIZE
    ensures results == Representables(mappings, ps) <==> forall p :: p in ps && Wrapped(p) ==> !Hits(mappings, p)
    ensures |extra| <= 1
    ensures results == Representables(mappings, ps) ==>
      (extra != [] <==> DeliversAtOnce(mappings, ArrivalIn(junk, beyond).frame))
    ensures var file := FileOf(mappings, ps);
      |file| >= RECORD_SIZE && junk == file[|file| - RECORD_SIZE..] ==>
        && LastSent(mappings, ps).Some?
        && var p := LastSent(mappings, ps).value;
           && (extra == [p] <==> ComesTwice(mappings, p))
           && (!ComesTwice(mappings, p) && !(IsM3(p.id) && Hits(mappings, p)) ==> extra == [])
  {
    hide Run, Representables, Wrapped, Hits, FileOf, ArrivalsIn, Can.Mapping.Packets, Can.SlotStep, Stray, ArrivalIn, ComesTwice,
         DeliversAtOnce;
    var out := new Interface(mappings);
    out.Init();
    var writer := new RecordWriter();
    writer.ReceiveAll(out, ps);
    assert [] + FileOf(mappings, ps) == FileOf(mappings, ps);
    var inp := new Interface(mappings);
    inp.Init();
    ghost var slots := inp.Slots();
    FileRoundTrip(mappings, slots, ps, beyond);
    var sent, last := Replay(inp, writer.file, junk, beyond);
    results := seq(|sent|, i requires 0 <= i < |sent| => sent[i].packet);
    extra := seq(|last|, i requires 0 <= i < |last| => last[i].packet);
    assert results == PacketsOf(sent) && extra == PacketsOf(last);
    LastTurn(mappings, slots, ps, junk, beyond);
  }

  lemma {:induction false} LastTurn(t: seq<Mapping>, slots: seq<Slot>, ps: seq<Packet>, junk: seq<Byte>, beyond: Memory)
    requires WellFormed(t) && SlotsValid(t, slots) && Idle(slots) && AllPackets(ps) && |junk| == RECORD_SIZE
    ensures
      var full := Run(t, slots, ArrivalsIn(FileOf(t, ps), beyond));
      var a := ArrivalIn(Overwritten(Rest(FileOf(t, ps)), junk), beyond);
      var extra := PacketsOf(Can.Receive(t, full.0, a).1);
      && |extra| <= 1
      && ((forall p :: p in ps && Wrapped(p) ==> !Hits(t, p)) ==>
            (extra != [] <==> DeliversAtOnce(t, ArrivalIn(junk, beyond).frame)))
      && (var file := FileOf(t, ps);
          |file| >= RECORD_SIZE && junk == file[|file| - RECORD_SIZE..] ==>
            && LastSent(t, ps).Some?
            && var p := LastSent(t, ps).value;
               && (extra == [p] <==> ComesTwice(t, p))
               && (!ComesTwice(t, p) && !(IsM3(p.id) && Hits(t, p)) ==> extra == []))
  {
    hide Run, Representables, Wrapped, Hits, FileOf, ArrivalsIn, Can.Receive, ArrivalIn, ComesTwice, DeliversAtOnce, Idle, LastSent, Rest,
         PacketsOf;
    FileHoldsWhatWasSent(t, ps, beyond);
    assert Overwritten([], junk) == junk;
    var next, a := Run(t, slots, ArrivalsIn(FileOf(t, ps), beyond)).0, ArrivalIn(junk, beyond);
    AtMostOne(t, next, a);
    if forall p :: p in ps && Wrapped(p) ==> !Hits(t, p) {
      WithoutHitsAllComeBack(t, slots, ps);
      HasRoomAlways(junk, beyond);
      IdleTurn(t, next, a);
    }
    var file := FileOf(t, ps);
    if |file| >= RECORD_SIZE && junk == file[|file| - RECORD_SIZE..] {
      if LastSent(t, ps) == None {
        NothingSent(t, ps);
      } else {
        LastRecordAgain(t, slots, ps, beyond);
      }
    }
  }

  lemma AtMostOne(t: seq<Mapping>, slots: seq<Slot>, a: Arrival)
    requires SlotsValid(t, slots)
    ensures |Can.Receive(t, slots, a).1| <= 1
    ensures |PacketsOf(Can.Receive(t, slots, a).1)| == |Can.Receive(t, slots, a).1|
  {
    hide Can.SlotStep, Stray;
  }

  lemma HasRoomAlways(bs: seq<Byte>, beyond: Memory)
    requires |bs| == RECORD_SIZE
    ensures ArrivalIn(bs, beyond).hasRoom
  {}
}
