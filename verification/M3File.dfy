/**
 The m3tel file: CAN frames as 16-byte records, written from packets and replayed into packets.

 What comes back from a file is what went in, as far as CAN can represent it, exactly when no
 wrapped packet carries the CAN id of a mapping.
 */
module M3File {
  import opened Telemetry
  import opened Can
  import opened CanTheorems

  const RECORD_SIZE := 16

  // ----- records -----

  function Zeros(n: nat): (bs: seq<Byte>)
    ensures |bs| == n && forall i :: 0 <= i < n ==> bs[i] == 0
  {
    seq(n, _ => 0)
  }

  /** A frame fits a record. */
  predicate Fits(f: Frame) { f.id < 0x1_0000 && |f.data| <= 8 }

  /** The packed struct `can_send` writes: id, RTR, length, eight bytes of data, timestamp. */
  function RecordOf(f: Frame, timestamp: nat): (bs: seq<Byte>)
    requires Fits(f) && timestamp < 0x1_0000_0000
    ensures |bs| == RECORD_SIZE
  {
    Le16(f.id) + [0, ToByte(|f.data|)] + (f.data + Zeros(8 - |f.data|)) + Le32(timestamp)
  }

  /** Where the fields lie: each at its offset in the packed struct, low byte first, the data padded with zeros. */
  lemma RecordLayout(f: Frame, timestamp: nat)
    requires Fits(f) && timestamp < 0x1_0000_0000
    ensures
      var bs := RecordOf(f, timestamp);
      && f.id == IntOf(bs[0]) + 0x100 * IntOf(bs[1])
      && bs[2] == 0 && |f.data| == IntOf(bs[3])
      && (forall i :: 0 <= i < 8 ==> bs[4 + i] == if i < |f.data| then f.data[i] else 0)
      && timestamp == IntOf(bs[12]) + 0x100 * IntOf(bs[13]) + 0x1_0000 * (IntOf(bs[14]) + 0x100 * IntOf(bs[15]))
  {
    hide IntOf, ToByte, Le16, Le32, Zeros;
    var id, data, time := Le16(f.id), f.data + Zeros(8 - |f.data|), Le32(timestamp);
    FourParts(id, [0, ToByte(|f.data|)], data, time);
    Le16At(f.id);
    Le32At(timestamp);
    forall i | 0 <= i < 8 ensures data[i] == if i < |f.data| then f.data[i] else 0 {}
  }

  lemma FourParts(a: seq<Byte>, b: seq<Byte>, c: seq<Byte>, d: seq<Byte>)
    requires |a| == 2 && |b| == 2 && |c| == 8 && |d| == 4
    ensures
      var bs := a + b + c + d;
      && bs[0] == a[0] && bs[1] == a[1] && bs[2] == b[0] && bs[3] == b[1] && (forall i :: 0 <= i < 8 ==> bs[4 + i] == c[i])
      && bs[12] == d[0] && bs[13] == d[1] && bs[14] == d[2] && bs[15] == d[3]
  {}

  lemma Le16At(n: nat)
    requires n < 0x1_0000
    ensures n == IntOf(Le16(n)[0]) + 0x100 * IntOf(Le16(n)[1])
  {
    Le16RoundTrip(n);
  }

  lemma Le32At(n: nat)
    requires n < 0x1_0000_0000
    ensures var bs := Le32(n); n == IntOf(bs[0]) + 0x100 * IntOf(bs[1]) + 0x1_0000 * (IntOf(bs[2]) + 0x100 * IntOf(bs[3]))
  {
    hide IntOf, ToByte;
    Le16RoundTrip(n % 0x1_0000);
    Le16RoundTrip(n / 0x1_0000);
  }

  /** Memory behind a record, as far as a length byte can make the code read. */
  type Memory = bs: seq<Byte> | |bs| == 243 witness Zeros(243)

  /**
   What the reading driver takes from a record; the heap has room. A length byte above eight makes the code read on
   behind the eight data bytes: the timestamp, and then the memory `beyond` the record.
   */
  function ArrivalIn(bs: seq<Byte>, beyond: Memory): Arrival
    requires |bs| == RECORD_SIZE
  {
    Arrival(Frame(FromLe16(bs[0], bs[1]), (bs[4..] + beyond)[..IntOf(bs[3])]),
            FromLe32(FromLe16(bs[12], bs[13]), FromLe16(bs[14], bs[15])), true)
  }

  lemma {:induction false} RecordRoundTrip(f: Frame, timestamp: nat, beyond: Memory)
    requires Fits(f) && timestamp < 0x1_0000_0000
    ensures ArrivalIn(RecordOf(f, timestamp), beyond) == Arrival(f, timestamp, true)
  {
    hide Telemetry.ToByte, Zeros, FromLe16;
    var bs := RecordOf(f, timestamp);
    Le16RoundTrip(f.id);
    Le16RoundTrip(timestamp % 0x1_0000);
    Le16RoundTrip(timestamp / 0x1_0000);
    assert (bs[4..] + beyond)[..|f.data|] == f.data;
  }

  /** The frames of the full records of a file, whatever the file holds. */
  ghost function ArrivalsIn(file: seq<Byte>, beyond: Memory): seq<Arrival> {
    if |file| < RECORD_SIZE then []
    else [ArrivalIn(file[..RECORD_SIZE], beyond)] + ArrivalsIn(file[RECORD_SIZE..], beyond)
  }

  /** What is left of a file behind its last full record. */
  ghost function Rest(file: seq<Byte>): (rest: seq<Byte>)
    ensures |rest| < RECORD_SIZE
  {
    if |file| < RECORD_SIZE then file else Rest(file[RECORD_SIZE..])
  }

  ghost function Records(fs: seq<Frame>, timestamp: nat): seq<Byte>
    requires timestamp < 0x1_0000_0000 && forall f :: f in fs ==> Fits(f)
  {
    if fs == [] then [] else RecordOf(fs[0], timestamp) + Records(fs[1..], timestamp)
  }

  ghost function Stamped(fs: seq<Frame>, timestamp: nat): (out: seq<Arrival>)
    ensures |out| == |fs| && forall i :: 0 <= i < |fs| ==> out[i] == Arrival(fs[i], timestamp, true)
  {
    seq(|fs|, i requires 0 <= i < |fs| => Arrival(fs[i], timestamp, true))
  }

  lemma {:induction false} ReplayRecord(f: Frame, timestamp: nat, rest: seq<Byte>, beyond: Memory)
    requires Fits(f) && timestamp < 0x1_0000_0000
    ensures ArrivalsIn(RecordOf(f, timestamp) + rest, beyond) == [Arrival(f, timestamp, true)] + ArrivalsIn(rest, beyond)
    ensures Rest(RecordOf(f, timestamp) + rest) == Rest(rest)
  {
    hide RecordOf, ArrivalIn;
    var r := RecordOf(f, timestamp);
    RecordRoundTrip(f, timestamp, beyond);
    assert (r + rest)[..RECORD_SIZE] == r && (r + rest)[RECORD_SIZE..] == rest;
  }

  lemma {:induction false} ReplayRecords(fs: seq<Frame>, timestamp: nat, rest: seq<Byte>, beyond: Memory)
    requires timestamp < 0x1_0000_0000 && (forall f :: f in fs ==> Fits(f))
    ensures ArrivalsIn(Records(fs, timestamp) + rest, beyond) == Stamped(fs, timestamp) + ArrivalsIn(rest, beyond)
    ensures Rest(Records(fs, timestamp) + rest) == Rest(rest)
    decreases |fs|
  {
    hide RecordOf, Rest, ArrivalsIn;
    if fs == [] {
      assert [] + rest == rest;
      assert Stamped(fs, timestamp) + ArrivalsIn(rest, beyond) == ArrivalsIn(rest, beyond);
    } else {
      var r, rs := RecordOf(fs[0], timestamp), Records(fs[1..], timestamp);
      ReplayRecords(fs[1..], timestamp, rest, beyond);
      ReplayRecord(fs[0], timestamp, rs + rest, beyond);
      assert r + rs + rest == r + (rs + rest);
      assert Stamped(fs, timestamp) == [Arrival(fs[0], timestamp, true)] + Stamped(fs[1..], timestamp);
    }
  }

  // ----- files -----

  ghost predicate AllPackets(ps: seq<Packet>) {
    forall i :: 0 <= i < |ps| ==> ps[i].Valid()
  }

  lemma {:induction false} SentFramesFit(t: seq<Mapping>, p: Packet)
    requires WellFormed(t) && p.Valid()
    ensures forall f :: f in Send(t, p) ==> Fits(f)
  {
    forall f | f in Send(t, p) ensures Fits(f) {
      if !IsM3(p.id) {
        var m := t[FindTelemetry(t, p.id).value];
        var k :| 0 <= k < m.Packets() && f == Fragment(m, p.payload, k);
        FieldsOfCanId(m, k);
      }
    }
  }

  /** The file that results when `ps` are sent, one after the other. */
  ghost function FileOf(t: seq<Mapping>, ps: seq<Packet>): seq<Byte>
    requires WellFormed(t) && AllPackets(ps)
  {
    if ps == [] then [] else
      SentFramesFit(t, ps[0]);
      Records(Send(t, ps[0]), ps[0].timestamp) + FileOf(t, ps[1..])
  }

  /** The frames sent for `ps`, as they arrive from the file. */
  ghost function SentFor(t: seq<Mapping>, ps: seq<Packet>): seq<Arrival> {
    if ps == [] then [] else Stamped(Send(t, ps[0]), ps[0].timestamp) + SentFor(t, ps[1..])
  }

  lemma {:induction false} FileHoldsWhatWasSent(t: seq<Mapping>, ps: seq<Packet>, beyond: Memory)
    requires WellFormed(t) && AllPackets(ps)
    ensures ArrivalsIn(FileOf(t, ps), beyond) == SentFor(t, ps) && Rest(FileOf(t, ps)) == []
    decreases |ps|
  {
    hide Send;
    if ps != [] {
      FileHoldsWhatWasSent(t, ps[1..], beyond);
      SentFramesFit(t, ps[0]);
      ReplayRecords(Send(t, ps[0]), ps[0].timestamp, FileOf(t, ps[1..]), beyond);
    }
  }

  // ----- which packets come back -----

  /** A packet that is sent as one wrapped frame which is not empty. */
  predicate Wrapped(p: Packet) { IsM3(p.id) && 1 <= |p.payload| <= 8 }

  predicate Mapped(t: seq<Mapping>, p: Packet) {
    !IsM3(p.id) && FindTelemetry(t, p.id).Some? && t[FindTelemetry(t, p.id).value].size == |p.payload|
  }

  predicate Representable(t: seq<Mapping>, p: Packet) { Wrapped(p) || Mapped(t, p) }

  /** The CAN id of a wrapped packet is one that the table maps. */
  predicate Hits(t: seq<Mapping>, p: Packet) { FindCan(t, p.id % M3_CAN_UNIT).Some? }

  ghost function Representables(t: seq<Mapping>, ps: seq<Packet>): seq<Packet> {
    if ps == [] then [] else (if Representable(t, ps[0]) then [ps[0]] else []) + Representables(t, ps[1..])
  }

  ghost predicate Idle(slots: seq<Slot>) {
    forall i :: 0 <= i < |slots| ==> slots[i].validIdx == 0
  }

  lemma {:induction false} FindCanIsUnique(t: seq<Mapping>, i: nat, k: nat)
    requires WellFormed(t) && i < |t| && k < 8
    ensures FindCan(t, CanId(t[i], k)) == Some(i)
  {
    FieldsOfCanId(t[i], k);
  }

  /** Frames of one mapping only: the rest of the interface does not take part. */
  lemma {:induction false} RunOfOneMapping(t: seq<Mapping>, slots: seq<Slot>, arrivals: seq<Arrival>, i: nat)
    requires SlotsValid(t, slots) && i < |t|
    requires forall k :: 0 <= k < |arrivals| ==> Owner(t, arrivals[k].frame) == Some(i)
    ensures
      var (slot, out) := RunSlot(t[i], slots[i], arrivals);
      Run(t, slots, arrivals) == (slots[i := slot], Tag(Some(i), out))
    decreases |arrivals|
  {
    hide SlotStep, Owner;
    if arrivals == [] {
      assert slots[i := slots[i]] == slots;
    } else {
      var (slot, out) := SlotStep(t[i], slots[i], arrivals[0]);
      var next := slots[i := slot];
      RunOfOneMapping(t, next, arrivals[1..], i);
      var (last, outs) := RunSlot(t[i], slot, arrivals[1..]);
      assert next[i := last] == slots[i := last];
      assert Tag(Some(i), out + outs) == Tag(Some(i), out) + Tag(Some(i), outs);
    }
  }

  lemma {:induction false} MappedComesBack(t: seq<Mapping>, slots: seq<Slot>, p: Packet)
    requires WellFormed(t) && SlotsValid(t, slots) && Idle(slots) && Mapped(t, p)
    ensures
      var (next, ds) := Run(t, slots, Stamped(Send(t, p), p.timestamp));
      Idle(next) && PacketsOf(ds) == [p]
  {
    hide Run, RunSlot, Chunk;
    var i := FindTelemetry(t, p.id).value;
    var m, arrivals := t[i], Stamped(Send(t, p), p.timestamp);
    forall k | 0 <= k < |arrivals| ensures Owner(t, arrivals[k].frame) == Some(i) {
      FindCanIsUnique(t, i, k);
      ChunkExtends(m, p.payload, k);
    }
    RunOfOneMapping(t, slots, arrivals, i);
    CompleteMessage(m, slots[i], p.payload, arrivals);
  }

  lemma {:induction false} RunOne(t: seq<Mapping>, slots: seq<Slot>, a: Arrival)
    requires SlotsValid(t, slots)
    ensures Run(t, slots, [a]) == Receive(t, slots, a)
  {
    hide Receive;
    var (next, out) := Receive(t, slots, a);
    assert [a][1..] == [] && out + [] == out;
    assert Run(t, next, []) == (next, []);
  }

  lemma {:induction false} WrappedComesBack(t: seq<Mapping>, slots: seq<Slot>, p: Packet)
    requires SlotsValid(t, slots) && Wrapped(p) && !Hits(t, p)
    ensures Run(t, slots, Stamped(Send(t, p), p.timestamp)) == (slots, [Delivery(None, p)])
  {
    hide Run;
    var a := Arrival(Frame(p.id % M3_CAN_UNIT, p.payload), p.timestamp, true);
    assert Stamped(Send(t, p), p.timestamp) == [a];
    RunOne(t, slots, a);
    assert Stray(t, a) == [p];
    assert Tag(None, [p]) == [Delivery(None, p)];
  }

  lemma {:induction false} OthersVanish(t: seq<Mapping>, slots: seq<Slot>, p: Packet)
    requires SlotsValid(t, slots) && !Representable(t, p)
    ensures Run(t, slots, Stamped(Send(t, p), p.timestamp)) == (slots, [])
  {
    hide SlotStep;
    var arrivals := Stamped(Send(t, p), p.timestamp);
    if arrivals != [] {
      var a := Arrival(Frame(p.id % M3_CAN_UNIT, p.payload), p.timestamp, true);
      assert arrivals == [a];
      RunOne(t, slots, a);
      assert Tag(None, Stray(t, a)) == [];
    }
  }

  lemma {:induction false} OnePacket(t: seq<Mapping>, slots: seq<Slot>, p: Packet)
    requires WellFormed(t) && SlotsValid(t, slots) && Idle(slots)
    requires Wrapped(p) ==> !Hits(t, p)
    ensures
      var (next, ds) := Run(t, slots, Stamped(Send(t, p), p.timestamp));
      Idle(next) && PacketsOf(ds) == if Representable(t, p) then [p] else []
  {
    hide Run, Send, Mapped, Wrapped, Hits;
    if Mapped(t, p) {
      MappedComesBack(t, slots, p);
    } else if Wrapped(p) {
      WrappedComesBack(t, slots, p);
    } else {
      OthersVanish(t, slots, p);
    }
  }

  lemma {:induction false} RunConcat(t: seq<Mapping>, slots: seq<Slot>, u: seq<Arrival>, v: seq<Arrival>)
    requires SlotsValid(t, slots)
    ensures
      var first := Run(t, slots, u);
      var more := Run(t, first.0, v);
      Run(t, slots, u + v) == (more.0, first.1 + more.1)
    decreases |u|
  {
    hide Receive;
    if u == [] {
      assert u + v == v;
      assert [] + Run(t, slots, v).1 == Run(t, slots, v).1;
    } else {
      var (next, out) := Receive(t, slots, u[0]);
      var first := Run(t, next, u[1..]);
      RunConcat(t, next, u[1..], v);
      assert (u + v)[1..] == u[1..] + v;
      assert out + (first.1 + Run(t, first.0, v).1) == out + first.1 + Run(t, first.0, v).1;
    }
  }

  lemma {:induction false} WithoutHitsAllComeBack(t: seq<Mapping>, slots: seq<Slot>, ps: seq<Packet>)
    requires WellFormed(t) && SlotsValid(t, slots) && Idle(slots)
    requires forall p :: p in ps && Wrapped(p) ==> !Hits(t, p)
    ensures PacketsOf(Run(t, slots, SentFor(t, ps)).1) == Representables(t, ps) && Idle(Run(t, slots, SentFor(t, ps)).0)
    decreases |ps|
  {
    hide Send, Wrapped, Hits, Representable, Idle, Run, PacketsOf;
    if ps == [] {
      RunNothing(t, slots);
    } else {
      var sent := Stamped(Send(t, ps[0]), ps[0].timestamp);
      var (next, ds) := Run(t, slots, sent);
      OnePacket(t, slots, ps[0]);
      WithoutHitsAllComeBack(t, next, ps[1..]);
      RunConcat(t, slots, sent, SentFor(t, ps[1..]));
      PacketsOfConcat(ds, Run(t, next, SentFor(t, ps[1..])).1);
    }
  }

  lemma {:induction false} RunNothing(t: seq<Mapping>, slots: seq<Slot>)
    requires SlotsValid(t, slots)
    ensures PacketsOf(Run(t, slots, []).1) == [] && Run(t, slots, []).0 == slots
  {}

  lemma {:induction false} PacketsOfConcat(u: seq<Delivery>, v: seq<Delivery>)
    ensures PacketsOf(u + v) == PacketsOf(u) + PacketsOf(v)
  {}

  // ----- and when they do not -----

  ghost function M3Count(ps: seq<Packet>): nat {
    if ps == [] then 0 else (if IsM3(ps[0].id) then 1 else 0) + M3Count(ps[1..])
  }

  lemma {:induction false} M3CountConcat(u: seq<Packet>, v: seq<Packet>)
    ensures M3Count(u + v) == M3Count(u) + M3Count(v)
    decreases |u|
  {
    if u == [] {
      assert u + v == v;
    } else {
      assert (u + v)[1..] == u[1..] + v;
      M3CountConcat(u[1..], v);
    }
  }

  lemma {:induction false} M3CountOfAtMostOne(ps: seq<Packet>, m3: bool)
    requires |ps| <= 1 && forall p :: p in ps ==> IsM3(p.id) == m3
    ensures M3Count(ps) == if m3 then |ps| else 0
  {
    if ps != [] { assert ps[1..] == []; }
  }

  /** Only frames without a mapping become wrapped packets. */
  lemma {:induction false} OnlyStraysAreM3(t: seq<Mapping>, slots: seq<Slot>, arrivals: seq<Arrival>)
    requires SlotsValid(t, slots)
    ensures M3Count(PacketsOf(Run(t, slots, arrivals).1)) == |Strays(t, arrivals)|
    decreases |arrivals|
  {
    hide Receive, SlotStep, IsM3, Stray, M3Count;
    if arrivals == [] {
      assert M3Count([]) == 0 by { M3CountOfAtMostOne([], true); }
    } else {
      var (next, out) := Receive(t, slots, arrivals[0]);
      var rest := Run(t, next, arrivals[1..]).1;
      OnlyStraysAreM3(t, next, arrivals[1..]);
      ReceivedM3(t, slots, arrivals[0]);
      assert PacketsOf(out + rest) == PacketsOf(out) + PacketsOf(rest);
      M3CountConcat(PacketsOf(out), PacketsOf(rest));
    }
  }

  lemma {:induction false} ReceivedM3(t: seq<Mapping>, slots: seq<Slot>, a: Arrival)
    requires SlotsValid(t, slots)
    ensures M3Count(PacketsOf(Receive(t, slots, a).1)) == |Stray(t, a)|
  {
    hide M3Count;
    var ps := PacketsOf(Receive(t, slots, a).1);
    match Owner(t, a.frame)
    case None =>
      assert ps == Stray(t, a);
      M3CountOfAtMostOne(ps, true);
    case Some(i) =>
      assert ps == SlotStep(t[i], slots[i], a).1;
      M3CountOfAtMostOne(ps, false);
  }

  /** The wrapped packets of `ps` that hit no mapping. */
  function WrappedWithoutHits(t: seq<Mapping>, ps: seq<Packet>): seq<Packet> {
    if ps == [] then [] else (if Wrapped(ps[0]) && !Hits(t, ps[0]) then [ps[0]] else []) + WrappedWithoutHits(t, ps[1..])
  }

  /** A packet gives a wrapped packet back, namely itself, if and only if it is wrapped and hits no mapping. */
  lemma {:induction false} StrayOfWrapped(t: seq<Mapping>, p: Packet)
    requires WellFormed(t)
    ensures Strays(t, Stamped(Send(t, p), p.timestamp)) == if Wrapped(p) && !Hits(t, p) then [p] else []
  {
    var arrivals := Stamped(Send(t, p), p.timestamp);
    if IsM3(p.id) {
      if |p.payload| <= 8 {
        var a := Arrival(Frame(p.id % M3_CAN_UNIT, p.payload), p.timestamp, true);
        assert arrivals == [a];
        assert [a][1..] == [];
      }
    } else if Mapped(t, p) {
      var i := FindTelemetry(t, p.id).value;
      forall k | 0 <= k < |arrivals| ensures Stray(t, arrivals[k]) == [] {
        FindCanIsUnique(t, i, k);
      }
      NoStrays(t, arrivals);
    }
  }

  lemma {:induction false} StraysAppend(t: seq<Mapping>, u: seq<Arrival>, v: seq<Arrival>)
    ensures Strays(t, u + v) == Strays(t, u) + Strays(t, v)
    decreases |u|
  {
    hide Stray;
    if u == [] {
      assert u + v == v;
      assert [] + Strays(t, v) == Strays(t, v);
    } else {
      assert (u + v)[1..] == u[1..] + v;
      StraysAppend(t, u[1..], v);
      assert Stray(t, u[0]) + (Strays(t, u[1..]) + Strays(t, v)) == Stray(t, u[0]) + Strays(t, u[1..]) + Strays(t, v);
    }
  }

  lemma {:induction false} StraysOfAll(t: seq<Mapping>, ps: seq<Packet>)
    requires WellFormed(t)
    ensures Strays(t, SentFor(t, ps)) == WrappedWithoutHits(t, ps)
    decreases |ps|
  {
    hide Send, Wrapped, Hits, Strays;
    if ps == [] {
      NoStrays(t, []);
    } else {
      StrayOfWrapped(t, ps[0]);
      StraysAppend(t, Stamped(Send(t, ps[0]), ps[0].timestamp), SentFor(t, ps[1..]));
      StraysOfAll(t, ps[1..]);
    }
  }

  /**
   Which packets are missing. From any state of the interface, the wrapped packets that come back are, in order,
   exactly those that hit no mapping: every one that hits is missing, and no other.
   */
  lemma {:induction false} HitsAreMissing(t: seq<Mapping>, slots: seq<Slot>, ps: seq<Packet>)
    requires WellFormed(t) && SlotsValid(t, slots)
    ensures DeliveredBy(None, Run(t, slots, SentFor(t, ps)).1) == WrappedWithoutHits(t, ps)
  {
    hide Run, DeliveredBy, Strays, WrappedWithoutHits;
    StraysPass(t, slots, SentFor(t, ps));
    StraysOfAll(t, ps);
  }

  lemma {:induction false} NoStrays(t: seq<Mapping>, arrivals: seq<Arrival>)
    requires forall k :: 0 <= k < |arrivals| ==> Stray(t, arrivals[k]) == []
    ensures Strays(t, arrivals) == []
    decreases |arrivals|
  {
    if arrivals != [] { NoStrays(t, arrivals[1..]); }
  }

  lemma {:induction false} HitsAreFewer(t: seq<Mapping>, ps: seq<Packet>)
    requires WellFormed(t)
    ensures |Strays(t, SentFor(t, ps))| <= M3Count(Representables(t, ps))
    ensures (exists p :: p in ps && Wrapped(p) && Hits(t, p)) ==> |Strays(t, SentFor(t, ps))| < M3Count(Representables(t, ps))
    decreases |ps|
  {
    hide Send, Wrapped, Hits, Mapped, IsM3, Strays, M3Count;
    if ps == [] {
      NoStrays(t, []);
    } else {
      var p, rest := ps[0], ps[1..];
      var sent := Stamped(Send(t, p), p.timestamp);
      StrayOfWrapped(t, p);
      StraysAppend(t, sent, SentFor(t, rest));
      HitsAreFewer(t, rest);
      RepresentableM3(t, p);
      M3CountConcat(if Representable(t, p) then [p] else [], Representables(t, rest));
    }
  }

  lemma {:induction false} RepresentableM3(t: seq<Mapping>, p: Packet)
    ensures M3Count(if Representable(t, p) then [p] else []) == if Wrapped(p) then 1 else 0
  {
    assert [p][1..] == [];
  }

  /**
   Round trip of the m3tel file. Replaying the records of the file of `ps` from a fresh interface, with room on the heap,
   delivers exactly the representable packets, in order, with their ids, timestamps and payloads,
   if and only if no wrapped packet's CAN id hits a mapping.
   */
  lemma {:induction false} FileRoundTrip(t: seq<Mapping>, slots: seq<Slot>, ps: seq<Packet>, beyond: Memory)
    requires WellFormed(t) && SlotsValid(t, slots) && Idle(slots) && AllPackets(ps)
    ensures Rest(FileOf(t, ps)) == []
    ensures
      PacketsOf(Run(t, slots, ArrivalsIn(FileOf(t, ps), beyond)).1) == Representables(t, ps)
      <==> forall p :: p in ps && Wrapped(p) ==> !Hits(t, p)
  {
    hide Run, Wrapped, Hits, Representables, M3Count;
    FileHoldsWhatWasSent(t, ps, beyond);
    if forall p :: p in ps && Wrapped(p) ==> !Hits(t, p) {
      WithoutHitsAllComeBack(t, slots, ps);
    } else {
      OnlyStraysAreM3(t, slots, SentFor(t, ps));
      HitsAreFewer(t, ps);
    }
  }

  // ----- the last turn of the replaying loop -----

  /** Whether a frame that reaches an interface in the middle of no message makes it deliver a packet at once. */
  predicate DeliversAtOnce(t: seq<Mapping>, f: Frame) {
    && f.data != []
    && match FindCan(t, f.id)
       case None => f.id < M3_CAN_UNIT
       case Some(i) => t[i].Packets() == 1 && Seqno(f.id) == 0 && |f.data| <= t[i].size
  }

  lemma {:induction false} IdleTurn(t: seq<Mapping>, slots: seq<Slot>, a: Arrival)
    requires SlotsValid(t, slots) && Idle(slots) && a.hasRoom
    ensures Receive(t, slots, a).1 != [] <==> DeliversAtOnce(t, a.frame)
  {
    hide Write;
    match Owner(t, a.frame)
    case None =>
    case Some(i) => IdleStep(t[i], slots[i], a);
  }

  lemma {:induction false} IdleStep(m: Mapping, slot: Slot, a: Arrival)
    requires m.Valid() && SlotValid(m, slot) && slot.validIdx == 0 && a.hasRoom
    ensures SlotStep(m, slot, a).1 != [] <==> m.Packets() == 1 && Seqno(a.frame.id) == 0 && |a.frame.data| <= m.size
  {
    hide Write;
  }

  /** The last of the packets that was sent as any frames at all. */
  ghost function LastSent(t: seq<Mapping>, ps: seq<Packet>): (r: Option<Packet>)
    ensures r.Some? ==> r.value in ps && Send(t, r.value) != []
    ensures r.None? ==> forall p :: p in ps ==> Send(t, p) == []
  {
    if ps == [] then None
    else match LastSent(t, ps[1..])
      case Some(p) => Some(p)
      case None => if Send(t, ps[0]) != [] then Some(ps[0]) else None
  }

  lemma {:induction false} NothingSent(t: seq<Mapping>, ps: seq<Packet>)
    requires WellFormed(t) && AllPackets(ps) && LastSent(t, ps) == None
    ensures SentFor(t, ps) == [] && FileOf(t, ps) == []
  {
    hide Send;
    if ps != [] { NothingSent(t, ps[1..]); }
  }

  /** What was sent, and the file, end with the last packet sent. */
  lemma {:induction false} EndsWithLast(t: seq<Mapping>, ps: seq<Packet>) returns (before: seq<Arrival>, file: seq<Byte>)
    requires WellFormed(t) && AllPackets(ps) && LastSent(t, ps).Some?
    ensures
      var p := LastSent(t, ps).value;
      && p.Valid() && (forall f :: f in Send(t, p) ==> Fits(f))
      && SentFor(t, ps) == before + Stamped(Send(t, p), p.timestamp)
      && FileOf(t, ps) == file + Records(Send(t, p), p.timestamp)
    decreases |ps|
  {
    hide Send, Records, WellFormed, Fits, Stamped;
    var p := ps[0];
    SentFramesFit(t, p);
    var sent, bytes := Stamped(Send(t, p), p.timestamp), Records(Send(t, p), p.timestamp);
    if LastSent(t, ps[1..]).Some? {
      var q := LastSent(t, ps[1..]).value;
      var more, rest := EndsWithLast(t, ps[1..]);
      before, file := sent + more, bytes + rest;
      assert sent + (more + Stamped(Send(t, q), q.timestamp)) == before + Stamped(Send(t, q), q.timestamp);
      assert bytes + (rest + Records(Send(t, q), q.timestamp)) == file + Records(Send(t, q), q.timestamp);
    } else {
      NothingSent(t, ps[1..]);
      before, file := [], [];
    }
  }

  lemma {:induction false} RecordsEnd(fs: seq<Frame>, timestamp: nat)
    requires timestamp < 0x1_0000_0000 && (forall f :: f in fs ==> Fits(f)) && fs != []
    ensures |Records(fs, timestamp)| >= RECORD_SIZE
    ensures Records(fs, timestamp)[|Records(fs, timestamp)| - RECORD_SIZE..] == RecordOf(fs[|fs| - 1], timestamp)
    decreases |fs|
  {
    hide RecordOf;
    if |fs| == 1 {
      assert Records(fs[1..], timestamp) == [];
    } else {
      RecordsEnd(fs[1..], timestamp);
    }
  }

  /** A packet that comes back a second time when the last record of its frames is received again. */
  ghost predicate ComesTwice(t: seq<Mapping>, p: Packet) {
    (Wrapped(p) && !Hits(t, p)) || (Mapped(t, p) && t[FindTelemetry(t, p.id).value].Packets() == 1)
  }

  /** The last frame of a mapped packet is received again. */
  lemma {:induction false} MappedAgain(t: seq<Mapping>, slots: seq<Slot>, p: Packet)
    requires WellFormed(t) && SlotsValid(t, slots) && Mapped(t, p)
    ensures
      var sent := Stamped(Send(t, p), p.timestamp);
      && sent != []
      && PacketsOf(Receive(t, Run(t, slots, sent).0, sent[|sent| - 1]).1) == if ComesTwice(t, p) then [p] else []
  {
    hide Run, RunSlot, Chunk, SlotStep;
    var i := FindTelemetry(t, p.id).value;
    var m, sent := t[i], Stamped(Send(t, p), p.timestamp);
    forall k | 0 <= k < |sent| ensures Owner(t, sent[k].frame) == Some(i) {
      FindCanIsUnique(t, i, k);
      ChunkExtends(m, p.payload, k);
    }
    RunOfOneMapping(t, slots, sent, i);
    CompleteMessage(m, slots[i], p.payload, sent);
    var slot, k := RunSlot(m, slots[i], sent).0, |sent| - 1;
    LastAgain(m, slot, p, sent);
  }

  lemma {:induction false} LastAgain(m: Mapping, slot: Slot, p: Packet, sent: seq<Arrival>)
    requires m.Valid() && SlotValid(m, slot) && IsMessage(m, p.payload, sent) && slot.validIdx == 0
    requires p.id == m.telemetryId && sent[|sent| - 1].hasRoom && sent[|sent| - 1].timestamp == p.timestamp
    ensures SlotStep(m, slot, sent[|sent| - 1]).1 == if m.Packets() == 1 then [p] else []
  {
    hide Chunk, SlotStep, Holds;
    var k := |sent| - 1;
    SlotOnce(m, slot, sent[k]);
    assert sent[k..] == [sent[k]];
    if k > 0 {
      LostMessage(m, slot, p.payload, sent, k);
    } else {
      CompleteMessage(m, slot, p.payload, sent);
    }
  }

  lemma {:induction false} SlotOnce(m: Mapping, slot: Slot, a: Arrival)
    requires m.Valid() && SlotValid(m, slot)
    ensures RunSlot(m, slot, [a]).1 == SlotStep(m, slot, a).1
  {
    hide SlotStep;
    assert [a][1..] == [];
    assert RunSlot(m, SlotStep(m, slot, a).0, []).1 == [];
  }

  /** The frame of a packet in the wrapped range is received again. */
  lemma {:induction false} WrappedAgain(t: seq<Mapping>, slots: seq<Slot>, p: Packet)
    requires WellFormed(t) && SlotsValid(t, slots) && IsM3(p.id) && |p.payload| <= 8
    ensures
      var again := PacketsOf(Receive(t, slots, Arrival(Frame(p.id % M3_CAN_UNIT, p.payload), p.timestamp, true)).1);
      && (again == [p] <==> ComesTwice(t, p))
      && (!ComesTwice(t, p) && !Hits(t, p) ==> again == [])
  {
    hide SlotStep;
    var a := Arrival(Frame(p.id % M3_CAN_UNIT, p.payload), p.timestamp, true);
    match Owner(t, a.frame)
    case None =>
      assert Wrapped(p) ==> Stray(t, a) == [p];
    case Some(i) =>
      var out := SlotStep(t[i], slots[i], a).1;
      assert PacketsOf(Receive(t, slots, a).1) == out;
      assert |out| == 1 ==> out[0] in out;
  }

  /**
   The loop of the driver turns once more after the last record. If the struct still holds that record then, the
   last packet that was written comes back twice if and only if it is a wrapped packet that hits no mapping or one whose
   mapping has a single fragment; and but for a wrapped packet that hits a mapping, nothing else can come of that turn.
   */
  lemma {:induction false} LastRecordAgain(t: seq<Mapping>, slots: seq<Slot>, ps: seq<Packet>, beyond: Memory)
    requires WellFormed(t) && SlotsValid(t, slots) && AllPackets(ps) && LastSent(t, ps).Some?
    ensures
      var file, p := FileOf(t, ps), LastSent(t, ps).value;
      && |file| >= RECORD_SIZE
      && var next := Run(t, slots, ArrivalsIn(file, beyond)).0;
         var again := PacketsOf(Receive(t, next, ArrivalIn(file[|file| - RECORD_SIZE..], beyond)).1);
         && (again == [p] <==> ComesTwice(t, p))
         && (!ComesTwice(t, p) && !(IsM3(p.id) && Hits(t, p)) ==> again == [])
  {
    hide Run, Receive, Send, Records, RecordOf, ArrivalIn, ComesTwice, Hits, ArrivalsIn, FileOf, SentFor, Mapped;
    var p := LastSent(t, ps).value;
    var before, file := EndsWithLast(t, ps);
    var fs, sent := Send(t, p), Stamped(Send(t, p), p.timestamp);
    FileHoldsWhatWasSent(t, ps, beyond);
    RecordsEnd(fs, p.timestamp);
    EndOf(file, Records(fs, p.timestamp));
    RecordRoundTrip(fs[|fs| - 1], p.timestamp, beyond);
    RunConcat(t, slots, before, sent);
    var mid := Run(t, slots, before).0;
    SentIs(t, p);
    if IsM3(p.id) {
      WrappedAgain(t, Run(t, mid, sent).0, p);
    } else {
      MappedAgain(t, mid, p);
    }
  }

  lemma EndOf(u: seq<Byte>, v: seq<Byte>)
    requires |v| >= RECORD_SIZE
    ensures (u + v)[|u + v| - RECORD_SIZE..] == v[|v| - RECORD_SIZE..]
  {}

  lemma {:induction false} SentIs(t: seq<Mapping>, p: Packet)
    requires Send(t, p) != []
    ensures IsM3(p.id) ==> |p.payload| <= 8 && Send(t, p) == [Frame(p.id % M3_CAN_UNIT, p.payload)]
    ensures !IsM3(p.id) ==> Mapped(t, p)
  {}
}
