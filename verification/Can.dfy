/**
 CAN fragmentation and reassembly, on values, for any table of mappings.

 Identifiers are numbers; the code's shifts and masks by powers of two are written as / and %.
 An 11-bit CAN id holds a 3-bit remapped id, a 3-bit sequence number and a 5-bit board number.
 */
module Can {
  import opened Telemetry

  const MAX_SEQNO := 8
  const M3_CAN := 0x1000
  /** Ids from here on have a bit of the m3_can mask 0xF800 set. */
  const M3_CAN_UNIT := 0x800

  datatype Mapping = Mapping(telemetryId: nat, size: nat, remappedId: nat, board: nat) {
    function Packets(): nat { (size + 7) / 8 }

    /** How many fragments are sent: the sequence number has three bits. */
    function Sent(): nat { if Packets() <= MAX_SEQNO then Packets() else MAX_SEQNO }

    /** What the code's macro and its C types allow, and an id outside the range of wrapped frames. */
    predicate Typed() {
      1 <= size < 0x100 && remappedId < 8 && board < 32 && telemetryId < 0x1_0000 && !IsM3(telemetryId)
    }

    /** What `can_interface_check_multipacket_definitions` checks besides: at most eight fragments. */
    predicate Valid() {
      Typed() && Packets() <= MAX_SEQNO
    }
  }

  /** `(id & ts_m3_can_mask) == ts_m3_can` */
  predicate IsM3(id: nat) { id / M3_CAN_UNIT == 2 }

  /** What the code relies on in its table of mappings. */
  ghost predicate WellFormed(t: seq<Mapping>) {
    && (forall i :: 0 <= i < |t| ==> t[i].Valid())
    && (forall i, j :: 0 <= i < j < |t| ==> t[i].telemetryId != t[j].telemetryId)
    && (forall i, j :: 0 <= i < j < |t| ==> t[i].remappedId != t[j].remappedId || t[i].board != t[j].board)
  }

  /** The table of the code: id, bytes, remapped id and board of each packet sent over CAN. */
  const CAN_MAPPINGS := [
    Mapping(0x808, 20, 7, 5), Mapping(0x810, 20, 6, 5), Mapping(0xA00, 64, 5, 5), Mapping(0x800, 8, 4, 5), Mapping(0x000, 4, 0, 5)]

  lemma TableIsWellFormed()
    ensures WellFormed(CAN_MAPPINGS)
  {
    var t := CAN_MAPPINGS;
    assert t[0] == Mapping(0x808, 20, 7, 5) && t[1] == Mapping(0x810, 20, 6, 5) && t[2] == Mapping(0xA00, 64, 5, 5);
    assert t[3] == Mapping(0x800, 8, 4, 5) && t[4] == Mapping(0x000, 4, 0, 5);
    forall i | 0 <= i < 5 ensures t[i].Valid() && t[i].remappedId == [7, 6, 5, 4, 0][i] {}
  }

  datatype Frame = Frame(id: nat, data: seq<Byte>)

  /** A frame as it is received, and whether the heap can take a packet then. */
  datatype Arrival = Arrival(frame: Frame, timestamp: nat, hasRoom: bool)

  predicate Matches(m: Mapping, id: nat) {
    m.remappedId == id / 0x100 % 8 && m.board == id % 0x20
  }

  function Seqno(id: nat): (n: nat)
    ensures n < 8
  {
    id / 0x20 % 8
  }

  function CanId(m: Mapping, seqno: nat): nat { m.remappedId * 0x100 + seqno * 0x20 + m.board }

  /** The first mapping whose remapped id and board are those of `id`. */
  function FindCan(t: seq<Mapping>, id: nat): (r: Option<nat>)
    ensures r.Some? ==> r.value < |t| && Matches(t[r.value], id)
    ensures r.None? ==> forall i :: 0 <= i < |t| ==> !Matches(t[i], id)
    decreases |t|
  {
    if t == [] then None
    else if Matches(t[0], id) then Some(0)
    else match FindCan(t[1..], id) case None => None case Some(i) => Some(i + 1)
  }

  function FindTelemetry(t: seq<Mapping>, id: nat): (r: Option<nat>)
    ensures r.Some? ==> r.value < |t| && t[r.value].telemetryId == id
    ensures r.None? ==> forall i :: 0 <= i < |t| ==> t[i].telemetryId != id
    decreases |t|
  {
    if t == [] then None
    else if t[0].telemetryId == id then Some(0)
    else match FindTelemetry(t[1..], id) case None => None case Some(i) => Some(i + 1)
  }

  // ----- reassembly -----

  /** Where the message of one mapping stands: the bytes so far and the fragment expected next. */
  datatype Slot = Slot(buffer: seq<Byte>, validIdx: nat)

  predicate SlotValid(m: Mapping, slot: Slot) {
    |slot.buffer| == 64 && slot.validIdx < m.Packets()
  }

  function Write(buffer: seq<Byte>, at: nat, data: seq<Byte>): (r: seq<Byte>)
    requires at + |data| <= |buffer|
    ensures |r| == |buffer|
  {
    buffer[..at] + data + buffer[at + |data|..]
  }

  function Deliver(id: nat, payload: seq<Byte>, a: Arrival): (out: seq<Packet>)
    ensures |out| <= 1
  {
    if a.hasRoom then [Packet(id, a.timestamp, payload)] else []
  }

  /** A frame of mapping `m` reaches its slot. */
  function SlotStep(m: Mapping, slot: Slot, a: Arrival): (r: (Slot, seq<Packet>))
    requires m.Valid() && SlotValid(m, slot)
    ensures SlotValid(m, r.0) && |r.1| <= 1
    ensures forall p :: p in r.1 ==> p.id == m.telemetryId && |p.payload| == m.size
  {
    var seqno := Seqno(a.frame.id);
    if seqno != slot.validIdx then (slot.(validIdx := 0), [])
    else if seqno * 8 + |a.frame.data| > m.size then (slot, [])
    else
      var buffer := Write(slot.buffer, seqno * 8, a.frame.data);
      if slot.validIdx + 1 == m.Packets() then (Slot(buffer, 0), Deliver(m.telemetryId, buffer[..m.size], a))
      else (Slot(buffer, slot.validIdx + 1), [])
  }

  function RunSlot(m: Mapping, slot: Slot, arrivals: seq<Arrival>): (r: (Slot, seq<Packet>))
    requires m.Valid() && SlotValid(m, slot)
    ensures SlotValid(m, r.0)
    decreases |arrivals|
  {
    if arrivals == [] then (slot, []) else
      var (next, out) := SlotStep(m, slot, arrivals[0]);
      var (last, outs) := RunSlot(m, next, arrivals[1..]);
      (last, out + outs)
  }

  // ----- whole messages -----

  function Chunk(payload: seq<Byte>, k: nat): (c: seq<Byte>)
    ensures |c| <= 8
  {
    if |payload| <= 8 * k then [] else if |payload| - 8 * k <= 8 then payload[8 * k..] else payload[8 * k..8 * k + 8]
  }

  function Fragment(m: Mapping, payload: seq<Byte>, k: nat): Frame {
    Frame(CanId(m, k), Chunk(payload, k))
  }

  /** `arrivals` are the fragments of a message that carries `payload`, all of them, in order. */
  ghost predicate IsMessage(m: Mapping, payload: seq<Byte>, arrivals: seq<Arrival>) {
    && |payload| == m.size && |arrivals| == m.Packets()
    && forall k :: 0 <= k < |arrivals| ==> arrivals[k].frame == Fragment(m, payload, k)
  }

  lemma FieldsOfCanId(m: Mapping, k: nat)
    requires m.Valid() && k < 8
    ensures CanId(m, k) < M3_CAN_UNIT
    ensures Matches(m, CanId(m, k)) && Seqno(CanId(m, k)) == k
    ensures forall n: Mapping :: n.Valid() && Matches(n, CanId(m, k)) ==> n.remappedId == m.remappedId && n.board == m.board
  {
    var id := CanId(m, k);
    assert id / 0x20 == m.remappedId * 8 + k && id % 0x20 == m.board;
    assert id / 0x100 == m.remappedId;
  }

  /** An id written out: the third fragment of the table's first packet, and its fields. */
  lemma ExampleId()
    ensures CanId(CAN_MAPPINGS[0], 2) == 0x745 && Seqno(0x745) == 2
    ensures forall i :: 0 <= i < |CAN_MAPPINGS| ==> (Matches(CAN_MAPPINGS[i], 0x745) <==> i == 0)
    ensures FindCan(CAN_MAPPINGS, 0x745) == Some(0)
  {
    var t := CAN_MAPPINGS;
    assert t[0] == Mapping(0x808, 20, 7, 5) && t[1] == Mapping(0x810, 20, 6, 5) && t[2] == Mapping(0xA00, 64, 5, 5);
    assert t[3] == Mapping(0x800, 8, 4, 5) && t[4] == Mapping(0x000, 4, 0, 5);
  }

  // ----- the whole interface -----

  /** The mapping a frame is for; empty frames are for none. */
  function Owner(t: seq<Mapping>, f: Frame): (r: Option<nat>)
    ensures r.Some? ==> r.value < |t| && Matches(t[r.value], f.id) && f.data != []
  {
    if f.data == [] then None else FindCan(t, f.id)
  }

  /** `handleUnrecognisedPacket`: frames without a mapping are wrapped, unless their id has a bit of the m3_can mask. */
  function Stray(t: seq<Mapping>, a: Arrival): (out: seq<Packet>)
    ensures |out| <= 1
  {
    if a.frame.data == [] || FindCan(t, a.frame.id).Some? || a.frame.id >= M3_CAN_UNIT then []
    else Deliver(a.frame.id + M3_CAN, a.frame.data, a)
  }

  ghost predicate SlotsValid(t: seq<Mapping>, slots: seq<Slot>) {
    |slots| == |t| && (forall i :: 0 <= i < |t| ==> t[i].Valid()) && forall i :: 0 <= i < |t| ==> SlotValid(t[i], slots[i])
  }

  /** A packet handed to the messaging system, and the mapping it was reassembled by, if any. */
  datatype Delivery = Delivery(owner: Option<nat>, packet: Packet)

  ghost function Tag(owner: Option<nat>, ps: seq<Packet>): (ds: seq<Delivery>)
    ensures |ds| == |ps| && forall i :: 0 <= i < |ps| ==> ds[i] == Delivery(owner, ps[i])
  {
    seq(|ps|, i requires 0 <= i < |ps| => Delivery(owner, ps[i]))
  }

  /** `can_interface_receive`, once initialised. */
  ghost function Receive(t: seq<Mapping>, slots: seq<Slot>, a: Arrival): (r: (seq<Slot>, seq<Delivery>))
    requires SlotsValid(t, slots)
    ensures SlotsValid(t, r.0)
  {
    match Owner(t, a.frame)
    case None => (slots, Tag(None, Stray(t, a)))
    case Some(i) =>
      var (slot, out) := SlotStep(t[i], slots[i], a);
      (slots[i := slot], Tag(Some(i), out))
  }

  ghost function Run(t: seq<Mapping>, slots: seq<Slot>, arrivals: seq<Arrival>): (r: (seq<Slot>, seq<Delivery>))
    requires SlotsValid(t, slots)
    ensures SlotsValid(t, r.0)
    decreases |arrivals|
  {
    if arrivals == [] then (slots, []) else
      var (next, out) := Receive(t, slots, arrivals[0]);
      var (last, outs) := Run(t, next, arrivals[1..]);
      (last, out + outs)
  }

  /** The packets of one mapping, or those that were not reassembled. */
  ghost function DeliveredBy(owner: Option<nat>, ds: seq<Delivery>): (ps: seq<Packet>)
    ensures |ps| <= |ds|
  {
    if ds == [] then [] else (if ds[0].owner == owner then [ds[0].packet] else []) + DeliveredBy(owner, ds[1..])
  }

  ghost function PacketsOf(ds: seq<Delivery>): (ps: seq<Packet>)
    ensures |ps| == |ds| && forall i :: 0 <= i < |ds| ==> ps[i] == ds[i].packet
  {
    seq(|ds|, i requires 0 <= i < |ds| => ds[i].packet)
  }

  // ----- sending -----

  /** `can_interface_send`: the frames a packet is sent as; a packet that CAN cannot carry is sent as none. */
  ghost function Send(t: seq<Mapping>, p: Packet): (fs: seq<Frame>) {
    if IsM3(p.id) then
      if |p.payload| > 8 then [] else [Frame(p.id % M3_CAN_UNIT, p.payload)]
    else
      match FindTelemetry(t, p.id)
      case None => []
      case Some(i) =>
        if t[i].size != |p.payload| then []
        else seq(t[i].Sent(), k requires 0 <= k < t[i].Sent() => Fragment(t[i], p.payload, k))
  }
}
