/** The CAN interface object, whose buffers change in place, proved against module Can. */
module CanInterface {
  import opened Telemetry
  import opened Can

  class Interface {
    const mappings: seq<Mapping>
    var initialized: bool
    const dataBuffers: array2<Byte>
    const validIdx: array<nat>

    ghost predicate Valid()
      reads this, dataBuffers, validIdx
    {
      && dataBuffers.Length0 == validIdx.Length == |mappings| && dataBuffers.Length1 == 64
      && (forall i :: 0 <= i < |mappings| ==> mappings[i].Typed())
      && (initialized ==> SlotsValid(mappings, Slots()))
    }

    ghost function SlotAt(i: nat): Slot
      requires i < dataBuffers.Length0 == validIdx.Length && dataBuffers.Length1 == 64
      reads dataBuffers, validIdx
    {
      Slot(seq(64, j requires 0 <= j < 64 reads dataBuffers => dataBuffers[i, j]), validIdx[i])
    }

    /** The buffers of all mappings, as values. */
    ghost function Slots(): (slots: seq<Slot>)
      requires dataBuffers.Length0 == validIdx.Length == |mappings| && dataBuffers.Length1 == 64
      reads dataBuffers, validIdx
      ensures |slots| == |mappings| && forall i :: 0 <= i < |mappings| ==> slots[i] == SlotAt(i)
    {
      seq(|mappings|, i requires 0 <= i < |mappings| reads dataBuffers, validIdx => SlotAt(i))
    }

    constructor (mappings: seq<Mapping>)
      requires forall i :: 0 <= i < |mappings| ==> mappings[i].Typed()
      ensures Valid() && !initialized && this.mappings == mappings && fresh(dataBuffers) && fresh(validIdx)
    {
      this.mappings := mappings;
      initialized := false;
      dataBuffers := new Byte[|mappings|, 64];
      validIdx := new nat[|mappings|];
    }

    /** `can_interface_check_multipacket_definitions` */
    method CheckMultipacketDefinitions() returns (ok: bool)
      ensures ok <==> forall i :: 0 <= i < |mappings| ==> mappings[i].Packets() <= MAX_SEQNO
    {
      for i := 0 to |mappings|
        invariant forall j :: 0 <= j < i ==> mappings[j].Packets() <= MAX_SEQNO
      {
        if mappings[i].Packets() > MAX_SEQNO {
          return false;
        }
      }
      return true;
    }

    /** `can_interface_init`, also of an interface in use: afterwards every mapping expects its first fragment. */
    method Init()
      requires Valid()
      modifies this, validIdx
      ensures Valid()
      ensures initialized <==> forall i :: 0 <= i < |mappings| ==> mappings[i].Valid()
      ensures initialized ==> forall i :: 0 <= i < |mappings| ==> Slots()[i].validIdx == 0
    {
      var ok := CheckMultipacketDefinitions();
      if !ok {
        return;
      }
      for i := 0 to |mappings|
        invariant forall j :: 0 <= j < i ==> validIdx[j] == 0
      {
        validIdx[i] := 0;
      }
      initialized := true;
    }

    /** `getMappingForCanID`, with None for -1. */
    method MappingForCanId(canId: nat) returns (r: Option<nat>)
      ensures r == FindCan(mappings, canId)
    {
      var i := 0;
      while i < |mappings|
        invariant 0 <= i <= |mappings|
        invariant FindCan(mappings, canId) == Shift(FindCan(mappings[i..], canId), i)
      {
        assert mappings[i..][0] == mappings[i] && mappings[i..][1..] == mappings[i + 1..];
        if mappings[i].remappedId == canId / 0x100 % 8 && mappings[i].board == canId % 0x20 {
          return Some(i);
        }
        i := i + 1;
      }
      return None;
    }

    /** `getMappingForTelemetryID`, with None for -1. */
    method MappingForTelemetryId(id: nat) returns (r: Option<nat>)
      ensures r == FindTelemetry(mappings, id)
    {
      var i := 0;
      while i < |mappings|
        invariant 0 <= i <= |mappings|
        invariant FindTelemetry(mappings, id) == Shift(FindTelemetry(mappings[i..], id), i)
      {
        assert mappings[i..][0] == mappings[i] && mappings[i..][1..] == mappings[i + 1..];
        if id == mappings[i].telemetryId {
          return Some(i);
        }
        i := i + 1;
      }
      return None;
    }

    /** `handleFullPacket`: what goes to the messaging system; nothing when the heap is full. */
    method HandleFullPacket(owner: Option<nat>, id: nat, data: seq<Byte>, a: Arrival) returns (sent: seq<Delivery>)
      ensures sent == Tag(owner, Deliver(id, data, a))
    {
      if !a.hasRoom {
        return [];
      }
      return [Delivery(owner, Packet(id, a.timestamp, data))];
    }

    /** The copy into the packet that `handleFullPacket` makes. */
    method CopyOut(i: nat, length: nat) returns (payload: seq<Byte>)
      requires i < dataBuffers.Length0 == validIdx.Length && dataBuffers.Length1 == 64 && length <= 64
      ensures payload == SlotAt(i).buffer[..length]
    {
      payload := [];
      while |payload| < length
        invariant |payload| <= length && payload == SlotAt(i).buffer[..|payload|]
      {
        payload := payload + [dataBuffers[i, |payload|]];
      }
    }

    /** The copy of a fragment into the buffer of its mapping. */
    method Store(i: nat, at: nat, data: seq<Byte>)
      requires dataBuffers.Length0 == validIdx.Length == |mappings| && dataBuffers.Length1 == 64
      requires i < |mappings| && at + |data| <= 64
      modifies dataBuffers
      ensures SlotAt(i).buffer == Write(old(SlotAt(i).buffer), at, data)
      ensures forall k :: 0 <= k < |mappings| && k != i ==> SlotAt(k) == old(SlotAt(k))
    {
      ghost var before := SlotAt(i).buffer;
      for n := 0 to |data|
        invariant forall j :: 0 <= j < 64 ==> dataBuffers[i, j] == if at <= j < at + n then data[j - at] else before[j]
        invariant forall k, j :: 0 <= k < |mappings| && k != i && 0 <= j < 64 ==> dataBuffers[k, j] == old(dataBuffers[k, j])
      {
        dataBuffers[i, at + n] := data[n];
      }
      IsWrite(SlotAt(i).buffer, before, at, data);
      forall k | 0 <= k < |mappings| && k != i ensures SlotAt(k) == old(SlotAt(k)) {
        assert SlotAt(k).buffer == old(SlotAt(k).buffer);
      }
    }

    /** The body of `can_interface_receive` for a frame of mapping `i`. */
    method ReceiveFragment(i: nat, a: Arrival) returns (sent: seq<Delivery>)
      requires Valid() && initialized && i < |mappings|
      modifies dataBuffers, validIdx
      ensures Valid() && initialized
      ensures Slots() == old(Slots())[i := SlotStep(mappings[i], old(Slots()[i]), a).0]
      ensures sent == Tag(Some(i), SlotStep(mappings[i], old(Slots()[i]), a).1)
    {
      hide Can.Mapping.Packets, Write;
      var m := mappings[i];
      var data := a.frame.data;
      var seqno := a.frame.id / 0x20 % 8;
      ghost var slots, slot := Slots(), SlotAt(i);
      sent := [];
      if seqno != validIdx[i] {
        validIdx[i] := 0;
        SlotIs(slots, i, slot.(validIdx := 0));
        return;
      }
      if seqno >= m.Packets() {
        // The error report on this path never happens.
        assert false;
      }
      if seqno * 8 + |data| > m.size {
        SlotIs(slots, i, slot);
        return;
      }
      FitsInBuffer(m, seqno, data);
      Store(i, seqno * 8, data);
      validIdx[i] := validIdx[i] + 1;
      ghost var buffer := Write(slot.buffer, seqno * 8, data);
      SlotIs(slots, i, Slot(buffer, seqno + 1));
      if m.Packets() == validIdx[i] {
        var payload := CopyOut(i, m.size);
        sent := HandleFullPacket(Some(i), m.telemetryId, payload, a);
        validIdx[i] := 0;
        SlotIs(slots, i, Slot(buffer, 0));
      }
    }

    /** `can_interface_receive` */
    method Receive(a: Arrival) returns (sent: seq<Delivery>)
      requires Valid()
      modifies dataBuffers, validIdx
      ensures Valid() && initialized == old(initialized)
      ensures
        if initialized then (Slots(), sent) == Can.Receive(mappings, old(Slots()), a)
        else Slots() == old(Slots()) && sent == []
    {
      hide Can.SlotStep;
      if !initialized || a.frame.data == [] {
        return [];
      }
      var i := MappingForCanId(a.frame.id);
      if i == None {
        if a.frame.id >= M3_CAN_UNIT {
          return [];
        }
        sent := HandleFullPacket(None, a.frame.id + M3_CAN, a.frame.data, a);
        return;
      }
      sent := ReceiveFragment(i.value, a);
    }

    /** `can_interface_send`: the frames given to the driver. */
    method Send(p: Packet) returns (sent: seq<Frame>)
      requires Valid()
      ensures sent == Can.Send(mappings, p)
    {
      sent := [];
      if IsM3(p.id) {
        if |p.payload| > 8 {
          return;
        }
        return [Frame(p.id % M3_CAN_UNIT, p.payload)];
      }
      var idx := MappingForTelemetryId(p.id);
      if idx == None {
        return;
      }
      var m := mappings[idx.value];
      if m.size != |p.payload| {
        return;
      }
      sent := SendFragments(m, p.payload);
    }

    /** The loop of `can_interface_send`; it stops with an error once the sequence numbers are used up. */
    method SendFragments(m: Mapping, payload: seq<Byte>) returns (sent: seq<Frame>)
      requires m.Typed() && |payload| == m.size
      ensures sent == seq(m.Sent(), k requires 0 <= k < m.Sent() => Fragment(m, payload, k))
      ensures |sent| == if m.size <= 64 then (m.size + 7) / 8 else 8
    {
      hide Chunk;
      sent := [];
      var ptr, remaining, i := payload, |payload|, 0;
      while true
        invariant 0 <= i < m.Packets() && i <= MAX_SEQNO && |sent| == i
        invariant ptr == payload[8 * i..] && remaining == |ptr| > 0
        invariant forall k :: 0 <= k < i ==> sent[k] == Fragment(m, payload, k)
        decreases remaining
      {
        if i >= MAX_SEQNO {
          return;
        }
        ChunkIs(payload, i);
        sent := sent + [Frame(CanId(m, i), if remaining > 8 then ptr[..8] else ptr)];
        i := i + 1;
        if remaining <= 8 {
          break;
        }
        ptr := ptr[8..];
        remaining := remaining - 8;
      }
    }

    /** Only slot `i` changed, and it is now `slot`. */
    lemma SlotIs(slots: seq<Slot>, i: nat, slot: Slot)
      requires dataBuffers.Length0 == validIdx.Length == |mappings| == |slots| && dataBuffers.Length1 == 64 && i < |mappings|
      requires |slot.buffer| == 64 && validIdx[i] == slot.validIdx && forall j :: 0 <= j < 64 ==> dataBuffers[i, j] == slot.buffer[j]
      requires forall k :: 0 <= k < |mappings| && k != i ==> SlotAt(k) == slots[k]
      ensures Slots() == slots[i := slot]
    {
      assert SlotAt(i) == slot;
    }
  }

  lemma ChunkIs(payload: seq<Byte>, i: nat)
    requires 8 * i < |payload|
    ensures Chunk(payload, i) == if |payload[8 * i..]| > 8 then payload[8 * i..][..8] else payload[8 * i..]
  {}

  function Shift(r: Option<nat>, n: nat): Option<nat> {
    match r case None => None case Some(i) => Some(i + n)
  }

  lemma FitsInBuffer(m: Mapping, seqno: nat, data: seq<Byte>)
    requires m.Valid() && seqno * 8 + |data| <= m.size
    ensures seqno * 8 + |data| <= 64 && m.size <= 64
  {}

  lemma IsWrite(now: seq<Byte>, before: seq<Byte>, at: nat, data: seq<Byte>)
    requires |now| == |before| && at + |data| <= |before|
    requires forall j :: 0 <= j < |now| ==> now[j] == if at <= j < at + |data| then data[j - at] else before[j]
    ensures now == Write(before, at, data)
  {}
}
