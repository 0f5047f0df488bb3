/** What reassembly promises: recovery after loss, independence of the mappings, and what loss can splice. */
module CanTheorems {
  import opened Telemetry
  import opened Can

  // ----- one mapping -----

  lemma {:induction false} RunSlotConcat(m: Mapping, slot: Slot, u: seq<Arrival>, v: seq<Arrival>)
    requires m.Valid() && SlotValid(m, slot)
    ensures
      var first := RunSlot(m, slot, u);
      var more := RunSlot(m, first.0, v);
      RunSlot(m, slot, u + v) == (more.0, first.1 + more.1)
    decreases |u|
  {
    hide SlotStep;
    if u == [] {
      assert u + v == v;
      assert [] + RunSlot(m, slot, v).1 == RunSlot(m, slot, v).1;
    } else {
      var (next, out) := SlotStep(m, slot, u[0]);
      var first := RunSlot(m, next, u[1..]);
      RunSlotConcat(m, next, u[1..], v);
      assert (u + v)[1..] == u[1..] + v;
      assert out + (first.1 + RunSlot(m, first.0, v).1) == out + first.1 + RunSlot(m, first.0, v).1;
    }
  }

  /** The first `8 * k` bytes of the buffer are those of the message. */
  ghost predicate Holds(slot: Slot, payload: seq<Byte>, k: nat) {
    slot.validIdx == k && |slot.buffer| == 64 && 8 * k <= |payload| <= 64 && slot.buffer[..8 * k] == payload[..8 * k]
  }

  lemma ChunkExtends(m: Mapping, payload: seq<Byte>, k: nat)
    requires m.Valid() && |payload| == m.size && k < m.Packets()
    ensures 8 * k + |Chunk(payload, k)| <= m.size
    ensures k + 1 < m.Packets() ==> 8 * (k + 1) <= m.size && payload[..8 * k] + Chunk(payload, k) == payload[..8 * (k + 1)]
    ensures k + 1 == m.Packets() ==> payload[..8 * k] + Chunk(payload, k) == payload
    ensures Chunk(payload, k) != []
  {}

  lemma WriteExtends(buffer: seq<Byte>, at: nat, data: seq<Byte>)
    requires at + |data| <= |buffer|
    ensures Write(buffer, at, data)[..at + |data|] == buffer[..at] + data
  {}

  /** The next fragment in order is stored behind the ones before it; the last one delivers the message. */
  lemma {:induction false} NextFragment(m: Mapping, slot: Slot, payload: seq<Byte>, k: nat, a: Arrival)
    requires m.Valid() && SlotValid(m, slot) && |payload| == m.size && Holds(slot, payload, k)
    requires a.frame == Fragment(m, payload, k)
    ensures
      var (next, out) := SlotStep(m, slot, a);
      if k + 1 < m.Packets() then Holds(next, payload, k + 1) && out == []
      else next.validIdx == 0 && out == Deliver(m.telemetryId, payload, a)
  {
    hide Chunk, Write;
    FieldsOfCanId(m, k);
    ChunkExtends(m, payload, k);
    WriteExtends(slot.buffer, 8 * k, Chunk(payload, k));
    var buffer := Write(slot.buffer, 8 * k, Chunk(payload, k));
    assert buffer[..8 * k + |Chunk(payload, k)|] == payload[..8 * k] + Chunk(payload, k);
  }

  lemma {:induction false} RestOfMessage(m: Mapping, slot: Slot, payload: seq<Byte>, arrivals: seq<Arrival>, k: nat)
    requires m.Valid() && SlotValid(m, slot) && IsMessage(m, payload, arrivals) && k < |arrivals|
    requires Holds(slot, payload, k)
    ensures RunSlot(m, slot, arrivals[k..]).0.validIdx == 0
    ensures RunSlot(m, slot, arrivals[k..]).1 == Deliver(m.telemetryId, payload, arrivals[|arrivals| - 1])
    decreases |arrivals| - k
  {
    hide SlotStep, Holds, Deliver;
    var a := arrivals[k];
    NextFragment(m, slot, payload, k, a);
    assert arrivals[k..][0] == a && arrivals[k..][1..] == arrivals[k + 1..];
    var (next, out) := SlotStep(m, slot, a);
    if k + 1 < |arrivals| {
      RestOfMessage(m, next, payload, arrivals, k + 1);
    } else {
      assert RunSlot(m, next, []) == (next, []);
    }
  }

  /** Fragments that are not the first one leave an idle slot idle. */
  lemma {:induction false} LostMessage(m: Mapping, slot: Slot, payload: seq<Byte>, arrivals: seq<Arrival>, k: nat)
    requires m.Valid() && SlotValid(m, slot) && IsMessage(m, payload, arrivals) && 0 < k <= |arrivals|
    requires slot.validIdx == 0
    ensures RunSlot(m, slot, arrivals[k..]) == (slot, [])
    decreases |arrivals| - k
  {
    hide Chunk;
    if k < |arrivals| {
      FieldsOfCanId(m, k);
      assert arrivals[k..][0] == arrivals[k] && arrivals[k..][1..] == arrivals[k + 1..];
      LostMessage(m, slot, payload, arrivals, k + 1);
      var out, outs := SlotStep(m, slot, arrivals[k]).1, RunSlot(m, slot, arrivals[k + 1..]).1;
      assert slot.(validIdx := 0) == slot && out + outs == [];
    } else {
      assert arrivals[k..] == [];
    }
  }

  /**
   Recovery. A complete message is delivered, with exactly its own bytes, if and only if the slot was
   idle; either way the slot is idle afterwards.
   */
  lemma {:induction false} CompleteMessage(m: Mapping, slot: Slot, payload: seq<Byte>, arrivals: seq<Arrival>)
    requires m.Valid() && SlotValid(m, slot) && IsMessage(m, payload, arrivals)
    ensures
      var (next, out) := RunSlot(m, slot, arrivals);
      && next.validIdx == 0
      && out == if slot.validIdx == 0 then Deliver(m.telemetryId, payload, arrivals[|arrivals| - 1]) else []
  {
    hide Chunk, Deliver;
    assert arrivals[0..] == arrivals;
    if slot.validIdx == 0 {
      RestOfMessage(m, slot, payload, arrivals, 0);
    } else {
      FieldsOfCanId(m, 0);
      LostMessage(m, slot.(validIdx := 0), payload, arrivals, 1);
    }
  }

  ghost function Flatten<T>(groups: seq<seq<T>>): seq<T> {
    if groups == [] then [] else groups[0] + Flatten(groups[1..])
  }

  ghost predicate AreMessages(m: Mapping, payloads: seq<seq<Byte>>, groups: seq<seq<Arrival>>) {
    |payloads| == |groups| && forall j :: 0 <= j < |groups| ==> IsMessage(m, payloads[j], groups[j])
  }

  /** The packets of complete messages, in order; those are missing for which the heap had no room. */
  ghost function MessagePackets(m: Mapping, payloads: seq<seq<Byte>>, groups: seq<seq<Arrival>>): seq<Packet>
    requires m.Valid() && AreMessages(m, payloads, groups)
  {
    if groups == [] then [] else
      Deliver(m.telemetryId, payloads[0], groups[0][|groups[0]| - 1]) + MessagePackets(m, payloads[1..], groups[1..])
  }

  lemma {:induction false} IdleDeliversAll(m: Mapping, slot: Slot, payloads: seq<seq<Byte>>, groups: seq<seq<Arrival>>)
    requires m.Valid() && SlotValid(m, slot) && AreMessages(m, payloads, groups) && slot.validIdx == 0
    ensures RunSlot(m, slot, Flatten(groups)).1 == MessagePackets(m, payloads, groups)
    decreases |groups|
  {
    hide IsMessage, Deliver, SlotStep;
    if groups != [] {
      CompleteMessage(m, slot, payloads[0], groups[0]);
      RunSlotConcat(m, slot, groups[0], Flatten(groups[1..]));
      IdleDeliversAll(m, RunSlot(m, slot, groups[0]).0, payloads[1..], groups[1..]);
    }
  }

  /**
   From any state at all, complete messages one after the other are all delivered, in order and byte
   for byte, except the first one if the slot was in the middle of a message.
   */
  lemma {:induction false} Recovers(m: Mapping, slot: Slot, payloads: seq<seq<Byte>>, groups: seq<seq<Arrival>>)
    requires m.Valid() && SlotValid(m, slot) && AreMessages(m, payloads, groups) && groups != []
    ensures AreMessages(m, payloads[1..], groups[1..])
    ensures RunSlot(m, slot, Flatten(groups)).1 ==
            if slot.validIdx == 0 then MessagePackets(m, payloads, groups) else MessagePackets(m, payloads[1..], groups[1..])
  {
    hide IsMessage, Deliver, SlotStep, RunSlot;
    if slot.validIdx == 0 {
      IdleDeliversAll(m, slot, payloads, groups);
    } else {
      CompleteMessage(m, slot, payloads[0], groups[0]);
      RunSlotConcat(m, slot, groups[0], Flatten(groups[1..]));
      IdleDeliversAll(m, RunSlot(m, slot, groups[0]).0, payloads[1..], groups[1..]);
    }
  }

  // ----- fragments of any length -----

  /** Fragments that arrive in order and pass the size check, whatever their lengths. */
  ghost predicate InOrder(m: Mapping, arrivals: seq<Arrival>) {
    && |arrivals| == m.Packets() > 0
    && forall k :: 0 <= k < |arrivals| ==>
         Seqno(arrivals[k].frame.id) == k && 1 <= |arrivals[k].frame.data| <= 8 && 8 * k + |arrivals[k].frame.data| <= m.size
  }

  /** The buffer once the first `k` fragments are stored. */
  ghost function Filled(buffer: seq<Byte>, m: Mapping, arrivals: seq<Arrival>, k: nat): (r: seq<Byte>)
    requires m.Valid() && InOrder(m, arrivals) && |buffer| == 64 && k <= |arrivals|
    ensures |r| == 64
  {
    if k == 0 then buffer else Write(Filled(buffer, m, arrivals, k - 1), 8 * (k - 1), arrivals[k - 1].frame.data)
  }

  lemma {:induction false} FilledAt(buffer: seq<Byte>, m: Mapping, arrivals: seq<Arrival>, k: nat, x: nat)
    requires m.Valid() && InOrder(m, arrivals) && |buffer| == 64 && k <= |arrivals| && x < 64
    ensures Filled(buffer, m, arrivals, k)[x] ==
            if x / 8 < k && x % 8 < |arrivals[x / 8].frame.data| then arrivals[x / 8].frame.data[x % 8] else buffer[x]
  {
    hide Write;
    if k > 0 {
      FilledAt(buffer, m, arrivals, k - 1, x);
      WriteAt(Filled(buffer, m, arrivals, k - 1), 8 * (k - 1), arrivals[k - 1].frame.data, x);
    }
  }

  lemma WriteAt(buffer: seq<Byte>, at: nat, data: seq<Byte>, x: nat)
    requires at + |data| <= |buffer| && x < |buffer|
    ensures Write(buffer, at, data)[x] == if at <= x < at + |data| then data[x - at] else buffer[x]
  {}

  lemma {:induction false} RunInOrder(m: Mapping, buffer: seq<Byte>, arrivals: seq<Arrival>, k: nat)
    requires m.Valid() && InOrder(m, arrivals) && |buffer| == 64 && k < |arrivals|
    ensures
      var n := |arrivals|;
      RunSlot(m, Slot(Filled(buffer, m, arrivals, k), k), arrivals[k..]).1 ==
        Deliver(m.telemetryId, Filled(buffer, m, arrivals, n)[..m.size], arrivals[n - 1])
    decreases |arrivals| - k
  {
    hide Deliver, Write;
    var slot, a := Slot(Filled(buffer, m, arrivals, k), k), arrivals[k];
    assert arrivals[k..][0] == a && arrivals[k..][1..] == arrivals[k + 1..];
    assert Filled(buffer, m, arrivals, k + 1) == Write(Filled(buffer, m, arrivals, k), 8 * k, a.frame.data);
    if k + 1 < |arrivals| {
      RunInOrder(m, buffer, arrivals, k + 1);
      assert SlotStep(m, slot, a) == (Slot(Filled(buffer, m, arrivals, k + 1), k + 1), []);
    } else {
      assert arrivals[k + 1..] == [];
    }
  }

  /** Every fragment but the last has its eight bytes, and the last one reaches the end of the message. */
  ghost predicate Full(m: Mapping, arrivals: seq<Arrival>)
    requires m.Valid() && InOrder(m, arrivals)
  {
    forall x :: 0 <= x < m.size ==> x % 8 < |arrivals[x / 8].frame.data|
  }

  ghost function Reassembled(m: Mapping, buffer: seq<Byte>, arrivals: seq<Arrival>): (payload: seq<Byte>)
    requires m.Valid() && InOrder(m, arrivals) && |buffer| == 64
    ensures |payload| == m.size
  {
    Filled(buffer, m, arrivals, |arrivals|)[..m.size]
  }

  /**
   A short fragment is accepted too. An idle slot delivers whatever its buffer held where no fragment
   wrote: the payload is independent of what was in the buffer if and only if the fragments are full.
   */
  lemma {:induction false} StaleBytesIffNotFull(m: Mapping, arrivals: seq<Arrival>)
    requires m.Valid() && InOrder(m, arrivals)
    ensures forall b :: |b| == 64 ==>
      RunSlot(m, Slot(b, 0), arrivals).1 == Deliver(m.telemetryId, Reassembled(m, b, arrivals), arrivals[|arrivals| - 1])
    ensures Full(m, arrivals) <==>
      forall b, c :: |b| == 64 && |c| == 64 ==> Reassembled(m, b, arrivals) == Reassembled(m, c, arrivals)
  {
    hide Deliver, RunSlot, Filled, Full;
    forall b: seq<Byte> | |b| == 64
      ensures RunSlot(m, Slot(b, 0), arrivals).1 == Deliver(m.telemetryId, Reassembled(m, b, arrivals), arrivals[|arrivals| - 1])
    {
      RunInOrder(m, b, arrivals, 0);
      FilledNone(b, m, arrivals);
      assert arrivals[0..] == arrivals;
    }
    if Full(m, arrivals) {
      forall b: seq<Byte>, c: seq<Byte> | |b| == 64 && |c| == 64 ensures Reassembled(m, b, arrivals) == Reassembled(m, c, arrivals) {
        FullHasNoStaleByte(m, arrivals, b, c);
      }
    } else {
      var b, c := NotFullHasStaleByte(m, arrivals);
    }
  }

  lemma FilledNone(b: seq<Byte>, m: Mapping, arrivals: seq<Arrival>)
    requires m.Valid() && InOrder(m, arrivals) && |b| == 64
    ensures Filled(b, m, arrivals, 0) == b
  {}

  lemma {:induction false} FullHasNoStaleByte(m: Mapping, arrivals: seq<Arrival>, b: seq<Byte>, c: seq<Byte>)
    requires m.Valid() && InOrder(m, arrivals) && Full(m, arrivals) && |b| == 64 && |c| == 64
    ensures Reassembled(m, b, arrivals) == Reassembled(m, c, arrivals)
  {
    hide Filled;
    forall x | 0 <= x < m.size ensures Reassembled(m, b, arrivals)[x] == Reassembled(m, c, arrivals)[x] {
      FilledAt(b, m, arrivals, |arrivals|, x);
      FilledAt(c, m, arrivals, |arrivals|, x);
    }
  }

  lemma {:induction false} NotFullHasStaleByte(m: Mapping, arrivals: seq<Arrival>) returns (b: seq<Byte>, c: seq<Byte>)
    requires m.Valid() && InOrder(m, arrivals) && !Full(m, arrivals)
    ensures |b| == 64 && |c| == 64 && Reassembled(m, b, arrivals) != Reassembled(m, c, arrivals)
  {
    hide Filled;
    var x :| 0 <= x < m.size && x % 8 >= |arrivals[x / 8].frame.data|;
    b, c := seq(64, _ => 0), seq(64, _ => 1);
    FilledAt(b, m, arrivals, |arrivals|, x);
    FilledAt(c, m, arrivals, |arrivals|, x);
    assert Reassembled(m, b, arrivals)[x] == 0 && Reassembled(m, c, arrivals)[x] == 1;
  }

  // ----- several mappings -----

  /** The arrivals for one mapping. */
  ghost function Mine(t: seq<Mapping>, i: nat, arrivals: seq<Arrival>): (mine: seq<Arrival>)
    ensures |mine| <= |arrivals|
  {
    if arrivals == [] then [] else
      (if Owner(t, arrivals[0].frame) == Some(i) then [arrivals[0]] else []) + Mine(t, i, arrivals[1..])
  }

  ghost function Strays(t: seq<Mapping>, arrivals: seq<Arrival>): seq<Packet> {
    if arrivals == [] then [] else Stray(t, arrivals[0]) + Strays(t, arrivals[1..])
  }

  ghost function DeliveredOne(owner: Option<nat>, d: Delivery): seq<Packet> {
    if d.owner == owner then [d.packet] else []
  }

  lemma {:induction false} DeliveredByCons(owner: Option<nat>, d: Delivery, ds: seq<Delivery>)
    ensures DeliveredBy(owner, [d] + ds) == DeliveredOne(owner, d) + DeliveredBy(owner, ds)
  {
    assert ([d] + ds)[1..] == ds;
  }

  lemma {:induction false} DeliveredByConcat(owner: Option<nat>, u: seq<Delivery>, v: seq<Delivery>)
    ensures DeliveredBy(owner, u + v) == DeliveredBy(owner, u) + DeliveredBy(owner, v)
    decreases |u|
  {
    hide DeliveredOne;
    if u == [] {
      assert u + v == v;
      assert [] + DeliveredBy(owner, v) == DeliveredBy(owner, v);
    } else {
      var d, rest := u[0], u[1..];
      assert u == [d] + rest && u + v == [d] + (rest + v);
      hide DeliveredBy;
      DeliveredByConcat(owner, rest, v);
      DeliveredByCons(owner, d, rest);
      DeliveredByCons(owner, d, rest + v);
    }
  }

  lemma {:induction false} DeliveredByTag(owner: Option<nat>, tag: Option<nat>, ps: seq<Packet>)
    requires |ps| <= 1
    ensures DeliveredBy(owner, Tag(tag, ps)) == if owner == tag then ps else []
  {
    if ps != [] {
      assert Tag(tag, ps)[1..] == [] && ps == [ps[0]];
    }
  }

  lemma {:induction false} StepOfMapping(t: seq<Mapping>, slots: seq<Slot>, a: Arrival, i: nat)
    requires SlotsValid(t, slots) && i < |t|
    ensures
      var (next, out) := Receive(t, slots, a);
      if Owner(t, a.frame) == Some(i) then
        next[i] == SlotStep(t[i], slots[i], a).0 && DeliveredBy(Some(i), out) == SlotStep(t[i], slots[i], a).1
      else
        next[i] == slots[i] && DeliveredBy(Some(i), out) == []
  {
    hide SlotStep, Owner, Stray;
    match Owner(t, a.frame)
    case None => DeliveredByTag(Some(i), None, Stray(t, a));
    case Some(j) => DeliveredByTag(Some(i), Some(j), SlotStep(t[j], slots[j], a).1);
  }

  /** Non-interference: each mapping behaves as if only its own frames had arrived. */
  lemma {:induction false} NonInterference(t: seq<Mapping>, slots: seq<Slot>, arrivals: seq<Arrival>, i: nat)
    requires SlotsValid(t, slots) && i < |t|
    ensures
      var (last, ds) := Run(t, slots, arrivals);
      (last[i], DeliveredBy(Some(i), ds)) == RunSlot(t[i], slots[i], Mine(t, i, arrivals))
    decreases |arrivals|
  {
    hide SlotStep, Owner, Receive;
    if arrivals != [] {
      var a, rest := arrivals[0], arrivals[1..];
      var (next, out) := Receive(t, slots, a);
      StepOfMapping(t, slots, a, i);
      NonInterference(t, next, rest, i);
      DeliveredByConcat(Some(i), out, Run(t, next, rest).1);
      if Owner(t, a.frame) == Some(i) {
        assert ([a] + Mine(t, i, rest))[1..] == Mine(t, i, rest);
      } else {
        assert [] + Mine(t, i, rest) == Mine(t, i, rest);
        assert [] + DeliveredBy(Some(i), Run(t, next, rest).1) == DeliveredBy(Some(i), Run(t, next, rest).1);
      }
    }
  }

  /** Frames without a mapping are wrapped one by one, whatever else arrives. */
  lemma {:induction false} StraysPass(t: seq<Mapping>, slots: seq<Slot>, arrivals: seq<Arrival>)
    requires SlotsValid(t, slots)
    ensures DeliveredBy(None, Run(t, slots, arrivals).1) == Strays(t, arrivals)
    decreases |arrivals|
  {
    hide SlotStep;
    if arrivals != [] {
      var a, rest := arrivals[0], arrivals[1..];
      var (next, out) := Receive(t, slots, a);
      StraysPass(t, next, rest);
      DeliveredByConcat(None, out, Run(t, next, rest).1);
      match Owner(t, a.frame) {
        case None => DeliveredByTag(None, None, Stray(t, a));
        case Some(i) => DeliveredByTag(None, Some(i), SlotStep(t[i], slots[i], a).1);
      }
    }
  }

  /**
   However the fragments of several mappings' messages and other frames are shuffled together, each
   mapping delivers its messages in its own order.
   */
  lemma {:induction false} ShuffledMessagesArrive(t: seq<Mapping>, slots: seq<Slot>, arrivals: seq<Arrival>, i: nat,
                               payloads: seq<seq<Byte>>, groups: seq<seq<Arrival>>)
    requires SlotsValid(t, slots) && i < |t| && slots[i].validIdx == 0
    requires AreMessages(t[i], payloads, groups) && Mine(t, i, arrivals) == Flatten(groups)
    ensures DeliveredBy(Some(i), Run(t, slots, arrivals).1) == MessagePackets(t[i], payloads, groups)
  {
    hide RunSlot, Run, Mine, Flatten, MessagePackets, AreMessages;
    NonInterference(t, slots, arrivals, i);
    IdleDeliversAll(t[i], slots[i], payloads, groups);
  }
}
