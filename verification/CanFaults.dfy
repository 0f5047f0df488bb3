/** Single faults on CAN: a fragment that is too long, and an allocation that fails. */
module CanFaults {
  import opened Telemetry
  import opened Can
  import opened CanTheorems
  import opened M3File

  /** The fragment that its slot expects, with more bytes than the message still has. */
  predicate Oversized(t: seq<Mapping>, slots: seq<Slot>, a: Arrival)
    requires |slots| == |t|
  {
    && Owner(t, a.frame).Some?
    && var i := Owner(t, a.frame).value;
       Seqno(a.frame.id) == slots[i].validIdx && t[i].size < 8 * Seqno(a.frame.id) + |a.frame.data|
  }

  /** It changes nothing and delivers nothing. */
  lemma {:induction false} OversizedStep(t: seq<Mapping>, slots: seq<Slot>, a: Arrival)
    requires SlotsValid(t, slots) && Oversized(t, slots, a)
    ensures Receive(t, slots, a) == (slots, [])
  {
    var i := Owner(t, a.frame).value;
    assert SlotStep(t[i], slots[i], a) == (slots[i], []);
    assert slots[i := slots[i]] == slots;
  }

  /** So whatever was received before, what follows is as if it had never come: the fragment of the right length still completes the message. */
  lemma {:induction false} OversizedIsIgnored(t: seq<Mapping>, slots: seq<Slot>, u: seq<Arrival>, a: Arrival, v: seq<Arrival>)
    requires SlotsValid(t, slots) && Oversized(t, Run(t, slots, u).0, a)
    ensures Run(t, slots, u + [a] + v) == Run(t, slots, u + v)
  {
    hide Run, Receive, Oversized;
    var (next, out) := Run(t, slots, u);
    OversizedStep(t, next, a);
    RunOne(t, next, a);
    RunConcat(t, slots, u, [a]);
    RunConcat(t, slots, u + [a], v);
    RunConcat(t, slots, u, v);
    assert out + [] == out;
  }

  /** Where the heap has no room a frame does to the interface what it does otherwise, and delivers nothing. */
  lemma {:induction false} NoRoomStep(t: seq<Mapping>, slots: seq<Slot>, a: Arrival)
    requires SlotsValid(t, slots) && !a.hasRoom
    ensures Receive(t, slots, a) == (Receive(t, slots, a.(hasRoom := true)).0, [])
  {
    hide Write;
    match Owner(t, a.frame)
    case None =>
    case Some(i) => assert SlotStep(t[i], slots[i], a) == (SlotStep(t[i], slots[i], a.(hasRoom := true)).0, []);
  }

  /** With room, the packet that is due is delivered. */
  lemma {:induction false} RoomStep(m: Mapping, slot: Slot, a: Arrival)
    requires m.Valid() && SlotValid(m, slot) && a.hasRoom
    requires Seqno(a.frame.id) == slot.validIdx == m.Packets() - 1 && 8 * slot.validIdx + |a.frame.data| <= m.size
    ensures |SlotStep(m, slot, a).1| == 1
  {
    hide Write;
  }

  /** A failed allocation loses the packet it was for and nothing else. */
  lemma {:induction false} FailedAllocationLosesItsPacket(t: seq<Mapping>, slots: seq<Slot>, u: seq<Arrival>, a: Arrival, v: seq<Arrival>)
    requires SlotsValid(t, slots) && !a.hasRoom
    ensures
      var before := Run(t, slots, u);
      var lost := Receive(t, before.0, a.(hasRoom := true));
      var after := Run(t, lost.0, v);
      && Run(t, slots, u + [a.(hasRoom := true)] + v) == (after.0, before.1 + lost.1 + after.1)
      && Run(t, slots, u + [a] + v) == (after.0, before.1 + after.1)
  {
    hide Run, Receive;
    var next, b := Run(t, slots, u).0, a.(hasRoom := true);
    NoRoomStep(t, next, a);
    RunOne(t, next, a);
    RunOne(t, next, b);
    RunConcat(t, slots, u, [a]);
    RunConcat(t, slots, u, [b]);
    RunConcat(t, slots, u + [a], v);
    RunConcat(t, slots, u + [b], v);
    assert Run(t, slots, u).1 + [] == Run(t, slots, u).1;
  }
}
