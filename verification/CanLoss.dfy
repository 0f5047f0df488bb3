/** What a mapping delivers when its fragments are lost, repeated or reordered, and exactly when that mixes messages. */
module CanLoss {
  import opened Telemetry
  import opened Can
  import opened CanTheorems

  // ----- the end of one message and the start of the next -----

  /** The first fragments of a message wait in the slot, undelivered. */
  lemma {:induction false} StartOfMessage(m: Mapping, slot: Slot, payload: seq<Byte>, arrivals: seq<Arrival>, j: nat)
    requires m.Valid() && SlotValid(m, slot) && slot.validIdx == 0 && IsMessage(m, payload, arrivals) && j < |arrivals|
    ensures Holds(RunSlot(m, slot, arrivals[..j]).0, payload, j) && RunSlot(m, slot, arrivals[..j]).1 == []
  {
    hide SlotStep;
    if j == 0 {
      assert arrivals[..0] == [];
    } else {
      var next := RunSlot(m, slot, arrivals[..j - 1]).0;
      StartOfMessage(m, slot, payload, arrivals, j - 1);
      NextFragment(m, next, payload, j - 1, arrivals[j - 1]);
      RunSnoc(m, slot, arrivals, j - 1);
    }
  }

  /** One more arrival. */
  lemma {:induction false} RunSnoc(m: Mapping, slot: Slot, arrivals: seq<Arrival>, e: nat)
    requires m.Valid() && SlotValid(m, slot) && e < |arrivals|
    ensures
      var before := RunSlot(m, slot, arrivals[..e]);
      var (next, out) := SlotStep(m, before.0, arrivals[e]);
      RunSlot(m, slot, arrivals[..e + 1]) == (next, before.1 + out)
  {
    hide SlotStep;
    var before, a := RunSlot(m, slot, arrivals[..e]), arrivals[e];
    assert arrivals[..e] + [a] == arrivals[..e + 1];
    RunSlotConcat(m, slot, arrivals[..e], [a]);
    RunSingle(m, before.0, a);
  }

  lemma {:induction false} RunSingle(m: Mapping, slot: Slot, a: Arrival)
    requires m.Valid() && SlotValid(m, slot)
    ensures RunSlot(m, slot, [a]) == SlotStep(m, slot, a)
  {
    hide SlotStep;
    var (next, out) := SlotStep(m, slot, a);
    assert [a][1..] == [] && out + [] == out;
    assert RunSlot(m, next, []) == (next, []);
  }

  /** A fragment other than the one expected is dropped, and so is everything after it up to the next first one. */
  lemma {:induction false} UnexpectedEnd(m: Mapping, slot: Slot, payload: seq<Byte>, arrivals: seq<Arrival>, k: nat)
    requires m.Valid() && SlotValid(m, slot) && IsMessage(m, payload, arrivals) && k <= |arrivals|
    requires 0 < slot.validIdx != k
    ensures RunSlot(m, slot, arrivals[k..]).1 == []
  {
    hide Chunk;
    if k < |arrivals| {
      FieldsOfCanId(m, k);
      assert arrivals[k..][0] == arrivals[k] && arrivals[k..][1..] == arrivals[k + 1..];
      LostMessage(m, slot.(validIdx := 0), payload, arrivals, k + 1);
      assert SlotStep(m, slot, arrivals[k]) == (slot.(validIdx := 0), []);
      var out, outs := SlotStep(m, slot, arrivals[k]).1, RunSlot(m, slot.(validIdx := 0), arrivals[k + 1..]).1;
      assert out + outs == [];
    } else {
      assert arrivals[k..] == [];
    }
  }

  /**
   Of one message only the first `j` fragments arrive, of the next only those from the `k`-th on. A packet
   is delivered if and only if the two cuts are at the same place, and then it is the two halves put together.
   */
  lemma {:induction false} LossSplices(m: Mapping, slot: Slot, a: seq<Byte>, b: seq<Byte>,
                    first: seq<Arrival>, second: seq<Arrival>, j: nat, k: nat)
    requires m.Valid() && SlotValid(m, slot) && slot.validIdx == 0
    requires IsMessage(m, a, first) && IsMessage(m, b, second) && 0 < j < m.Packets() && k <= m.Packets()
    ensures
      RunSlot(m, slot, first[..j] + second[k..]).1 ==
        if k == j then Deliver(m.telemetryId, a[..8 * j] + b[8 * j..], second[|second| - 1]) else []
  {
    hide Deliver, Chunk, SlotStep, RunSlot;
    if k == j {
      var spliced := a[..8 * j] + b[8 * j..];
      var arrivals := first[..j] + second[j..];
      forall i | 0 <= i < |arrivals| ensures arrivals[i].frame == Fragment(m, spliced, i) {
        if i < j { SameChunk(a, spliced, i); } else { SameChunk(b, spliced, i); }
      }
      CompleteMessage(m, slot, spliced, arrivals);
    } else {
      StartOfMessage(m, slot, a, first, j);
      var waiting := RunSlot(m, slot, first[..j]);
      UnexpectedEnd(m, waiting.0, b, second, k);
      RunSlotConcat(m, slot, first[..j], second[k..]);
    }
  }

  lemma SameChunk(u: seq<Byte>, v: seq<Byte>, k: nat)
    requires |u| == |v|
    requires forall i :: 8 * k <= i < 8 * k + 8 && i < |u| ==> u[i] == v[i]
    ensures Chunk(u, k) == Chunk(v, k)
  {}

  /** What is put together is neither of the two messages if and only if they differ on both sides of the cut. */
  lemma SpliceIsNeither(a: seq<Byte>, b: seq<Byte>, cut: nat)
    requires |a| == |b| && cut <= |a|
    ensures
      var spliced := a[..cut] + b[cut..];
      spliced != a && spliced != b <==> a[..cut] != b[..cut] && a[cut..] != b[cut..]
  {
    var spliced := a[..cut] + b[cut..];
    assert a == a[..cut] + a[cut..] && b == b[..cut] + b[cut..];
    assert spliced[..cut] == a[..cut] && spliced[cut..] == b[cut..];
  }

  // ----- anything lost, repeated or reordered -----

  /** A fragment of the message `p`, whichever it is. */
  predicate IsFragmentOf(m: Mapping, p: seq<Byte>, a: Arrival) {
    |p| == m.size && Seqno(a.frame.id) < m.Packets() && a.frame.data == Chunk(p, Seqno(a.frame.id))
  }

  /** Every arrival is a fragment of some message of this size. */
  ghost predicate Fragments(m: Mapping, arrivals: seq<Arrival>) {
    forall i :: 0 <= i < |arrivals| ==>
      var k := Seqno(arrivals[i].frame.id);
      && k < m.Packets()
      && |arrivals[i].frame.data| == if k + 1 < m.Packets() then 8 else m.size - 8 * k
  }

  /** The number of the fragment that is expected after `e` arrivals: it depends on their numbers only. */
  function Expected(m: Mapping, arrivals: seq<Arrival>, e: nat): (v: nat)
    requires m.Valid() && e <= |arrivals|
    ensures v < m.Packets()
  {
    if e == 0 then 0 else
      var v := Expected(m, arrivals, e - 1);
      if Seqno(arrivals[e - 1].frame.id) == v && v + 1 < m.Packets() then v + 1 else 0
  }

  /** The arrival at `e` is the last fragment and the one expected. */
  predicate Completes(m: Mapping, arrivals: seq<Arrival>, e: nat)
    requires m.Valid() && e < |arrivals|
  {
    Expected(m, arrivals, e) + 1 == m.Packets() && Seqno(arrivals[e].frame.id) + 1 == m.Packets()
  }

  /** The arrivals from `start` up to `end` are numbered from 0 on. */
  predicate Numbered(arrivals: seq<Arrival>, start: nat, end: nat)
    requires start <= end <= |arrivals|
  {
    forall i :: start <= i < end ==> Seqno(arrivals[i].frame.id) == i - start
  }

  lemma {:induction false} ExpectedCountsBack(m: Mapping, arrivals: seq<Arrival>, e: nat)
    requires m.Valid() && e <= |arrivals|
    ensures
      var v := Expected(m, arrivals, e);
      v <= e && Numbered(arrivals, e - v, e)
  {
    if e > 0 { ExpectedCountsBack(m, arrivals, e - 1); }
  }

  /** The data of the arrivals from `start` up to `end`, put together. */
  function Assembled(arrivals: seq<Arrival>, start: nat, end: nat): seq<Byte>
    requires start <= end <= |arrivals|
    decreases end
  {
    if start == end then [] else Assembled(arrivals, start, end - 1) + arrivals[end - 1].frame.data
  }

  /** Where the fragments begin of which the one at `e` is the last. */
  function Start(m: Mapping, arrivals: seq<Arrival>, e: nat): (s: nat)
    requires m.Valid() && e < |arrivals| && Completes(m, arrivals, e)
    ensures s + m.Packets() == e + 1
  {
    ExpectedCountsBack(m, arrivals, e);
    e + 1 - m.Packets()
  }

  /** What the first `e` arrivals deliver: at each that completes a stretch of consecutive fragments, their data. */
  function Deliveries(m: Mapping, arrivals: seq<Arrival>, e: nat): seq<Packet>
    requires m.Valid() && e <= |arrivals|
  {
    if e == 0 then []
    else
      Deliveries(m, arrivals, e - 1) +
      (if Completes(m, arrivals, e - 1) then
         Deliver(m.telemetryId, Assembled(arrivals, Start(m, arrivals, e - 1), e), arrivals[e - 1])
       else [])
  }

  /** The slot holds the data of the last arrivals, as many as it counts. */
  ghost predicate Waits(m: Mapping, slot: Slot, arrivals: seq<Arrival>, e: nat)
    requires m.Valid() && e <= |arrivals|
  {
    var v := Expected(m, arrivals, e);
    && slot.validIdx == v <= e && |slot.buffer| == 64
    && |Assembled(arrivals, e - v, e)| == 8 * v <= 64
    && slot.buffer[..8 * v] == Assembled(arrivals, e - v, e)
  }

  lemma {:induction false} ExpectedStep(m: Mapping, arrivals: seq<Arrival>, e: nat)
    requires m.Valid() && e < |arrivals|
    ensures
      var v := Expected(m, arrivals, e);
      Expected(m, arrivals, e + 1) == if Seqno(arrivals[e].frame.id) == v && v + 1 < m.Packets() then v + 1 else 0
  {}

  /** The fragment expected arrives. */
  lemma {:induction false} ExpectedArrives(m: Mapping, slot: Slot, arrivals: seq<Arrival>, e: nat)
    requires m.Valid() && Fragments(m, arrivals) && e < |arrivals| && SlotValid(m, slot) && Waits(m, slot, arrivals, e)
    requires Seqno(arrivals[e].frame.id) == slot.validIdx
    ensures
      var (next, out) := SlotStep(m, slot, arrivals[e]);
      && Waits(m, next, arrivals, e + 1)
      && out == if Completes(m, arrivals, e) then
                  Deliver(m.telemetryId, Assembled(arrivals, Start(m, arrivals, e), e + 1), arrivals[e])
                else []
  {
    hide Deliver, Write, Expected;
    var v, data := slot.validIdx, arrivals[e].frame.data;
    var whole := Assembled(arrivals, e - v, e + 1);
    ExpectedStep(m, arrivals, e);
    assert whole == Assembled(arrivals, e - v, e) + data;
    WriteExtends(slot.buffer, 8 * v, data);
  }

  lemma {:induction false} DeliveriesStep(m: Mapping, slot: Slot, arrivals: seq<Arrival>, e: nat)
    requires m.Valid() && Fragments(m, arrivals) && e < |arrivals| && SlotValid(m, slot) && Waits(m, slot, arrivals, e)
    ensures
      var (next, out) := SlotStep(m, slot, arrivals[e]);
      Waits(m, next, arrivals, e + 1) && Deliveries(m, arrivals, e + 1) == Deliveries(m, arrivals, e) + out
  {
    hide Deliver, Write, Expected, Assembled;
    if Seqno(arrivals[e].frame.id) == slot.validIdx {
      ExpectedArrives(m, slot, arrivals, e);
    } else {
      ExpectedStep(m, arrivals, e);
      NothingAssembled(arrivals, e + 1);
    }
  }

  lemma NothingAssembled(arrivals: seq<Arrival>, e: nat)
    requires e <= |arrivals|
    ensures Assembled(arrivals, e, e) == []
  {}

  lemma {:induction false} RunDelivers(m: Mapping, slot: Slot, arrivals: seq<Arrival>, e: nat)
    requires m.Valid() && Fragments(m, arrivals) && e <= |arrivals| && SlotValid(m, slot) && slot.validIdx == 0
    ensures Waits(m, RunSlot(m, slot, arrivals[..e]).0, arrivals, e)
    ensures RunSlot(m, slot, arrivals[..e]).1 == Deliveries(m, arrivals, e)
  {
    hide SlotStep, Fragments;
    if e == 0 {
      assert arrivals[..0] == [];
    } else {
      hide Waits, Deliveries, RunSlot;
      RunDelivers(m, slot, arrivals, e - 1);
      RunSnoc(m, slot, arrivals, e - 1);
      DeliveriesStep(m, RunSlot(m, slot, arrivals[..e - 1]).0, arrivals, e - 1);
    }
  }

  /**
   From an idle slot, whatever was lost, repeated or reordered among fragments of any messages: at each arrival
   that completes a stretch of as many fragments as a message has, numbered from 0 on, their data is
   delivered; and nothing else is.
   */
  lemma {:induction false} StretchesAreDelivered(m: Mapping, slot: Slot, arrivals: seq<Arrival>)
    requires m.Valid() && Fragments(m, arrivals) && SlotValid(m, slot) && slot.validIdx == 0
    ensures RunSlot(m, slot, arrivals).1 == Deliveries(m, arrivals, |arrivals|)
    ensures forall e :: 0 <= e < |arrivals| && Completes(m, arrivals, e) ==>
      Numbered(arrivals, Start(m, arrivals, e), e + 1)
  {
    hide RunSlot, Deliveries, Expected;
    RunDelivers(m, slot, arrivals, |arrivals|);
    assert arrivals[..|arrivals|] == arrivals;
    forall e | 0 <= e < |arrivals| && Completes(m, arrivals, e)
      ensures Numbered(arrivals, Start(m, arrivals, e), e + 1)
    {
      ExpectedCountsBack(m, arrivals, e);
    }
  }

  // ----- which deliveries are messages that were sent -----

  /** The fragments of the stretch that `e` completes are all fragments of `p`. */
  ghost predicate Unmixed(m: Mapping, arrivals: seq<Arrival>, e: nat, p: seq<Byte>)
    requires m.Valid() && e < |arrivals| && Completes(m, arrivals, e)
  {
    forall i :: Start(m, arrivals, e) <= i <= e ==> IsFragmentOf(m, p, arrivals[i])
  }

  lemma {:induction false} AssembledOfOne(m: Mapping, arrivals: seq<Arrival>, e: nat, p: seq<Byte>, k: nat)
    requires m.Valid() && e < |arrivals| && Completes(m, arrivals, e) && k <= m.Packets() && |p| == m.size
    requires var s := Start(m, arrivals, e); forall i :: s <= i < s + k ==> arrivals[i].frame.data == Chunk(p, i - s)
    ensures
      var s := Start(m, arrivals, e);
      Assembled(arrivals, s, s + k) == if k < m.Packets() then p[..8 * k] else p
  {
    hide Chunk, Completes, Expected;
    if k > 0 {
      AssembledOfOne(m, arrivals, e, p, k - 1);
      ChunkExtends(m, p, k - 1);
    }
  }

  /** The fragments of a stretch are full, but for the last one of the message. */
  lemma {:induction false} FragmentLength(m: Mapping, arrivals: seq<Arrival>, e: nat, k: nat)
    requires m.Valid() && Fragments(m, arrivals) && e < |arrivals| && Completes(m, arrivals, e) && k < m.Packets()
    requires Numbered(arrivals, Start(m, arrivals, e), e + 1)
    ensures |arrivals[Start(m, arrivals, e) + k].frame.data| == if k + 1 < m.Packets() then 8 else m.size - 8 * k
  {
    hide Completes, Expected, Chunk;
  }

  /** The `k` frames from `s` on carry the first `k` chunks of `p`. */
  ghost predicate AreChunks(arrivals: seq<Arrival>, s: nat, k: nat, p: seq<Byte>) {
    s + k <= |arrivals| && forall i :: s <= i < s + k ==> arrivals[i].frame.data == Chunk(p, i - s)
  }

  lemma {:induction false} OneMoreChunk(arrivals: seq<Arrival>, s: nat, k: nat, p: seq<Byte>)
    requires AreChunks(arrivals, s, k, p) && |p| == 8 * k && s + k < |arrivals| && |arrivals[s + k].frame.data| <= 8
    ensures AreChunks(arrivals, s, k + 1, p + arrivals[s + k].frame.data)
  {
    hide Chunk;
    var data := arrivals[s + k].frame.data;
    forall i | s <= i < s + k + 1 ensures arrivals[i].frame.data == Chunk(p + data, i - s) {
      if i < s + k { ChunkOfPrefix(p, data, i - s); } else { ChunkAtEnd(p, data, i - s); }
    }
  }

  /** Fragments are the chunks of what they put together. */
  lemma {:induction false} ChunksOfAssembled(m: Mapping, arrivals: seq<Arrival>, e: nat, k: nat)
    requires m.Valid() && Fragments(m, arrivals) && e < |arrivals| && Completes(m, arrivals, e) && k <= m.Packets()
    requires Numbered(arrivals, Start(m, arrivals, e), e + 1)
    ensures
      var s := Start(m, arrivals, e);
      var p := Assembled(arrivals, s, s + k);
      |p| == (if k < m.Packets() then 8 * k else m.size) && AreChunks(arrivals, s, k, p)
  {
    hide Completes, Expected, Chunk, Fragments, Numbered;
    if k > 0 {
      hide AreChunks;
      var s := Start(m, arrivals, e);
      FragmentLength(m, arrivals, e, k - 1);
      ChunksOfAssembled(m, arrivals, e, k - 1);
      OneMoreChunk(arrivals, s, k - 1, Assembled(arrivals, s, s + k - 1));
    }
  }

  lemma ChunkOfPrefix(u: seq<Byte>, v: seq<Byte>, i: nat)
    requires 8 * i + 8 <= |u|
    ensures Chunk(u + v, i) == Chunk(u, i)
  {}

  lemma ChunkAtEnd(u: seq<Byte>, v: seq<Byte>, i: nat)
    requires |u| == 8 * i && |v| <= 8
    ensures Chunk(u + v, i) == v
  {}

  lemma {:induction false} DeliveredWhere(m: Mapping, arrivals: seq<Arrival>, e: nat, q: Packet)
    requires m.Valid() && e <= |arrivals|
    ensures q in Deliveries(m, arrivals, e) <==>
      exists d :: 0 <= d < e && Completes(m, arrivals, d)
                  && q in Deliver(m.telemetryId, Assembled(arrivals, Start(m, arrivals, d), d + 1), arrivals[d])
  {
    hide Completes, Assembled, Deliver;
    if e > 0 { DeliveredWhere(m, arrivals, e - 1, q); }
  }

  /** What the stretch at `e` puts together is the message `p` if and only if all its fragments are of `p`. */
  lemma {:induction false} IsMessageIffUnmixed(m: Mapping, arrivals: seq<Arrival>, e: nat, p: seq<Byte>)
    requires m.Valid() && Fragments(m, arrivals) && e < |arrivals| && Completes(m, arrivals, e) && |p| == m.size
    ensures Assembled(arrivals, Start(m, arrivals, e), e + 1) == p <==> Unmixed(m, arrivals, e, p)
  {
    hide Expected, Chunk, Assembled;
    ExpectedCountsBack(m, arrivals, e);
    ChunksOfAssembled(m, arrivals, e, m.Packets());
    if Unmixed(m, arrivals, e, p) {
      var s := Start(m, arrivals, e);
      forall i | s <= i <= e ensures arrivals[i].frame.data == Chunk(p, i - s) {
        assert IsFragmentOf(m, p, arrivals[i]);
      }
      AssembledOfOne(m, arrivals, e, p, m.Packets());
    }
  }

  /**
   When loss, repetition and reordering are harmless. Every arrival is a fragment of a message in `sent`. Everything
   delivered is a message in `sent` if and only if no completed stretch, for which the heap has room, mixes
   fragments of different messages.
   */
  lemma {:induction false} OnlySentMessagesIffUnmixed(m: Mapping, slot: Slot, arrivals: seq<Arrival>, sent: set<seq<Byte>>)
    requires m.Valid() && SlotValid(m, slot) && slot.validIdx == 0
    requires forall p :: p in sent ==> |p| == m.size
    requires forall i :: 0 <= i < |arrivals| ==> exists p :: p in sent && IsFragmentOf(m, p, arrivals[i])
    ensures
      (forall q :: q in RunSlot(m, slot, arrivals).1 ==> q.payload in sent)
      <==> (forall e :: 0 <= e < |arrivals| && Completes(m, arrivals, e) && arrivals[e].hasRoom ==>
              exists p :: p in sent && Unmixed(m, arrivals, e, p))
  {
    hide RunSlot, Completes, Unmixed, Assembled, Chunk;
    SentAreFragments(m, arrivals, sent);
    StretchesAreDelivered(m, slot, arrivals);
    forall e | 0 <= e < |arrivals| && Completes(m, arrivals, e)
      ensures Assembled(arrivals, Start(m, arrivals, e), e + 1) in sent <==> exists p :: p in sent && Unmixed(m, arrivals, e, p)
    {
      var q := Assembled(arrivals, Start(m, arrivals, e), e + 1);
      forall p | p in sent ensures q == p <==> Unmixed(m, arrivals, e, p) { IsMessageIffUnmixed(m, arrivals, e, p); }
    }
    AllDelivered(m, arrivals, sent);
  }

  lemma {:induction false} SentAreFragments(m: Mapping, arrivals: seq<Arrival>, sent: set<seq<Byte>>)
    requires m.Valid()
    requires forall i :: 0 <= i < |arrivals| ==> exists p :: p in sent && IsFragmentOf(m, p, arrivals[i])
    ensures Fragments(m, arrivals)
  {}

  lemma {:induction false} AllDelivered(m: Mapping, arrivals: seq<Arrival>, sent: set<seq<Byte>>)
    requires m.Valid()
    ensures
      (forall q :: q in Deliveries(m, arrivals, |arrivals|) ==> q.payload in sent)
      <==> (forall e :: 0 <= e < |arrivals| && Completes(m, arrivals, e) && arrivals[e].hasRoom ==>
              Assembled(arrivals, Start(m, arrivals, e), e + 1) in sent)
  {
    hide Completes, Assembled, Deliveries;
    forall q ensures q in Deliveries(m, arrivals, |arrivals|) <==>
      exists d :: 0 <= d < |arrivals| && Completes(m, arrivals, d)
                  && q in Deliver(m.telemetryId, Assembled(arrivals, Start(m, arrivals, d), d + 1), arrivals[d])
    {
      DeliveredWhere(m, arrivals, |arrivals|, q);
    }
    forall e | 0 <= e < |arrivals| && Completes(m, arrivals, e) && arrivals[e].hasRoom
      ensures Packet(m.telemetryId, arrivals[e].timestamp, Assembled(arrivals, Start(m, arrivals, e), e + 1))
              in Deliveries(m, arrivals, |arrivals|)
    {
      var q := Packet(m.telemetryId, arrivals[e].timestamp, Assembled(arrivals, Start(m, arrivals, e), e + 1));
      assert q in Deliver(m.telemetryId, q.payload, arrivals[e]);
    }
  }
}
