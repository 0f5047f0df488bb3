/** When a send finds a buffer full: never with one thread, and in the code's order with any more than one. */
module BusRefusals {
  import opened Telemetry
  import opened Bus
  import opened BusSafety
  import opened BusSteps
  import opened BusRuns
  import opened BusMoves
  import opened BusWindow
  import opened BusThreads

  // ----- one thread -----

  /** A sender that has dropped the oldest entry finds room when it posts again, and nobody refused it so far. */
  ghost predicate FindsRoom(s: State, f: Frame) {
    f.Sending? ==>
      f.ok && (f.phase.Retrying? || f.phase.Dropping? ==> f.next < |s.consumers| && HasRoom(s, f.next))
  }

  ghost predicate Unrefused(order: Order, s: State) {
    && Alone(s) && Tidy(order, true, s) && s.bufferFull == 0
    && (Top(s, 0).Some? ==> FindsRoom(s, Top(s, 0).value))
  }

  lemma {:induction false} NotRefusing(order: Order, s: State, f: Frame)
    requires Unrefused(order, s) && Top(s, 0) == Some(f) && f.Sending? && f.next < |s.consumers|
    ensures !Refusing(order, s, f)
  {
    hide Wants, StackOk;
    assert BoxOk(s.consumers[f.next]);
  }

  lemma {:induction false} NextFindsRoom(order: Order, s: State, f: Frame)
    requires Unrefused(order, s) && Top(s, 0) == Some(f) && f.Sending? && f.next < |s.consumers|
    ensures FindsRoom(Offer(order, s, 0, f), NextFrame(order, s, f))
  {
    hide Wants, StackOk, Release, Retain, DropOldest, Post, PostOrFail, Alone;
    assert BoxOk(s.consumers[f.next]);
    NotRefusing(order, s, f);
    if f.phase.Dropping? { ReleaseLeaves(Replace(s, 0, f.(phase := Retrying(f.phase.held))), f.phase.oldest); }
  }

  lemma {:induction false} SenderUnrefused(order: Order, s: State, f: Frame)
    requires Unrefused(order, s) && Top(s, 0) == Some(f) && !s.broken && f.Sending? && f.next < f.last && f.next < |s.consumers|
    ensures Unrefused(order, Apply(order, s, Advance(0)))
  {
    hide Tidy, Alone, FindsRoom, Offer, NextFrame, Offers;
    NextFindsRoom(order, s, f);
    OfferMoves(order, s, 0, f);
    StepTidy(order, true, s, Advance(0));
    AloneStays(order, s, Advance(0));
  }

  lemma {:induction false} LeaverUnrefused(order: Order, s: State, f: Frame)
    requires Unrefused(order, s) && Top(s, 0) == Some(f) && !s.broken
    requires !(f.Sending? && f.next < f.last && f.next < |s.consumers|)
    ensures Unrefused(order, Apply(order, s, Advance(0)))
  {
    hide Tidy, Release, Offer;
    StepTidy(order, true, s, Advance(0));
    AloneStays(order, s, Advance(0));
    ReleaseLeaves(Pop(s, 0), f.ref);
  }

  lemma {:induction false} OtherUnrefused(order: Order, s: State, e: Event)
    requires Unrefused(order, s) && !s.broken && !e.Advance? && (e.Register? ==> e.capacity >= 1)
    ensures Unrefused(order, Apply(order, s, e))
  {
    hide Tidy, Create, FreePacket, Wants;
    StepTidy(order, true, s, e);
    AloneStays(order, s, e);
    if e.BeginSend? { CreateKeepsThreads(s, Ref(e.slot, e.message), e.message.handle); CreateKeepsRest(s, e.slot, e.message); }
  }

  lemma CreateKeepsRest(s: State, slot: nat, m: Message)
    ensures var q := Ref(slot, m);
      Create(s, q).consumers == s.consumers && Create(s, q).bufferFull == s.bufferFull
      && FreePacket(s, m.handle).consumers == s.consumers && FreePacket(s, m.handle).bufferFull == s.bufferFull
  {}

  lemma {:induction false} StepUnrefused(order: Order, s: State, e: Event)
    requires Unrefused(order, s) && (e.Register? ==> e.capacity >= 1)
    ensures Unrefused(order, Apply(order, s, e))
  {
    hide Unrefused, Apply;
    if s.broken {
      BrokenStays(order, s, e);
    } else if !e.Advance? {
      OtherUnrefused(order, s, e);
    } else if Top(s, e.thread).Some? {
      var f := Top(s, e.thread).value;
      First(order, s, e.thread);
      if f.Sending? && f.next < f.last && f.next < |s.consumers| {
        SenderUnrefused(order, s, f);
      } else {
        LeaverUnrefused(order, s, f);
      }
    } else {
      Idles(order, s, e);
    }
  }

  lemma First(order: Order, s: State, t: nat)
    requires Unrefused(order, s) && Top(s, t).Some?
    ensures t == 0
  {
    hide Tidy;
  }

  lemma Idles(order: Order, s: State, e: Event)
    requires e.Advance? && Top(s, e.thread).None?
    ensures Apply(order, s, e) == s
  {}

  lemma {:induction false} RunUnrefused(order: Order, s: State, events: seq<Event>)
    requires Unrefused(order, s) && Roomy(events)
    ensures Unrefused(order, After(order, s, events))
    decreases |events|
  {
    hide Unrefused, Apply;
    if events != [] {
      StepUnrefused(order, s, events[0]);
      RunUnrefused(order, Apply(order, s, events[0]), events[1..]);
    }
  }

  /** Whatever the order: with one thread and room for one packet in every mailbox, no send reports a full buffer. */
  lemma {:induction false} AloneIsNeverRefused(order: Order, pool: set<nat>, threads: nat, events: seq<Event>)
    requires threads <= 1 && Roomy(events)
    ensures After(order, Init(pool, threads), events).bufferFull == 0
  {
    hide After, Tidy;
    InitIsTidy(order, true, pool, threads);
    RunUnrefused(order, Init(pool, threads), events);
  }

  // ----- two threads, in the code's order -----

  /** The threads when the first two are in these calls and the others are idle. */
  function Two(threads: nat, a: seq<Frame>, b: seq<Frame>): (r: seq<seq<Frame>>)
    requires threads >= 2
    ensures |r| == threads && r[0] == a && r[1] == b
  {
    Init({}, threads).threads[0 := a][1 := b]
  }

  function Stacks(threads: nat, t: nat, own: seq<Frame>, other: seq<Frame>): (r: seq<seq<Frame>>)
    requires threads >= 2 && t < 2
    ensures |r| == threads && r[t] == own && r[1 - t] == other
  {
    if t == 0 then Two(threads, own, other) else Two(threads, other, own)
  }

  lemma {:induction false} StacksUpdate(threads: nat, t: nat, own: seq<Frame>, other: seq<Frame>, now: seq<Frame>)
    requires threads >= 2 && t < 2
    ensures Stacks(threads, t, own, other)[t := now] == Stacks(threads, t, now, other)
  {}

  lemma {:induction false} StacksSwap(threads: nat, t: nat, own: seq<Frame>, other: seq<Frame>)
    requires threads >= 2 && t < 2
    ensures Stacks(threads, t, own, other) == Stacks(threads, 1 - t, other, own)
  {}

  /** One consumer with room for one packet, which holds `box`; three slots are free, and no packet `h` was given yet with `h` at least `next`. */
  ghost predicate View(s: State, slots: set<nat>, next: nat, box: seq<Ref>) {
    && Inv(PostThenRetain, s) && s.bufferFull == 0
    && |s.consumers| == 1 && s.consumers[0].filter == EVERYTHING && s.consumers[0].capacity == 1 && !s.consumers[0].paused
    && s.consumers[0].mailbox == box
    && slots <= s.free && forall h :: h in s.fates ==> h < next
  }

  lemma {:induction false} Begins(s: State, threads: nat, t: nat, other: seq<Frame>, slots: set<nat>, slot: nat, n: nat, box: seq<Ref>)
    requires threads >= 2 && t < 2 && View(s, slots, n, box) && slot in slots
    requires s.threads == Stacks(threads, t, [], other)
    ensures
      var m := Message(n, 0, 0);
      var s' := Apply(PostThenRetain, s, BeginSend(t, slot, m));
      && View(s', slots - {slot}, n + 1, box)
      && s'.threads == Stacks(threads, t, [Sending(Ref(slot, m), 0, 1, Checking, true)], other)
  {
    hide Inv, Wants;
    var m := Message(n, 0, 0);
    NotBroken(PostThenRetain, s);
    BeginStep(PostThenRetain, s, t, slot, m);
    StepKeeps(PostThenRetain, s, BeginSend(t, slot, m));
    StacksUpdate(threads, t, [], other, [Sending(Ref(slot, m), 0, 1, Checking, true)]);
  }

  lemma {:induction false} AcceptsNext(s: State, threads: nat, t: nat, f: Frame, other: seq<Frame>, slots: set<nat>, n: nat, box: seq<Ref>)
    requires threads >= 2 && t < 2 && View(s, slots, n, box) && s.threads == Stacks(threads, t, [f], other)
    requires f.Sending? && f.next == 0 && f.last == 1 && f.phase == Checking
    ensures
      var s' := Apply(PostThenRetain, s, Advance(t));
      View(s', slots, n, box) && s'.threads == Stacks(threads, t, [f.(phase := Posting(false))], other)
  {
    hide Inv, Breaks;
    NotBroken(PostThenRetain, s);
    EverythingIsWanted(f.ref.message);
    AcceptStep(s, t, f);
    StepKeeps(PostThenRetain, s, Advance(t));
    StacksUpdate(threads, t, [f], other, [f.(phase := Posting(false))]);
  }

  /** The step of a sender with one frame: where its thread ends up. */
  lemma {:induction false} OneFrameMoves(s: State, threads: nat, t: nat, f: Frame, other: seq<Frame>)
    requires threads >= 2 && t < 2 && !s.broken && s.threads == Stacks(threads, t, [f], other)
    requires f.Sending? && f.next < f.last && f.next < |s.consumers|
    ensures
      var s' := Apply(PostThenRetain, s, Advance(t));
      && s' == Offer(PostThenRetain, s, t, f) && s'.bufferFull == s.bufferFull && SameConsumers(s, s')
      && s'.threads == Stacks(threads, t, [NextFrame(PostThenRetain, s, f)], other)
  {
    hide Offer, NextFrame;
    var g := NextFrame(PostThenRetain, s, f);
    OfferMoves(PostThenRetain, s, t, f);
    PopsTo(s, t, f);
    PopsThenPushes(s, t, f, Pop(s, t), g);
    StacksUpdate(threads, t, [f], other, [g]);
  }

  /** No frame of the two threads owes a retain. */
  predicate Settled(stack: seq<Frame>) {
    |stack| <= 1 && forall k :: 0 <= k < |stack| ==> !(stack[k].Sending? && stack[k].phase == Posted)
  }

  lemma {:induction false} SettledOwesNothing(stack: seq<Frame>, r: Ref)
    requires Settled(stack)
    ensures DueInStack(stack, r) == 0
  {
    if stack != [] { assert stack[..0] == []; }
  }

  lemma {:induction false} NothingIsOwed(s: State, threads: nat, t: nat, own: seq<Frame>, other: seq<Frame>, r: Ref)
    requires threads >= 2 && t < 2 && s.threads == Stacks(threads, t, own, other) && Settled(own) && Settled(other)
    ensures Owed(s, r) == 0
  {
    hide DueInThreads, DueInStack, InThreads, InStack, Settled;
    var idle, a, b := Init({}, threads).threads, s.threads[0], s.threads[1];
    NoFrames(threads, r);
    SettledOwesNothing(own, r);
    SettledOwesNothing(other, r);
    ThreadsUpdate(idle, 0, a, r);
    ThreadsUpdate(idle[0 := a], 1, b, r);
    NothingDue(r);
  }

  lemma NothingDue(r: Ref)
    ensures DueInStack([], r) == 0
  {}

  lemma {:induction false} Posts(s: State, threads: nat, t: nat, f: Frame, other: seq<Frame>, slots: set<nat>, n: nat)
    requires threads >= 2 && t < 2 && View(s, slots, n, []) && s.threads == Stacks(threads, t, [f], other)
    requires f.Sending? && f.next == 0 && f.last == 1 && f.phase == Posting(false)
    ensures
      var s' := Apply(PostThenRetain, s, Advance(t));
      View(s', slots, n, [f.ref]) && s'.threads == Stacks(threads, t, [f.(phase := Posted)], other)
  {
    hide Inv, Breaks, Wants;
    NotBroken(PostThenRetain, s);
    OneFrameMoves(s, threads, t, f, other);
    RoomStep(s, t, f);
    StepKeeps(PostThenRetain, s, Advance(t));
    assert [] + [f.ref] == [f.ref];
  }

  /** A step of a sender that is no release and touches neither mailboxes nor slots. */
  lemma {:induction false} QuietStep(s: State, threads: nat, t: nat, f: Frame, other: seq<Frame>, slots: set<nat>, n: nat, box: seq<Ref>)
    requires threads >= 2 && t < 2 && View(s, slots, n, box) && s.threads == Stacks(threads, t, [f], other)
    requires f.Sending? && f.next == 0 && f.last == 1
    requires f.phase == Posted || (f.phase == Posting(false) && box != []) || (f.phase == Retrying(false) && box != [])
    ensures
      var s' := Apply(PostThenRetain, s, Advance(t));
      View(s', slots, n, box) && s'.threads == Stacks(threads, t, [NextFrame(PostThenRetain, s, f)], other)
  {
    hide Inv, Breaks, Wants, Retain, Accepts;
    NotBroken(PostThenRetain, s);
    OneFrameMoves(s, threads, t, f, other);
    StepKeeps(PostThenRetain, s, Advance(t));
    RetainKeepsSlots(Pop(s, t), f.ref);
    RetainLeaves(Pop(s, t), f.ref);
  }

  lemma RetainKeepsSlots(s: State, q: Ref)
    ensures Retain(s, q).free == s.free && Retain(s, q).fates == s.fates
  {}

  lemma {:induction false} TakesOldest(s: State, threads: nat, t: nat, f: Frame, other: seq<Frame>, slots: set<nat>, n: nat, q: Ref)
    requires threads >= 2 && t < 2 && View(s, slots, n, [q]) && s.threads == Stacks(threads, t, [f], other)
    requires f.Sending? && f.next == 0 && f.last == 1 && f.phase == Full(false)
    ensures
      var s' := Apply(PostThenRetain, s, Advance(t));
      View(s', slots, n, []) && s'.threads == Stacks(threads, t, [f.(phase := Dropping(false, q))], other)
  {
    hide Inv, Breaks, Wants;
    NotBroken(PostThenRetain, s);
    OneFrameMoves(s, threads, t, f, other);
    StepKeeps(PostThenRetain, s, Advance(t));
    assert [q][1..] == [];
  }

  lemma ReleaseKeepsSlots(s: State, q: Ref)
    ensures s.free <= Release(s, q).free && forall h :: h in Release(s, q).fates ==> h in s.fates || h == q.message.handle
  {}

  lemma {:induction false} HandleIsKnown(s: State, q: Ref, n: nat)
    requires Inv(PostThenRetain, s) && q in s.counts && forall h :: h in s.fates ==> h < n
    ensures q.message.handle < n
  {
    assert InUse(s, q);
  }

  lemma {:induction false} Drops(s: State, threads: nat, t: nat, f: Frame, other: seq<Frame>, slots: set<nat>, n: nat, box: seq<Ref>)
    requires threads >= 2 && t < 2 && View(s, slots, n, box) && s.threads == Stacks(threads, t, [f], other) && Settled(other)
    requires f.Sending? && f.next == 0 && f.last == 1 && f.phase.Dropping? && !f.phase.held
    ensures
      var s' := Apply(PostThenRetain, s, Advance(t));
      View(s', slots, n, box) && s'.threads == Stacks(threads, t, [f.(phase := Retrying(false))], other)
  {
    hide Inv, Wants, Release, Owed, Settled, Own;
    var q, g := f.phase.oldest, f.(phase := Retrying(false));
    NotBroken(PostThenRetain, s);
    OneFrameMoves(s, threads, t, f, other);
    IsSettled(f);
    NothingIsOwed(s, threads, t, [f], other, q);
    StepKeeps(PostThenRetain, s, Advance(t));
    DroppedIsLive(s, t, f);
    HandleIsKnown(s, q, n);
    ReleaseLeaves(Replace(s, t, g), q);
    ReleaseKeepsSlots(Replace(s, t, g), q);
  }

  lemma IsSettled(f: Frame)
    ensures f.Sending? && f.phase != Posted ==> Settled([f])
    ensures Settled([])
  {}

  lemma {:induction false} DroppedIsLive(s: State, t: nat, f: Frame)
    requires Inv(PostThenRetain, s) && Top(s, t) == Some(f) && f.Sending?
    ensures f.ref in s.counts && (f.phase.Dropping? ==> f.phase.oldest in s.counts)
  {
    hide Good;
    TopIsLive(s, t, multiset{});
    assert Own(f, f.ref) > 0;
    assert f.phase.Dropping? ==> Own(f, f.phase.oldest) > 0;
  }

  /** The end of a send: a full buffer is reported if some consumer refused the packet. */
  lemma {:induction false} Finishes(s: State, threads: nat, t: nat, f: Frame, other: seq<Frame>, slots: set<nat>, n: nat, box: seq<Ref>)
    requires threads >= 2 && t < 2 && View(s, slots, n, box) && s.threads == Stacks(threads, t, [f], other) && Settled(other)
    requires f.Sending? && f.next == 1 && f.last == 1 && f.phase == Checking
    ensures
      var s' := Apply(PostThenRetain, s, Advance(t));
      && s'.threads == Stacks(threads, t, [], other)
      && |s'.consumers| == 1 && s'.consumers[0].mailbox == box
      && (if f.ok then View(s', slots, n, box) else s'.bufferFull == 1)
  {
    hide Inv, Wants, Release, Owed, Settled, Own, Offer;
    NotBroken(PostThenRetain, s);
    IsSettled(f);
    NothingIsOwed(s, threads, t, [f], other, f.ref);
    StepKeeps(PostThenRetain, s, Advance(t));
    DroppedIsLive(s, t, f);
    HandleIsKnown(s, f.ref, n);
    PopsTo(s, t, f);
    StacksUpdate(threads, t, [f], other, []);
    ReleaseLeaves(Pop(s, t), f.ref);
    ReleaseKeepsSlots(Pop(s, t), f.ref);
  }

  // ----- the run -----

  /** A state that a run from `s0` reaches, by events none of which registers a consumer without room. */
  ghost predicate Reaches(s0: State, events: seq<Event>, s: State) {
    After(PostThenRetain, s0, events) == s && Roomy(events)
  }

  lemma {:induction false} OneMore(s0: State, events: seq<Event>, s: State, e: Event) returns (more: seq<Event>, s': State)
    requires Reaches(s0, events, s) && (e.Register? ==> e.capacity >= 1)
    ensures Reaches(s0, more, s') && s' == Apply(PostThenRetain, s, e)
  {
    hide Apply;
    more, s' := events + [e], Apply(PostThenRetain, s, e);
    AfterConcat(PostThenRetain, s0, events, [e]);
    AfterOne(PostThenRetain, s, e);
  }

  /** Thread `t` posts packet `n` into the empty mailbox and retains it. */
  lemma {:induction false} SendsInto(s0: State, before: seq<Event>, s: State, threads: nat, t: nat, other: seq<Frame>,
                                     slots: set<nat>, slot: nat, n: nat)
    returns (events: seq<Event>, s': State)
    requires threads >= 2 && t < 2 && Reaches(s0, before, s) && View(s, slots, n, []) && slot in slots
    requires s.threads == Stacks(threads, t, [], other)
    ensures Reaches(s0, events, s') && View(s', slots - {slot}, n + 1, [Ref(slot, Message(n, 0, 0))])
    ensures s'.threads == Stacks(threads, t, [Sending(Ref(slot, Message(n, 0, 0)), 1, 1, Checking, true)], other)
  {
    hide Apply, View, Reaches, Stacks;
    var m, left := Message(n, 0, 0), slots - {slot};
    var f := Sending(Ref(slot, m), 0, 1, Checking, true);
    Begins(s, threads, t, other, slots, slot, n, []);
    events, s' := OneMore(s0, before, s, BeginSend(t, slot, m));
    AcceptsNext(s', threads, t, f, other, left, n + 1, []);
    events, s' := OneMore(s0, events, s', Advance(t));
    Posts(s', threads, t, f.(phase := Posting(false)), other, left, n + 1);
    events, s' := OneMore(s0, events, s', Advance(t));
    ViewHasOne(s', left, n + 1, [f.ref]);
    PostedGoesOn(s', f.(phase := Posted));
    QuietStep(s', threads, t, f.(phase := Posted), other, left, n + 1, [f.ref]);
    events, s' := OneMore(s0, events, s', Advance(t));
  }

  lemma ViewHasOne(s: State, slots: set<nat>, n: nat, box: seq<Ref>)
    requires View(s, slots, n, box)
    ensures |s.consumers| == 1 && (HasRoom(s, 0) <==> box == [])
  {}

  lemma PostedGoesOn(s: State, f: Frame)
    requires f.Sending? && f.phase == Posted && f.next < |s.consumers|
    ensures NextFrame(PostThenRetain, s, f) == NextConsumer(f, true)
  {}

  /** Thread `t` finds the mailbox full and takes the oldest entry out. */
  lemma {:induction false} MakesRoom(s0: State, before: seq<Event>, s: State, threads: nat, t: nat, other: seq<Frame>,
                                     slots: set<nat>, slot: nat, n: nat, q: Ref)
    returns (events: seq<Event>, s': State)
    requires threads >= 2 && t < 2 && Reaches(s0, before, s) && View(s, slots, n, [q]) && slot in slots
    requires s.threads == Stacks(threads, t, [], other)
    ensures Reaches(s0, events, s') && View(s', slots - {slot}, n + 1, [])
    ensures s'.threads == Stacks(threads, t, [Sending(Ref(slot, Message(n, 0, 0)), 0, 1, Dropping(false, q), true)], other)
  {
    hide Apply, View, Reaches, Stacks;
    var m, left := Message(n, 0, 0), slots - {slot};
    var f := Sending(Ref(slot, m), 0, 1, Checking, true);
    Begins(s, threads, t, other, slots, slot, n, [q]);
    events, s' := OneMore(s0, before, s, BeginSend(t, slot, m));
    AcceptsNext(s', threads, t, f, other, left, n + 1, [q]);
    events, s' := OneMore(s0, events, s', Advance(t));
    ViewHasOne(s', left, n + 1, [q]);
    PostingFindsFull(s', f.(phase := Posting(false)));
    QuietStep(s', threads, t, f.(phase := Posting(false)), other, left, n + 1, [q]);
    events, s' := OneMore(s0, events, s', Advance(t));
    TakesOldest(s', threads, t, f.(phase := Full(false)), other, left, n + 1, q);
    events, s' := OneMore(s0, events, s', Advance(t));
  }

  lemma PostingFindsFull(s: State, f: Frame)
    requires f.Sending? && f.next < |s.consumers| && !HasRoom(s, f.next)
    ensures f.phase == Posting(false) ==> NextFrame(PostThenRetain, s, f) == f.(phase := Full(false))
    ensures f.phase == Retrying(false) ==> NextFrame(PostThenRetain, s, f) == NextConsumer(f, false)
  {}

  /**
   In the code's order, a second thread that posts between the drop and the second post takes the room: the
   send of packet 1 reports a full buffer after it dropped packet 0, and what is queued is packet 2.
   */
  lemma {:induction false} SecondThreadTakesTheRoom(pool: set<nat>, threads: nat) returns (events: seq<Event>)
    requires |pool| == MAX_NUM_TELEMETRY_REFS && threads >= 2
    ensures Roomy(events)
    ensures
      var s := After(PostThenRetain, Init(pool, threads), events);
      && s.bufferFull == 1
      && |s.consumers| == 1 && |s.consumers[0].mailbox| == 1 && s.consumers[0].mailbox[0].message.handle == 2
  {
    hide Apply, View, Reaches, Stacks, After, Wants, Settled, Inv;
    var s0 := Init(pool, threads);
    var x, y, z := ThreeSlots(pool);
    var left := {x, y, z};
    var s;
    events, s := Registers(pool, threads);
    ViewFewer(s, pool, left, 0, []);
    events, s := SendsInto(s0, events, s, threads, 1, [], left, x, 0);
    var q0, left1 := Ref(x, Message(0, 0, 0)), left - {x};
    IsSettled(Holding(q0));
    Finishes(s, threads, 1, Sending(q0, 1, 1, Checking, true), [], left1, 1, [q0]);
    events, s := OneMore(s0, events, s, Advance(1));
    StacksSwap(threads, 1, [], []);
    events, s := MakesRoom(s0, events, s, threads, 0, [], left1, y, 1, q0);
    var f, left2 := Sending(Ref(y, Message(1, 0, 0)), 0, 1, Dropping(false, q0), true), left1 - {y};
    StacksSwap(threads, 0, [f], []);
    events, s := SendsInto(s0, events, s, threads, 1, [f], left2, z, 2);
    var q2, g, left3 := Ref(z, Message(2, 0, 0)), Sending(Ref(z, Message(2, 0, 0)), 1, 1, Checking, true), left2 - {z};
    StacksSwap(threads, 1, [g], [f]);
    IsSettled(g);
    Drops(s, threads, 0, f, [g], left3, 3, [q2]);
    events, s := OneMore(s0, events, s, Advance(0));
    var h := f.(phase := Retrying(false));
    ViewHasOne(s, left3, 3, [q2]);
    PostingFindsFull(s, h);
    QuietStep(s, threads, 0, h, [g], left3, 3, [q2]);
    events, s := OneMore(s0, events, s, Advance(0));
    Finishes(s, threads, 0, NextConsumer(h, false), [g], left3, 3, [q2]);
    events, s := OneMore(s0, events, s, Advance(0));
    ReachesIs(s0, events, s);
  }

  lemma ReachesIs(s0: State, events: seq<Event>, s: State)
    requires Reaches(s0, events, s)
    ensures After(PostThenRetain, s0, events) == s && Roomy(events)
  {}

  lemma ViewFewer(s: State, slots: set<nat>, fewer: set<nat>, n: nat, box: seq<Ref>)
    requires View(s, slots, n, box) && fewer <= slots
    ensures View(s, fewer, n, box)
  {
    hide Inv;
  }

  lemma ThreeSlots(pool: set<nat>) returns (x: nat, y: nat, z: nat)
    requires |pool| >= 3
    ensures x in pool && y in pool && z in pool && x != y && y != z && x != z
  {
    x :| x in pool;
    assert |pool - {x}| >= 2;
    y :| y in pool - {x};
    assert |pool - {x} - {y}| >= 1;
    z :| z in pool - {x} - {y};
  }

  lemma {:induction false} Registers(pool: set<nat>, threads: nat) returns (events: seq<Event>, s: State)
    requires |pool| == MAX_NUM_TELEMETRY_REFS && threads >= 2
    ensures Reaches(Init(pool, threads), events, s) && View(s, pool, 0, []) && s.threads == Stacks(threads, 1, [], [])
  {
    hide Inv, Wants;
    var s0, o := Init(pool, threads), PostThenRetain;
    InitIsGood(o, pool, threads);
    RegisterStep1(o, s0, EVERYTHING, 1);
    StepKeeps(o, s0, Register(EVERYTHING, 1));
    NotBroken(o, s0);
    events, s := [Register(EVERYTHING, 1)], Apply(o, s0, Register(EVERYTHING, 1));
    AfterOne(o, s0, Register(EVERYTHING, 1));
    assert Init({}, threads).threads == s0.threads == Init({}, threads).threads[0 := []][1 := []];
  }

  /** In the code's order, no send ever reports a full buffer if and only if at most one thread uses the bus. */
  lemma {:induction false} NeverFullIffAlone(pool: set<nat>, threads: nat)
    requires |pool| == MAX_NUM_TELEMETRY_REFS
    ensures
      (forall events :: Roomy(events) ==> After(PostThenRetain, Init(pool, threads), events).bufferFull == 0) <==> threads <= 1
  {
    hide After, Roomy;
    if threads <= 1 {
      forall events | Roomy(events) ensures After(PostThenRetain, Init(pool, threads), events).bufferFull == 0 {
        AloneIsNeverRefused(PostThenRetain, pool, threads, events);
      }
    } else {
      var events := SecondThreadTakesTheRoom(pool, threads);
    }
  }
}
