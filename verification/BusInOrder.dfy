/**
 In which order accepted packets are queued. Every thread posts to a consumer in the order of its own checks, whatever the
 order of post and retain; across threads that is so only where no second thread uses the bus.
 */
module BusInOrder {
  import opened Telemetry
  import opened Bus
  import opened BusRuns
  import opened BusMoves
  import opened BusWindow
  import opened BusThreads
  import opened BusHistory
  import opened BusRefusals

  // ----- one thread's packets for one consumer -----

  /** The packet with which thread `t` stands between its check of consumer `c` and the post. */
  function StandingWith(s: State, t: nat, c: nat): (ms: seq<Message>)
    ensures |ms| <= 1
  {
    match Top(s, t)
    case None => []
    case Some(f) => if f.Sending? && Pending(f.phase) && f.next == c then [f.ref.message] else []
  }

  /** What a step adds to the packets that went into the mailbox of `c`. */
  function Added(s: State, s': State, c: nat): seq<Message> {
    if |OfferedTo(s, c)| <= |OfferedTo(s', c)| then OfferedTo(s', c)[|OfferedTo(s, c)|..] else []
  }

  /** What thread `t` has accepted for `c` by its checks, in order. */
  function AcceptedFrom(order: Order, s: State, events: seq<Event>, t: nat, c: nat): seq<Message>
    decreases |events|
  {
    if events == [] then []
    else
      AcceptedFrom(order, s, Front(events), t, c)
      + if By(Last(events), t) then AcceptedBy(After(order, s, Front(events)), Last(events), c) else []
  }

  /** What steps of thread `t` put into the mailbox of `c`, with the packets that `c` refused it, in order. */
  function SettledFrom(order: Order, s: State, events: seq<Event>, t: nat, c: nat): seq<Message>
    decreases |events|
  {
    if events == [] then []
    else
      SettledFrom(order, s, Front(events), t, c)
      + if By(Last(events), t) then SettledBy(order, After(order, s, Front(events)), Last(events), c) else []
  }

  predicate By(e: Event, t: nat) { e.Advance? && e.thread == t }

  function SettledBy(order: Order, s: State, e: Event, c: nat): seq<Message> {
    Added(s, Apply(order, s, e), c) + RefusedBy(order, s, e, c)
  }

  /** The step of a sender: it accepts, puts in or refuses, or still stands where it stood. */
  lemma {:induction false} FrameSettles(order: Order, s: State, f: Frame, c: nat)
    requires f.Sending? && f.next < |s.consumers| && f.next < f.last
    ensures
      var g, m := NextFrame(order, s, f), [f.ref.message];
      (if Pending(f.phase) && f.next == c then m else [])
      + (if f.next == c && f.phase == Checking && Accepts(s.consumers[f.next], f.ref.message) then m else [])
      == (if f.next == c && PutsIn(order, s, f) then m else []) + (if f.next == c && Refusing(order, s, f) then m else [])
         + (if Pending(g.phase) && g.next == c then m else [])
  {
    hide Wants, HasRoom, Fits;
  }

  lemma {:induction false} SenderSettles(order: Order, s: State, t: nat, f: Frame, c: nat)
    requires Sender(s, Advance(t)) == Some(f)
    ensures
      var e, s' := Advance(t), Apply(order, s, Advance(t));
      && OfferedTo(s', c) == OfferedTo(s, c) + Added(s, s', c)
      && StandingWith(s, t, c) + AcceptedBy(s, e, c) == SettledBy(order, s, e, c) + StandingWith(s', t, c)
  {
    hide Offer, NextFrame, PutsIn, Refusing, Wants;
    OfferMoves(order, s, t, f);
    FrameSettles(order, s, f, c);
    TopIs(s, Apply(order, s, Advance(t)), t, NextFrame(order, s, f));
    var ms := if PutsIn(order, s, f) then [f.ref.message] else [];
    assert OfferedTo(Apply(order, s, Advance(t)), c) == OfferedTo(s, c) + if c == f.next then ms else [];
    assert Added(s, Apply(order, s, Advance(t)), c) == if c == f.next then ms else [];
  }

  lemma TopIs(s: State, s': State, t: nat, g: Frame)
    requires Top(s, t).Some? && s'.threads == Replace(s, t, g).threads
    ensures Top(s', t) == Some(g) && forall u :: u != t ==> Top(s', u) == Top(s, u)
  {}

  /** Any other event: nothing is accepted, offered or refused, and everybody stands where they stood. */
  lemma {:induction false} OthersSettleNothing(order: Order, s: State, e: Event, t: nat, c: nat)
    requires Sender(s, e) == None && OnlyTopsSend(s) && Tidy(order, false, s)
    ensures OfferedTo(Apply(order, s, e), c) == OfferedTo(s, c) && StandingWith(Apply(order, s, e), t, c) == StandingWith(s, t, c)
  {
    hide Tidy, OnlyTopsSend, Apply, StandingWith, OfferedTo, Sender;
    OtherEventsStand(order, s, e, Standing(c, Message(0, 0, 0)), c);
    if e.Advance? {
      LeaverStandsNowhere(order, s, e.thread, t, c);
    } else {
      OthersStandStill(order, s, e, t, c);
    }
  }

  lemma {:induction false} OthersStandStill(order: Order, s: State, e: Event, t: nat, c: nat)
    requires !e.Advance?
    ensures StandingWith(Apply(order, s, e), t, c) == StandingWith(s, t, c)
  {
    hide Create, FreePacket, Wants;
    if e.BeginSend? { CreateLeaves(s, Ref(e.slot, e.message)); }
  }

  lemma {:induction false} LeaverStandsNowhere(order: Order, s: State, u: nat, t: nat, c: nat)
    requires Sender(s, Advance(u)) == None && OnlyTopsSend(s) && Tidy(order, false, s)
    ensures StandingWith(Apply(order, s, Advance(u)), t, c) == StandingWith(s, t, c)
  {
    hide Offer, Release, Tidy;
    if !s.broken && Top(s, u).Some? {
      PopTidy(order, false, s, u);
      hide Wants;
      ReleaseLeaves(Pop(s, u), Top(s, u).value.ref);
    }
  }

  lemma {:induction false} StepSettles(order: Order, s: State, e: Event, t: nat, c: nat)
    requires OnlyTopsSend(s) && Tidy(order, false, s)
    ensures
      var s' := Apply(order, s, e);
      && OfferedTo(s', c) == OfferedTo(s, c) + Added(s, s', c)
      && StandingWith(s, t, c) + (if By(e, t) then AcceptedBy(s, e, c) else [])
         == (if By(e, t) then SettledBy(order, s, e, c) else []) + StandingWith(s', t, c)
  {
    hide Apply, Tidy, OnlyTopsSend, OfferedTo;
    match Sender(s, e)
    case None => {
      OthersSettleNothing(order, s, e, t, c);
      assert OfferedTo(s, c) + [] == OfferedTo(s, c);
    }
    case Some(f) => {
      SenderSettles(order, s, e.thread, f, c);
      if e.thread != t { OtherThreadStays(order, s, e.thread, f, t); }
    }
  }

  lemma {:induction false} OtherThreadStays(order: Order, s: State, u: nat, f: Frame, t: nat)
    requires Sender(s, Advance(u)) == Some(f) && t != u
    ensures Top(Apply(order, s, Advance(u)), t) == Top(s, t)
  {
    hide Offer, NextFrame, PutsIn, Offers;
    OfferMoves(order, s, u, f);
    TopIs(s, Apply(order, s, Advance(u)), u, NextFrame(order, s, f));
  }

  /** What holds in every run, and is needed here. */
  ghost predicate Usual(order: Order, s: State) { OnlyTopsSend(s) && Tidy(order, false, s) }

  lemma {:induction false} UsualRun(order: Order, s: State, events: seq<Event>)
    requires Usual(order, s)
    ensures Usual(order, After(order, s, events))
    decreases |events|
  {
    hide Apply, Tidy, OnlyTopsSend;
    if events != [] {
      OnlyTopsSendStill(order, s, events[0]);
      StepTidy(order, false, s, events[0]);
      UsualRun(order, Apply(order, s, events[0]), events[1..]);
    }
  }

  lemma UsualAtFirst(order: Order, pool: set<nat>, threads: nat)
    ensures Usual(order, Init(pool, threads))
  {
    hide Tidy;
    InitIsTidy(order, false, pool, threads);
  }

  lemma {:induction false} RunSettles(order: Order, s: State, events: seq<Event>, t: nat, c: nat)
    requires Usual(order, s) && StandingWith(s, t, c) == []
    ensures
      AcceptedFrom(order, s, events, t, c) == SettledFrom(order, s, events, t, c) + StandingWith(After(order, s, events), t, c)
    decreases |events|
  {
    hide Apply, Usual, AcceptedBy, SettledBy, StandingWith;
    if events != [] {
      var before, e := After(order, s, Front(events)), Last(events);
      RunSettles(order, s, Front(events), t, c);
      UsualRun(order, s, Front(events));
      UsualHere(order, before);
      StepSettles(order, before, e, t, c);
      AfterSnoc(order, s, events);
      var done, stood := SettledFrom(order, s, Front(events), t, c), StandingWith(before, t, c);
      var accepted := if By(e, t) then AcceptedBy(before, e, c) else [];
      var settled := if By(e, t) then SettledBy(order, before, e, c) else [];
      assert done + stood + accepted == done + (stood + accepted);
      assert done + (settled + StandingWith(After(order, s, events), t, c)) == done + settled + StandingWith(After(order, s, events), t, c);
    }
  }

  lemma UsualHere(order: Order, s: State)
    requires Usual(order, s)
    ensures OnlyTopsSend(s) && Tidy(order, false, s)
  {
    hide Tidy, OnlyTopsSend;
  }

  /**
   In every run, whatever the order of post and retain: what one thread puts into a consumer's mailbox, with what the
   consumer refused it, is in order what the thread's checks of it accepted, but for the packet it may be standing with.
   */
  lemma {:induction false} EachThreadPostsInOrder(order: Order, pool: set<nat>, threads: nat, events: seq<Event>, t: nat, c: nat)
    ensures
      var s0 := Init(pool, threads);
      AcceptedFrom(order, s0, events, t, c) == SettledFrom(order, s0, events, t, c) + StandingWith(After(order, s0, events), t, c)
  {
    hide After, Usual, AcceptedFrom, SettledFrom;
    UsualAtFirst(order, pool, threads);
    RunSettles(order, Init(pool, threads), events, t, c);
  }

  // ----- one thread -----

  lemma {:induction false} AloneRefusesNothing(order: Order, s: State, e: Event, c: nat)
    requires Unrefused(order, s)
    ensures RefusedBy(order, s, e, c) == []
  {
    hide Unrefused, Refusing;
    if Sender(s, e).Some? {
      First(order, s, e.thread);
      NotRefusing(order, s, Sender(s, e).value);
    }
  }

  lemma NobodyAccepts(s: State, e: Event, c: nat)
    ensures Sender(s, e) == None ==> AcceptedBy(s, e, c) == []
    ensures Sender(s, e).Some? ==> e.Advance?
  {}

  lemma {:induction false} AloneStepInOrder(order: Order, s: State, e: Event, c: nat)
    requires Unrefused(order, s) && Usual(order, s)
    ensures
      var s' := Apply(order, s, e);
      OfferedTo(s, c) + StandingWith(s, 0, c) + AcceptedBy(s, e, c) == OfferedTo(s', c) + StandingWith(s', 0, c)
  {
    hide Unrefused, Usual, Apply, StandingWith, OfferedTo, AcceptedBy, RefusedBy, Added, Tidy, OnlyTopsSend;
    UsualHere(order, s);
    StepSettles(order, s, e, 0, c);
    NobodyAccepts(s, e, c);
    AloneRefusesNothing(order, s, e, c);
    var s' := Apply(order, s, e);
    if Sender(s, e).Some? {
      First(order, s, e.thread);
      var added := Added(s, s', c);
      assert added + [] == added;
      assert OfferedTo(s, c) + StandingWith(s, 0, c) + AcceptedBy(s, e, c)
          == OfferedTo(s, c) + (StandingWith(s, 0, c) + AcceptedBy(s, e, c));
      assert OfferedTo(s, c) + (added + StandingWith(s', 0, c)) == OfferedTo(s, c) + added + StandingWith(s', 0, c);
    } else {
      OthersSettleNothing(order, s, e, 0, c);
      assert OfferedTo(s, c) + StandingWith(s, 0, c) + [] == OfferedTo(s, c) + StandingWith(s, 0, c);
    }
  }

  lemma {:induction false} AloneRunInOrder(order: Order, s: State, events: seq<Event>, c: nat)
    requires Unrefused(order, s) && Usual(order, s) && Roomy(events)
    ensures
      var s' := After(order, s, events);
      OfferedTo(s', c) + StandingWith(s', 0, c) == OfferedTo(s, c) + StandingWith(s, 0, c) + Accepted(order, s, events, c)
    decreases |events|
  {
    hide Unrefused, Usual, Apply, StandingWith, OfferedTo, AcceptedBy;
    var start := OfferedTo(s, c) + StandingWith(s, 0, c);
    if events == [] {
      assert start + [] == start;
    } else {
      var front, e := Front(events), Last(events);
      var before := After(order, s, front);
      AloneRunInOrder(order, s, front, c);
      RunUnrefused(order, s, front);
      UsualRun(order, s, front);
      AloneStepInOrder(order, before, e, c);
      AfterSnoc(order, s, events);
      var u, v := Accepted(order, s, front, c), AcceptedBy(before, e, c);
      assert start + u + v == start + (u + v);
    }
  }

  /**
   With one thread, in every order, the code's own included: a consumer's matching-while-unpaused history is, in order, what was
   taken out of its mailbox, then what is queued, then the packet that the thread may be standing with.
   */
  lemma {:induction false} AloneQueuesInOrder(order: Order, pool: set<nat>, threads: nat, events: seq<Event>, c: nat)
    requires threads <= 1 && Roomy(events) && c < |After(order, Init(pool, threads), events).consumers|
    ensures
      var s := After(order, Init(pool, threads), events);
      var box := s.consumers[c];
      Accepted(order, Init(pool, threads), events, c)
        == MessagesTaken(box.taken) + Messages(box.mailbox) + StandingWith(s, 0, c)
  {
    hide After, Tidy, Accepted, Messages, MessagesTaken, Usual;
    InitIsTidy(order, true, pool, threads);
    UsualAtFirst(order, pool, threads);
    AloneRunInOrder(order, Init(pool, threads), events, c);
    MailboxesAreWindows(order, pool, threads, events, c);
    var accepted := Accepted(order, Init(pool, threads), events, c);
    assert [] + [] + accepted == accepted;
  }

  // ----- two threads, in the code's order -----

  /** What entered the mailbox of `c` is, in order, what `c` accepted first. */
  ghost predicate KeepsOrder(s: State, c: nat, accepted: seq<Message>) {
    c < |s.consumers| ==> MessagesTaken(s.consumers[c].taken) + Messages(s.consumers[c].mailbox) <= accepted
  }

  /** Thread 0 checks packet 0, thread 1 checks packet 1 and posts it first. */
  function OvertakingEvents(x: nat, y: nat): seq<Event> {
    [Register(EVERYTHING, 1), BeginSend(0, x, Message(0, 0, 0)), BeginSend(1, y, Message(1, 0, 0)), Advance(0), Advance(1), Advance(1)]
  }

  /** One event more, and what the consumer accepts by it. */
  lemma {:induction false} AcceptsMore(s0: State, events: seq<Event>, e: Event, s: State, s': State)
    requires After(PostThenRetain, s0, events) == s && Apply(PostThenRetain, s, e) == s'
    ensures After(PostThenRetain, s0, events + [e]) == s'
    ensures Accepted(PostThenRetain, s0, events + [e], 0) == Accepted(PostThenRetain, s0, events, 0) + AcceptedBy(s, e, 0)
  {
    hide Apply, AcceptedBy;
    assert Front(events + [e]) == events && Last(events + [e]) == e;
    AfterSnoc(PostThenRetain, s0, events + [e]);
  }

  lemma {:induction false} SecondThreadOvertakes(pool: set<nat>, threads: nat, x: nat, y: nat)
    requires x in pool && y in pool && x != y && threads >= 2
    ensures
      var s := After(PostThenRetain, Init(pool, threads), OvertakingEvents(x, y));
      && |s.consumers| == 1 && s.consumers[0].offered == [Message(1, 0, 0)]
      && Accepted(PostThenRetain, Init(pool, threads), OvertakingEvents(x, y), 0) == [Message(0, 0, 0), Message(1, 0, 0)]
  {
    hide Apply, After, Wants, Accepted;
    var o, s0, m0, m1 := PostThenRetain, Init(pool, threads), Message(0, 0, 0), Message(1, 0, 0);
    var f0, f1 := Sending(Ref(x, m0), 0, 1, Checking, true), Sending(Ref(y, m1), 0, 1, Checking, true);
    var e1, e2, e3, e4, e5 := Register(EVERYTHING, 1), BeginSend(0, x, m0), BeginSend(1, y, m1), Advance(0), Advance(1);
    EverythingIsWanted(m0);
    EverythingIsWanted(m1);
    RegisterStep1(o, s0, EVERYTHING, 1);
    var s1 := Apply(o, s0, e1);
    BeginStep(o, s1, 0, x, m0);
    var s2 := Apply(o, s1, e2);
    BeginStep(o, s2, 1, y, m1);
    var s3 := Apply(o, s2, e3);
    AcceptStep(s3, 0, f0);
    var s4 := Apply(o, s3, e4);
    AcceptStep(s4, 1, f1);
    var s5 := Apply(o, s4, e5);
    RoomStep(s5, 1, f1.(phase := Posting(false)));
    var s6 := Apply(o, s5, e5);
    Nothing(s0);
    var v1 := [] + [e1];
    var v2 := v1 + [e2];
    var v3 := v2 + [e3];
    var v4 := v3 + [e4];
    var v5 := v4 + [e5];
    AcceptsMore(s0, [], e1, s0, s1);
    AcceptsMore(s0, v1, e2, s1, s2);
    AcceptsMore(s0, v2, e3, s2, s3);
    AcceptsMore(s0, v3, e4, s3, s4);
    AcceptsMore(s0, v4, e5, s4, s5);
    AcceptsMore(s0, v5, e5, s5, s6);
    assert OvertakingEvents(x, y) == v5 + [e5];
  }

  lemma Nothing(s: State)
    ensures After(PostThenRetain, s, []) == s && Accepted(PostThenRetain, s, [], 0) == []
  {}

  /** In the code's order, every consumer's packets are queued in the order it accepted them, in every run, if and only if at most one thread uses the bus. */
  lemma {:induction false} InOrderIffAlone(pool: set<nat>, threads: nat)
    requires |pool| == MAX_NUM_TELEMETRY_REFS
    ensures
      var o, s0 := PostThenRetain, Init(pool, threads);
      (forall events, c: nat :: Roomy(events) ==> KeepsOrder(After(o, s0, events), c, Accepted(o, s0, events, c))) <==> threads <= 1
  {
    hide After, Accepted, Roomy, Messages, MessagesTaken;
    var o, s0 := PostThenRetain, Init(pool, threads);
    if threads <= 1 {
      forall events, c: nat | Roomy(events) ensures KeepsOrder(After(o, s0, events), c, Accepted(o, s0, events, c)) {
        if c < |After(o, s0, events).consumers| { AloneQueuesInOrder(o, pool, threads, events, c); }
      }
    } else {
      var x, y, z := ThreeSlots(pool);
      var events := OvertakingEvents(x, y);
      SecondThreadOvertakes(pool, threads, x, y);
      MailboxesAreWindows(o, pool, threads, events, 0);
      OvertakingIsRoomy(x, y);
      assert [Message(1, 0, 0)][0] != [Message(0, 0, 0), Message(1, 0, 0)][0];
      assert !KeepsOrder(After(o, s0, events), 0, Accepted(o, s0, events, 0));
    }
  }

  lemma OvertakingIsRoomy(x: nat, y: nat)
    ensures Roomy(OvertakingEvents(x, y))
  {}
}
