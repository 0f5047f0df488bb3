/** Threads and the code's order: one thread is safe, two are not. */
module BusThreads {
  import opened Telemetry
  import opened Bus
  import opened BusSafety
  import opened BusSteps
  import opened BusRuns
  import opened BusMoves

  // ----- one thread -----

  /** At most one thread, and below the top of its stack only callbacks that called the bus again. */
  ghost predicate Alone(s: State) { |s.threads| <= 1 && OnlyTopsSend(s) }

  /** Below the top of every stack are only callbacks that called the bus again. */
  ghost predicate OnlyTopsSend(s: State) {
    forall t :: 0 <= t < |s.threads| ==> OnlyCallbacks(s.threads[t])
  }

  predicate OnlyCallbacks(stack: seq<Frame>) {
    forall k :: 0 <= k < |stack| - 1 ==> stack[k].Holding?
  }

  /** Steps keep the number of threads and change at most the top of one stack, or add to one whose thread is ready. */
  ghost predicate ChangesTop(s: State, s': State, t: nat) {
    && |s'.threads| == |s.threads|
    && t < |s.threads| && s.threads[t] != []
    && (forall u :: 0 <= u < |s.threads| && u != t ==> s'.threads[u] == s.threads[u])
    && |s'.threads[t]| <= |s.threads[t]|
    && forall k :: 0 <= k < |s.threads[t]| - 1 && k < |s'.threads[t]| ==> s'.threads[t][k] == s.threads[t][k]
  }

  lemma {:induction false} AdvanceChangesTop(order: Order, s: State, t: nat, f: Frame)
    requires Top(s, t) == Some(f)
    ensures ChangesTop(s, Proceed(order, s, t, f), t)
  {
    hide Release, Offer, NextFrame, PutsIn, Offers;
    ReleaseLeaves(Pop(s, t), f.ref);
    if f.Sending? && f.next < |s.consumers| { OfferMoves(order, s, t, f); }
  }

  lemma {:induction false} OnlyTopsSendStill(order: Order, s: State, e: Event)
    requires OnlyTopsSend(s)
    ensures OnlyTopsSend(Apply(order, s, e)) && |Apply(order, s, e).threads| == |s.threads|
  {
    hide Proceed, Release, Create, FreePacket;
    if e.Advance? && Top(s, e.thread).Some? {
      AdvanceChangesTop(order, s, e.thread, Top(s, e.thread).value);
    } else if e.BeginSend? {
      CreateKeepsThreads(s, Ref(e.slot, e.message), e.message.handle);
    }
  }

  lemma {:induction false} AloneStays(order: Order, s: State, e: Event)
    requires Alone(s)
    ensures Alone(Apply(order, s, e))
  {
    hide Apply, OnlyTopsSend;
    OnlyTopsSendStill(order, s, e);
  }

  lemma CreateKeepsThreads(s: State, q: Ref, h: nat)
    ensures Create(s, q).threads == s.threads && FreePacket(s, h).threads == s.threads
  {}

  lemma {:induction false} NothingDueBelow(stack: seq<Frame>, r: Ref)
    requires forall k :: 0 <= k < |stack| ==> stack[k].Holding?
    ensures DueInStack(stack, r) == 0
  {
    if stack != [] { NothingDueBelow(stack[..|stack| - 1], r); }
  }

  /** With one thread, only the sender on top can owe a retain, and then its next step releases nothing. */
  lemma {:induction false} AloneNeverBreaks(s: State, f: Frame)
    requires Alone(s) && Top(s, 0) == Some(f) && ReleasedBy(s, f).Some?
    ensures forall r :: Owed(s, r) == 0
  {
    var stack := s.threads[0];
    assert s.threads[1..] == [];
    forall r ensures Owed(s, r) == 0 {
      NothingDueBelow(stack[..|stack| - 1], r);
      assert DueInStack(stack, r) == DueInStack(stack[..|stack| - 1], r) + Due(f, r);
      assert DueInThreads(s.threads, r) == DueInStack(stack, r) + DueInThreads([], r);
    }
  }

  lemma {:induction false} AloneStepsWell(order: Order, s: State, e: Event)
    requires Inv(order, s) && Alone(s)
    ensures Inv(order, Apply(order, s, e))
  {
    hide Inv, Apply, Owed, Alone;
    StepKeeps(order, s, e);
    if e.Advance? && Top(s, e.thread).Some? {
      var f := Top(s, e.thread).value;
      if ReleasedBy(s, f).Some? {
        AloneIsFirst(s, e.thread);
        AloneNeverBreaks(s, f);
      }
    }
  }

  lemma AloneIsFirst(s: State, t: nat)
    requires Alone(s) && Top(s, t).Some?
    ensures t == 0
  {}

  lemma {:induction false} AloneRunsWell(order: Order, s: State, events: seq<Event>)
    requires Inv(order, s) && Alone(s)
    ensures Inv(order, After(order, s, events))
    decreases |events|
  {
    hide Inv, Apply, Alone;
    if events != [] {
      AloneStepsWell(order, s, events[0]);
      AloneStays(order, s, events[0]);
      AloneRunsWell(order, Apply(order, s, events[0]), events[1..]);
    }
  }

  // ----- posts that nothing interrupts -----

  /** In the code's order a post and a retain that nothing interrupts come to the same as the one step. */
  lemma {:induction false} UninterruptedPostIsOneStep(s: State, t: nat, f: Frame)
    requires !s.broken && Top(s, t) == Some(f) && f.Sending? && f.next < f.last && f.next < |s.consumers|
    requires (f.phase == Posting(false) || f.phase == Retrying(false)) && HasRoom(s, f.next)
    ensures
      var o := PostThenRetain;
      Apply(o, Apply(o, s, Advance(t)), Advance(t)) == Apply(PostRetain, s, Advance(t))
  {
    hide Wants, Release, Retain;
    var popped := Deposit(Pop(s, t), f.next, f.ref);
    var posted := Push(popped, t, f.(phase := Posted));
    assert Apply(PostThenRetain, s, Advance(t)) == posted;
    assert (popped.threads[t] + [f.(phase := Posted)])[..|popped.threads[t]|] == popped.threads[t];
    assert popped.threads[t := posted.threads[t]][t := popped.threads[t]] == popped.threads;
    assert Pop(posted, t) == popped;
  }

  /** Apart from posts, the two orders take the same steps. */
  lemma {:induction false} OtherStepsAreTheSame(s: State, t: nat, f: Frame)
    requires !s.broken && Top(s, t) == Some(f)
    requires !(f.Sending? && f.next < f.last && f.next < |s.consumers|
               && (f.phase == Posting(false) || f.phase == Retrying(false)) && HasRoom(s, f.next))
    ensures Apply(PostThenRetain, s, Advance(t)) == Apply(PostRetain, s, Advance(t))
  {
    hide Wants, Release, Retain, Replace;
  }

  lemma {:induction false} FusedStepIsCodeSteps(s: State, e: Event) returns (v: seq<Event>)
    ensures After(PostThenRetain, s, v) == Apply(PostRetain, s, e)
  {
    hide After, Wants, Proceed, Release, Create, FreePacket;
    v := [e];
    AfterOne(PostThenRetain, s, e);
    if e.Advance? && !s.broken && Top(s, e.thread).Some? {
      var t, f := e.thread, Top(s, e.thread).value;
      if f.Sending? && f.next < f.last && f.next < |s.consumers|
         && (f.phase == Posting(false) || f.phase == Retrying(false)) && HasRoom(s, f.next) {
        UninterruptedPostIsOneStep(s, t, f);
        AfterCons(PostThenRetain, s, e, [e]);
        AfterOne(PostThenRetain, Apply(PostThenRetain, s, e), e);
        v := [e] + [e];
      } else {
        OtherStepsAreTheSame(s, t, f);
      }
    }
  }

  /**
   Every run in which a post and its retain are one step is a run of the code's own order, all its events included, with
   any number of threads: it is one in which nobody comes in between.
   */
  lemma {:induction false} FusedRunIsCodeRun(s: State, u: seq<Event>) returns (v: seq<Event>)
    ensures After(PostThenRetain, s, v) == After(PostRetain, s, u)
    decreases |u|
  {
    hide Apply;
    if u == [] {
      v := [];
    } else {
      var first := FusedStepIsCodeSteps(s, u[0]);
      var rest := FusedRunIsCodeRun(Apply(PostRetain, s, u[0]), u[1..]);
      AfterConcat(PostThenRetain, s, first, rest);
      v := first + rest;
    }
  }

  // ----- single steps of a thread that is in one call -----

  /** The only frame of thread `t` is `f`. */
  ghost predicate At(s: State, t: nat, f: Frame) {
    t < |s.threads| && s.threads[t] == [f] && !s.broken
  }

  /** Thread `t` is now in frame `f` only. */
  function Moved(s: State, t: nat, f: Frame): State
    requires t < |s.threads|
  {
    s.(threads := s.threads[t := [f]])
  }

  function Left(s: State, t: nat): State
    requires t < |s.threads|
  {
    s.(threads := s.threads[t := []])
  }

  lemma {:induction false} PopsTo(s: State, t: nat, f: Frame)
    requires At(s, t, f)
    ensures Top(s, t) == Some(f) && Pop(s, t) == Left(s, t)
  {
    assert [f][..0] == [];
  }

  lemma {:induction false} PushesOn(s: State, t: nat, f: Frame)
    requires t < |s.threads| && s.threads[t] == []
    ensures Push(s, t, f) == Moved(s, t, f)
  {
    assert [] + [f] == [f];
  }

  lemma {:induction false} PopsThenPushes(s: State, t: nat, f: Frame, s': State, g: Frame)
    requires At(s, t, f) && s'.threads == Left(s, t).threads
    ensures Push(s', t, g) == s'.(threads := s.threads[t := [g]])
  {
    PushesOn(s', t, g);
    assert s.threads[t := []][t := [g]] == s.threads[t := [g]];
  }

  lemma {:induction false} RegisterStep1(o: Order, s: State, filter: Filter, capacity: nat)
    requires !s.broken && s.consumers == []
    ensures Apply(o, s, Register(filter, capacity)) == s.(consumers := [Consumer(filter, capacity, [], false, [], [])])
  {
    var c := Consumer(filter, capacity, [], false, [], []);
    assert [] + [c] == [c];
  }

  lemma {:induction false} BeginStep(o: Order, s: State, t: nat, slot: nat, m: Message)
    requires !s.broken && t < |s.threads| && s.threads[t] == [] && slot in s.free && m.handle !in s.fates
    ensures
      var q := Ref(slot, m);
      Apply(o, s, BeginSend(t, slot, m)) == Moved(Create(s, q), t, Sending(q, 0, |s.consumers|, Checking, true))
  {
    var q := Ref(slot, m);
    PushesOn(Create(s, q), t, Sending(q, 0, |s.consumers|, Checking, true));
  }

  lemma {:induction false} AcceptStep(s: State, t: nat, f: Frame)
    requires At(s, t, f) && f.Sending? && f.phase == Checking && f.next < f.last && f.next < |s.consumers|
    requires !s.consumers[f.next].paused && Wants(s.consumers[f.next].filter, f.ref.message)
    ensures Apply(PostThenRetain, s, Advance(t)) == Moved(s, t, f.(phase := Posting(false)))
  {
    hide Wants;
    PopsTo(s, t, f);
    PopsThenPushes(s, t, f, Pop(s, t), f.(phase := Posting(false)));
  }

  lemma {:induction false} RoomStep(s: State, t: nat, f: Frame)
    requires At(s, t, f) && f.Sending? && f.phase == Posting(false) && f.next < f.last && f.next < |s.consumers|
    requires HasRoom(s, f.next)
    ensures Apply(PostThenRetain, s, Advance(t)) == Moved(Deposit(s, f.next, f.ref), t, f.(phase := Posted))
  {
    PopsTo(s, t, f);
    PopsThenPushes(s, t, f, Deposit(Pop(s, t), f.next, f.ref), f.(phase := Posted));
  }

  lemma {:induction false} FetchStep1(o: Order, s: State, t: nat, c: nat)
    requires !s.broken && t < |s.threads| && s.threads[t] == [] && c < |s.consumers| && s.consumers[c].mailbox != []
    ensures Apply(o, s, Fetch(t, c, false)) == Moved(TakeOldest(s, c, false), t, Holding(s.consumers[c].mailbox[0]))
  {
    assert Ready(s, t);
    PushesOn(TakeOldest(s, c, false), t, Holding(s.consumers[c].mailbox[0]));
  }

  // ----- two threads -----

  const EVERYTHING := Filter(0, 0, 0, 0)

  lemma EverythingIsWanted(m: Message)
    ensures Wants(EVERYTHING, m)
  {}

  /** A consumer fetches and releases between the sender's post and its retain. */
  function RaceEvents(slot: nat, m: Message): seq<Event> {
    [Register(EVERYTHING, 1), BeginSend(0, slot, m), Advance(0), Advance(0), Fetch(1, 0, false), Advance(1)]
  }

  /** Just before the consumer's release: the sender has posted; the count is one, and two hold the reference. */
  function RaceState(pool: set<nat>, threads: nat, slot: nat, m: Message): State
    requires threads >= 2
  {
    var q := Ref(slot, m);
    State(pool - {slot}, map[q := 1], [Consumer(EVERYTHING, 1, [], false, [m], [Taken(m, false)])],
          Init(pool, threads).threads[0 := [Sending(q, 0, 1, Posted, true)]][1 := [Holding(q)]],
          map[m.handle := Fate(Some(q), 0)], false, 0)
  }

  lemma {:induction false} RaceReaches(pool: set<nat>, threads: nat, slot: nat, m: Message)
    requires slot in pool && threads >= 2
    ensures After(PostThenRetain, Init(pool, threads), RaceEvents(slot, m)) ==
            Apply(PostThenRetain, RaceState(pool, threads, slot, m), Advance(1))
  {
    hide Apply, After, Wants, Top;
    var q := Ref(slot, m);
    var o, s0 := PostThenRetain, Init(pool, threads);
    var e0, e1, e2, e4, e5 := Register(EVERYTHING, 1), BeginSend(0, slot, m), Advance(0), Fetch(1, 0, false), Advance(1);
    EverythingIsWanted(m);
    RegisterStep1(o, s0, EVERYTHING, 1);
    var s1 := Apply(o, s0, e0);
    BeginStep(o, s1, 0, slot, m);
    var s2 := Apply(o, s1, e1);
    AcceptStep(s2, 0, Sending(q, 0, 1, Checking, true));
    var s3 := Apply(o, s2, e2);
    RoomStep(s3, 0, Sending(q, 0, 1, Posting(false), true));
    var s4 := Apply(o, s3, e2);
    FirstIn(s3, q);
    FetchStep1(o, s4, 1, 0);
    var s5 := Apply(o, s4, e4);
    OnlyOut(s4, q);
    assert s5.threads == RaceState(pool, threads, slot, m).threads;
    assert s5 == RaceState(pool, threads, slot, m);
    RaceUnfolds(o, s0, e0, e1, e2, e4, e5);
    assert RaceEvents(slot, m) == [e0, e1, e2, e2, e4, e5];
  }

  lemma {:induction false} FirstIn(s: State, q: Ref)
    requires s.consumers == [Consumer(EVERYTHING, 1, [], false, [], [])]
    ensures Deposit(s, 0, q).consumers == [Consumer(EVERYTHING, 1, [q], false, [q.message], [])]
  {
    assert [] + [q] == [q] && [] + [q.message] == [q.message];
  }

  lemma {:induction false} OnlyOut(s: State, q: Ref)
    requires s.consumers == [Consumer(EVERYTHING, 1, [q], false, [q.message], [])]
    ensures TakeOldest(s, 0, false).consumers == [Consumer(EVERYTHING, 1, [], false, [q.message], [Taken(q.message, false)])]
  {
    assert [q][1..] == [] && [] + [Taken(q.message, false)] == [Taken(q.message, false)];
  }

  lemma {:induction false} RaceUnfolds(o: Order, s: State, e0: Event, e1: Event, e2: Event, e4: Event, e5: Event)
    ensures After(o, s, [e0, e1, e2, e2, e4, e5]) ==
            Apply(o, Apply(o, Apply(o, Apply(o, Apply(o, Apply(o, s, e0), e1), e2), e2), e4), e5)
  {
    hide Apply, After;
    var s1 := Apply(o, s, e0);
    var s2 := Apply(o, s1, e1);
    var s3 := Apply(o, s2, e2);
    var s4 := Apply(o, s3, e2);
    AfterCons(o, s, e0, [e1, e2, e2, e4, e5]);
    AfterCons(o, s1, e1, [e2, e2, e4, e5]);
    AfterCons(o, s2, e2, [e2, e4, e5]);
    AfterCons(o, s3, e2, [e4, e5]);
    AfterCons(o, s4, e4, [e5]);
    AfterOne(o, Apply(o, s4, e4), e5);
    assert [e0] + [e1, e2, e2, e4, e5] == [e0, e1, e2, e2, e4, e5] && [e1] + [e2, e2, e4, e5] == [e1, e2, e2, e4, e5];
    assert [e2] + [e2, e4, e5] == [e2, e2, e4, e5] && [e2] + [e4, e5] == [e2, e4, e5] && [e4] + [e5] == [e4, e5];
  }

  lemma {:induction false} InOneStack(f: Frame, r: Ref)
    ensures InStack([f], r) == Own(f, r) && DueInStack([f], r) == Due(f, r)
    ensures InStack([], r) == 0 && DueInStack([], r) == 0
  {
    hide Own, Due;
    assert [f][..0] == [];
  }

  lemma {:induction false} RaceOwners(pool: set<nat>, threads: nat, slot: nat, m: Message, r: Ref)
    requires threads >= 2
    ensures Owners(RaceState(pool, threads, slot, m), r) == if r == Ref(slot, m) then 2 else 0
    ensures Owed(RaceState(pool, threads, slot, m), r) == if r == Ref(slot, m) then 1 else 0
  {
    hide InThreads, DueInThreads, InStack, DueInStack;
    var q := Ref(slot, m);
    var s, idle := RaceState(pool, threads, slot, m), Init(pool, threads).threads;
    var a, b := Sending(q, 0, 1, Posted, true), Holding(q);
    NoFrames(threads, r);
    InOneStack(a, r);
    InOneStack(b, r);
    ThreadsUpdate(idle, 0, [a], r);
    ThreadsUpdate(idle[0 := [a]], 1, [b], r);
    assert s.consumers[1..] == [] && InMail(s.consumers, r) == Copies([], r) + InMail([], r);
  }

  lemma {:induction false} RaceStateIsGood(pool: set<nat>, threads: nat, slot: nat, m: Message)
    requires |pool| == MAX_NUM_TELEMETRY_REFS && slot in pool && threads >= 2
    ensures Inv(PostThenRetain, RaceState(pool, threads, slot, m))
  {
    hide Owners, Owed;
    var s, q := RaceState(pool, threads, slot, m), Ref(slot, m);
    forall r ensures BalancedAt(s, multiset{}, r) {
      RaceOwners(pool, threads, slot, m, r);
    }
    assert s.counts.Keys == {q};
    assert pool == s.free + {slot};
    assert InUse(s, q) && StillHeld(s, m.handle);
  }

  /**
   The code's order does free a reference in use: two threads, one consumer, one packet. The same
   events break the run in the code's order and in no other.
   */
  lemma {:induction false} RaceBreaksOnlyTheCodeOrder(order: Order, pool: set<nat>, threads: nat, slot: nat, m: Message)
    requires |pool| == MAX_NUM_TELEMETRY_REFS && slot in pool && threads >= 2
    ensures After(order, Init(pool, threads), RaceEvents(slot, m)).broken <==> order == PostThenRetain
  {
    hide Apply, Inv, RaceEvents, After, Owed, RaceState;
    InitIsGood(order, pool, threads);
    RunKeeps(order, Init(pool, threads), RaceEvents(slot, m));
    if order == PostThenRetain {
      RaceReaches(pool, threads, slot, m);
      RaceStateIsGood(pool, threads, slot, m);
      RaceOwners(pool, threads, slot, m, Ref(slot, m));
      StepKeeps(order, RaceState(pool, threads, slot, m), Advance(1));
      RaceTop(pool, threads, slot, m);
    }
  }

  lemma RaceTop(pool: set<nat>, threads: nat, slot: nat, m: Message)
    requires threads >= 2
    ensures Top(RaceState(pool, threads, slot, m), 1) == Some(Holding(Ref(slot, m)))
    ensures Top(RaceState(pool, threads, slot, m), 0) == Some(Sending(Ref(slot, m), 0, 1, Posted, true))
    ensures RaceState(pool, threads, slot, m).counts == map[Ref(slot, m) := 1]
  {}

  /** What the broken run has done: the packet is freed, and the sender still holds the reference. */
  lemma {:induction false} RaceFreesWhatTheSenderHolds(pool: set<nat>, threads: nat, slot: nat, m: Message)
    requires slot in pool && threads >= 2
    ensures
      var s, q := After(PostThenRetain, Init(pool, threads), RaceEvents(slot, m)), Ref(slot, m);
      && m.handle in s.fates && s.fates[m.handle].frees == 1 && q !in s.counts
      && Owners(s, q) == 1 && Top(s, 0) == Some(Sending(q, 0, 1, Posted, true))
  {
    hide Init, RaceEvents, After, Owners, Owed;
    var q, s := Ref(slot, m), RaceState(pool, threads, slot, m);
    RaceReaches(pool, threads, slot, m);
    RaceOwners(pool, threads, slot, m, q);
    RaceTop(pool, threads, slot, m);
    PopOwners(s, 1, q);
    var popped := Pop(s, 1);
    SameOwners(popped, Release(popped, q));
  }

  /**
   The code's order is safe in every run if and only if at most one thread uses the bus, and then every run
   keeps the whole invariant.
   */
  lemma {:induction false} CodeOrderIsSafeIffAlone(pool: set<nat>, threads: nat)
    requires |pool| == MAX_NUM_TELEMETRY_REFS
    ensures (forall events :: !After(PostThenRetain, Init(pool, threads), events).broken) <==> threads <= 1
    ensures threads <= 1 ==> forall events :: Inv(PostThenRetain, After(PostThenRetain, Init(pool, threads), events))
  {
    hide After, Inv, RaceEvents;
    if threads <= 1 {
      InitIsGood(PostThenRetain, pool, threads);
      forall events
        ensures Inv(PostThenRetain, After(PostThenRetain, Init(pool, threads), events))
        ensures !After(PostThenRetain, Init(pool, threads), events).broken
      {
        AloneRunsWell(PostThenRetain, Init(pool, threads), events);
        NotBroken(PostThenRetain, After(PostThenRetain, Init(pool, threads), events));
      }
    } else {
      var slot: nat :| slot in pool;
      var m := Message(0, 0, 0);
      RaceBreaksOnlyTheCodeOrder(PostThenRetain, pool, threads, slot, m);
    }
  }
}
