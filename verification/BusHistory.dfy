/**
 What becomes of the packets that are sent. A consumer accepts a packet when a sender checks it and finds it not paused and
 its filter matching; the histories here are taken at that check, not at the mailbox.
 */
module BusHistory {
  import opened Telemetry
  import opened Bus
  import opened BusMoves
  import opened BusWindow

  // ----- sums over all frames -----

  /** Between the check of a consumer and the post to it. */
  predicate Pending(p: Phase) { !p.Checking? && !p.Posted? }

  /** What is counted over all frames of all threads. */
  datatype Measure =
    /** Senders of message `message` between the check of consumer `consumer` and the post. */
    | Standing(consumer: nat, message: Message)
    /** Senders of the packet `handle`. */
    | Senders(handle: nat)
    /** How many consumers the senders of the packet `handle` have checked. */
    | Progress(handle: nat)

  function Weight(x: Measure, f: Frame): nat {
    match x
    case Standing(c, m) => If(f.Sending? && Pending(f.phase) && f.next == c && f.ref.message == m)
    case Senders(h) => If(f.Sending? && f.ref.message.handle == h)
    case Progress(h) => if f.Sending? && f.ref.message.handle == h then f.next + If(f.phase != Checking) else 0
  }

  function WeightOf(x: Measure, stack: seq<Frame>): nat {
    if stack == [] then 0 else WeightOf(x, stack[..|stack| - 1]) + Weight(x, stack[|stack| - 1])
  }

  function Sum(x: Measure, threads: seq<seq<Frame>>): nat {
    if threads == [] then 0 else WeightOf(x, threads[0]) + Sum(x, threads[1..])
  }

  lemma {:induction false} SumUpdate(x: Measure, threads: seq<seq<Frame>>, t: nat, stack: seq<Frame>)
    requires t < |threads|
    ensures Sum(x, threads[t := stack]) == Sum(x, threads) - WeightOf(x, threads[t]) + WeightOf(x, stack)
    decreases |threads|
  {
    hide WeightOf;
    if t == 0 {
      assert threads[t := stack][1..] == threads[1..];
    } else {
      SumUpdate(x, threads[1..], t - 1, stack);
      assert threads[t := stack][1..] == threads[1..][t - 1 := stack];
    }
  }

  lemma {:induction false} SumPush(x: Measure, s: State, t: nat, f: Frame)
    requires t < |s.threads|
    ensures Sum(x, Push(s, t, f).threads) == Sum(x, s.threads) + Weight(x, f)
  {
    hide Weight, Sum;
    var stack := s.threads[t];
    assert (stack + [f])[..|stack|] == stack;
    SumUpdate(x, s.threads, t, stack + [f]);
  }

  lemma {:induction false} SumPop(x: Measure, s: State, t: nat)
    requires Top(s, t).Some?
    ensures Sum(x, Pop(s, t).threads) == Sum(x, s.threads) - Weight(x, Top(s, t).value)
  {
    hide Weight, Sum;
    var stack := s.threads[t];
    SumUpdate(x, s.threads, t, stack[..|stack| - 1]);
  }

  lemma {:induction false} SumReplace(x: Measure, s: State, t: nat, g: Frame)
    requires Top(s, t).Some?
    ensures Sum(x, Replace(s, t, g).threads) == Sum(x, s.threads) - Weight(x, Top(s, t).value) + Weight(x, g)
  {
    hide Weight, Sum;
    SumPop(x, s, t);
    SumPush(x, Pop(s, t), t, g);
  }

  lemma {:induction false} SumNothing(x: Measure, threads: nat)
    ensures Sum(x, seq(threads, _ => [])) == 0
  {
    if threads > 0 {
      SumNothing(x, threads - 1);
      assert seq<seq<Frame>>(threads, _ => [])[1..] == seq<seq<Frame>>(threads - 1, _ => []);
    }
  }

  // ----- histories -----

  /** The sender that takes this step, if it has a consumer before it. */
  function Sender(s: State, e: Event): (r: Option<Frame>)
    ensures r.Some? ==> r.value.Sending? && r.value.next < r.value.last && r.value.next < |s.consumers|
  {
    if !s.broken && e.Advance? && Top(s, e.thread).Some? then
      var f := Top(s, e.thread).value;
      if f.Sending? && f.next < f.last && f.next < |s.consumers| then Some(f) else None
    else None
  }

  /** The packet that consumer `c` accepts by this step: its sender checks `c`, which is not paused and wants it. */
  function AcceptedBy(s: State, e: Event, c: nat): (ms: seq<Message>)
    ensures |ms| <= 1
  {
    match Sender(s, e)
    case None => []
    case Some(f) =>
      if f.phase == Checking && f.next == c && !s.consumers[c].paused && Wants(s.consumers[c].filter, f.ref.message) then [f.ref.message]
      else []
  }

  /** The packet that is refused by this step: its second post to `c` fails. */
  function RefusedBy(order: Order, s: State, e: Event, c: nat): (ms: seq<Message>)
    ensures |ms| <= 1
  {
    match Sender(s, e)
    case None => []
    case Some(f) => if f.next == c && Refusing(order, s, f) then [f.ref.message] else []
  }

  /** The consumer that the sender of packet `handle` checks by this step. */
  function CheckedBy(s: State, e: Event, handle: nat): (cs: seq<nat>)
    ensures |cs| <= 1
  {
    match Sender(s, e)
    case None => []
    case Some(f) => if f.phase == Checking && f.ref.message.handle == handle then [f.next] else []
  }

  function Front(events: seq<Event>): seq<Event>
    requires events != []
  {
    events[..|events| - 1]
  }

  function Last(events: seq<Event>): Event
    requires events != []
  {
    events[|events| - 1]
  }

  /** Everything that consumer `c` accepted in a run, in the order of the checks. */
  function Accepted(order: Order, s: State, events: seq<Event>, c: nat): seq<Message>
    decreases |events|
  {
    if events == [] then []
    else Accepted(order, s, Front(events), c) + AcceptedBy(After(order, s, Front(events)), Last(events), c)
  }

  function Refused(order: Order, s: State, events: seq<Event>, c: nat): seq<Message>
    decreases |events|
  {
    if events == [] then []
    else Refused(order, s, Front(events), c) + RefusedBy(order, After(order, s, Front(events)), Last(events), c)
  }

  /** The consumers that were checked for the packet `handle` in a run, in order. */
  function Checked(order: Order, s: State, events: seq<Event>, handle: nat): seq<nat>
    decreases |events|
  {
    if events == [] then []
    else Checked(order, s, Front(events), handle) + CheckedBy(After(order, s, Front(events)), Last(events), handle)
  }

  lemma {:induction false} AfterSnoc(order: Order, s: State, events: seq<Event>)
    requires events != []
    ensures After(order, s, events) == Apply(order, After(order, s, Front(events)), Last(events))
    decreases |events|
  {
    hide Apply;
    if |events| == 1 {
      assert Front(events) == [] && events[1..] == [];
    } else {
      AfterSnoc(order, Apply(order, s, events[0]), events[1..]);
      assert Front(events)[1..] == Front(events[1..]) && Front(events)[0] == events[0];
    }
  }

  // ----- accepted, offered, standing, refused -----

  function Times(ms: seq<Message>, m: Message): nat { multiset(ms)[m] }

  lemma TimesConcat(u: seq<Message>, v: seq<Message>, m: Message)
    ensures Times(u + v, m) == Times(u, m) + Times(v, m)
  {}

  lemma TimesOne(a: Message, m: Message)
    ensures Times([a], m) == If(a == m) && Times([], m) == 0
  {}

  /** How one step changes what stands between check and post at `c`. */
  lemma {:induction false} StandingMoves(order: Order, s: State, f: Frame, c: nat, m: Message)
    requires f.Sending? && f.next < |s.consumers| && f.next < f.last
    ensures
      var x, g := Standing(c, m), NextFrame(order, s, f);
      var at := f.next == c && f.ref.message == m;
      Weight(x, g) + If(at && PutsIn(order, s, f)) + If(at && Refusing(order, s, f))
        == Weight(x, f) + If(at && f.phase == Checking && Accepts(s.consumers[f.next], f.ref.message))
  {
    hide Wants, HasRoom, Fits;
  }

  lemma {:induction false} OtherEventsStand(order: Order, s: State, e: Event, x: Measure, c: nat)
    requires Sender(s, e) == None && Tidy(order, false, s)
    requires x.Standing?
    ensures var s' := Apply(order, s, e);
      Sum(x, s'.threads) == Sum(x, s.threads) && OfferedTo(s', c) == OfferedTo(s, c)
  {
    hide Sum, Release, Offer, Create, FreePacket, BoxOk, Wants;
    match e
    case Register(_, _) =>
    case SetPaused(_, _) =>
    case BeginSend(t, slot, m) => {
      var r := Ref(slot, m);
      CreateLeaves(s, r);
      if t < |s.threads| { SumPush(x, Create(s, r), t, Sending(r, 0, |s.consumers|, Checking, true)); }
    }
    case Fetch(t, d, silent) => {
      if Ready(s, t) && d < |s.consumers| && s.consumers[d].mailbox != [] {
        SumPush(x, TakeOldest(s, d, silent), t, Holding(s.consumers[d].mailbox[0]));
      }
    }
    case Advance(t) => {
      if !s.broken && Top(s, t).Some? {
        PopTidy(order, false, s, t);
        SumPop(x, s, t);
        ReleaseLeaves(Pop(s, t), Top(s, t).value.ref);
      }
    }
  }

  lemma CreateLeaves(s: State, r: Ref)
    ensures Create(s, r).threads == s.threads && Create(s, r).consumers == s.consumers
    ensures FreePacket(s, r.message.handle).threads == s.threads && FreePacket(s, r.message.handle).consumers == s.consumers
  {}

  /** What a step accepts is offered, stands between check and post, or is refused; and nothing else is. */
  lemma {:induction false} StepAccounts(order: Order, s: State, e: Event, c: nat, m: Message)
    requires Tidy(order, false, s)
    ensures
      var s', x := Apply(order, s, e), Standing(c, m);
      Times(OfferedTo(s', c), m) + Sum(x, s'.threads) + Times(RefusedBy(order, s, e, c), m)
        == Times(OfferedTo(s, c), m) + Sum(x, s.threads) + Times(AcceptedBy(s, e, c), m)
  {
    hide Sum, Weight, Tidy, Offer, NextFrame, PutsIn, Refusing, Wants, Times;
    var x := Standing(c, m);
    match Sender(s, e) {
      case None => OtherEventsStand(order, s, e, x, c); TimesOne(m, m);
      case Some(f) => {
        var t := e.thread;
        OfferMoves(order, s, t, f);
        StandingMoves(order, s, f, c, m);
        SumReplace(x, s, t, NextFrame(order, s, f));
        TimesOne(f.ref.message, m);
        TimesConcat(OfferedTo(s, c), [f.ref.message], m);
        assert OfferedTo(s, c) + [] == OfferedTo(s, c);
      }
    }
  }

  lemma {:induction false} RunAccounts(order: Order, s: State, events: seq<Event>, c: nat, m: Message)
    requires Tidy(order, false, s)
    ensures
      var s', x := After(order, s, events), Standing(c, m);
      Times(OfferedTo(s', c), m) + Sum(x, s'.threads) + Times(Refused(order, s, events, c), m)
        == Times(OfferedTo(s, c), m) + Sum(x, s.threads) + Times(Accepted(order, s, events, c), m)
    decreases |events|
  {
    hide Sum, Tidy, Apply, Times, AcceptedBy, RefusedBy, OfferedTo;
    if events == [] {
      NoTimes(m);
    } else {
      var before := After(order, s, Front(events));
      RunAccounts(order, s, Front(events), c, m);
      RunTidy(order, false, s, Front(events));
      StepAccounts(order, before, Last(events), c, m);
      AfterSnoc(order, s, events);
      TimesConcat(Accepted(order, s, Front(events), c), AcceptedBy(before, Last(events), c), m);
      TimesConcat(Refused(order, s, Front(events), c), RefusedBy(order, before, Last(events), c), m);
    }
  }

  lemma NoTimes(m: Message)
    ensures Times([], m) == 0
  {}

  /**
   In every run, whatever the order of post and retain: the packets that a consumer accepted, each as often as a check
   of it passed, are those that were taken out of its mailbox, those queued, those whose senders stand between
   the check and the post, and those that were refused.
   */
  lemma {:induction false} AcceptedPacketsAreAccountedFor(
      order: Order, pool: set<nat>, threads: nat, events: seq<Event>, c: nat, m: Message)
    requires c < |After(order, Init(pool, threads), events).consumers|
    ensures
      var s := After(order, Init(pool, threads), events);
      var box := s.consumers[c];
      multiset(Accepted(order, Init(pool, threads), events, c))[m]
        == multiset(MessagesTaken(box.taken))[m] + multiset(Messages(box.mailbox))[m]
           + Sum(Standing(c, m), s.threads) + multiset(Refused(order, Init(pool, threads), events, c))[m]
  {
    hide After, Sum, Tidy, Accepted, Refused, Messages, MessagesTaken;
    InitIsTidy(order, false, pool, threads);
    RunAccounts(order, Init(pool, threads), events, c, m);
    SumNothing(Standing(c, m), threads);
    MailboxesAreWindows(order, pool, threads, events, c);
    var box := After(order, Init(pool, threads), events).consumers[c];
    TimesConcat(MessagesTaken(box.taken), Messages(box.mailbox), m);
  }

  // ----- in order, where check and enqueue are one step -----

  lemma {:induction false} StepOffersAccepted(s: State, e: Event, c: nat)
    requires Tidy(CheckAndEnqueue, true, s)
    ensures OfferedTo(Apply(CheckAndEnqueue, s, e), c) == OfferedTo(s, c) + AcceptedBy(s, e, c)
  {
    hide Wants, Offer, Release, Sum, NextFrame;
    match Sender(s, e) {
      case None => {
        TidyAnyway(CheckAndEnqueue, s);
        hide Tidy;
        OtherEventsStand(CheckAndEnqueue, s, e, Standing(c, Message(0, 0, 0)), c);
      }
      case Some(f) => {
        PopTidy(CheckAndEnqueue, true, s, e.thread);
        assert BoxOk(s.consumers[f.next]);
        OfferMoves(CheckAndEnqueue, s, e.thread, f);
      }
    }
  }

  lemma {:induction false} TidyAnyway(order: Order, s: State)
    requires Tidy(order, true, s)
    ensures Tidy(order, false, s)
  {
    hide BoxOk;
    forall t | 0 <= t < |s.threads| ensures StackOk(order, false, s.consumers, s.threads[t]) {
      StackAnyway(order, s.consumers, s.threads[t]);
    }
  }

  lemma {:induction false} StackAnyway(order: Order, cs: seq<Consumer>, stack: seq<Frame>)
    requires StackOk(order, true, cs, stack)
    ensures StackOk(order, false, cs, stack)
  {
    hide Wants;
    forall k | 0 <= k < |stack| ensures FrameOk(order, false, cs, stack[k]) {
      assert FrameOk(order, true, cs, stack[k]);
    }
  }

  lemma {:induction false} RunOffersAccepted(s: State, events: seq<Event>, c: nat)
    requires Tidy(CheckAndEnqueue, true, s) && Roomy(events)
    ensures OfferedTo(After(CheckAndEnqueue, s, events), c) == OfferedTo(s, c) + Accepted(CheckAndEnqueue, s, events, c)
    decreases |events|
  {
    hide Tidy, Apply, AcceptedBy, OfferedTo;
    if events == [] {
      assert OfferedTo(s, c) + [] == OfferedTo(s, c);
    } else {
      var front := Front(events);
      var before := After(CheckAndEnqueue, s, front);
      RunOffersAccepted(s, front, c);
      RunTidy(CheckAndEnqueue, true, s, front);
      StepOffersAccepted(before, Last(events), c);
      AfterSnoc(CheckAndEnqueue, s, events);
      var u, v := Accepted(CheckAndEnqueue, s, front, c), AcceptedBy(before, Last(events), c);
      assert OfferedTo(s, c) + u + v == OfferedTo(s, c) + (u + v);
    }
  }

  /**
   Where the check and the enqueue are one step, a consumer's matching-while-unpaused history is, in
   order, what was taken out of its mailbox followed by what is queued: nothing accepted is skipped,
   repeated or reordered.
   */
  lemma {:induction false} EveryAcceptedPacketIsQueuedOnce(pool: set<nat>, threads: nat, events: seq<Event>, c: nat)
    requires Roomy(events) && c < |After(CheckAndEnqueue, Init(pool, threads), events).consumers|
    ensures
      var box := After(CheckAndEnqueue, Init(pool, threads), events).consumers[c];
      Accepted(CheckAndEnqueue, Init(pool, threads), events, c) == MessagesTaken(box.taken) + Messages(box.mailbox)
  {
    hide After, Tidy, Accepted, Messages, MessagesTaken;
    InitIsTidy(CheckAndEnqueue, true, pool, threads);
    RunOffersAccepted(Init(pool, threads), events, c);
    MailboxesAreWindows(CheckAndEnqueue, pool, threads, events, c);
    var accepted := Accepted(CheckAndEnqueue, Init(pool, threads), events, c);
    assert [] + accepted == accepted;
  }

  // ----- every send checks every consumer -----

  function Upto(n: nat): (cs: seq<nat>)
    ensures |cs| == n && forall i :: 0 <= i < n ==> cs[i] == i
  {
    seq(n, i => i)
  }

  /** At most one sender has the packet, and what was checked for it are the consumers before the one it has come to. */
  ghost predicate Checks(s: State, handle: nat, checked: seq<nat>) {
    && Sum(Senders(handle), s.threads) <= 1
    && (handle !in s.fates ==> Sum(Senders(handle), s.threads) == 0 && checked == [])
    && (Sum(Senders(handle), s.threads) == 1 ==> checked == Upto(Sum(Progress(handle), s.threads)))
  }

  lemma {:induction false} NoProgressInStack(stack: seq<Frame>, h: nat)
    requires WeightOf(Senders(h), stack) == 0
    ensures WeightOf(Progress(h), stack) == 0
  {
    if stack != [] { NoProgressInStack(stack[..|stack| - 1], h); }
  }

  lemma {:induction false} NoSendersNoProgress(threads: seq<seq<Frame>>, h: nat)
    requires Sum(Senders(h), threads) == 0
    ensures Sum(Progress(h), threads) == 0
  {
    hide WeightOf;
    if threads != [] {
      NoProgressInStack(threads[0], h);
      NoSendersNoProgress(threads[1..], h);
    }
  }

  /** The only sender of a packet accounts for all progress with it. */
  lemma {:induction false} OnlySender(s: State, t: nat, f: Frame)
    requires Top(s, t) == Some(f) && f.Sending? && Sum(Senders(f.ref.message.handle), s.threads) <= 1
    ensures Sum(Senders(f.ref.message.handle), s.threads) == 1
    ensures Sum(Progress(f.ref.message.handle), s.threads) == f.next + If(f.phase != Checking)
  {
    hide Sum;
    var h := f.ref.message.handle;
    SumPop(Senders(h), s, t);
    SumPop(Progress(h), s, t);
    NoSendersNoProgress(Pop(s, t).threads, h);
  }

  lemma {:induction false} ProgressMoves(order: Order, s: State, f: Frame, h: nat)
    requires f.Sending? && f.next < |s.consumers| && f.next < f.last
    requires f.phase == Retrying(Held(f.phase)) ==> PutsIn(order, s, f) || Refusing(order, s, f)
    ensures
      var g := NextFrame(order, s, f);
      && Weight(Senders(h), g) == Weight(Senders(h), f)
      && Weight(Progress(h), g) == Weight(Progress(h), f) + If(f.phase == Checking && f.ref.message.handle == h)
  {
    hide Wants, HasRoom, Fits;
  }

  lemma RetryingEnds(order: Order, s: State, f: Frame)
    requires f.Sending? && f.next < |s.consumers| && f.phase.Retrying?
    ensures PutsIn(order, s, f) || Refusing(order, s, f)
  {}

  lemma {:induction false} SenderChecks(order: Order, s: State, e: Event, h: nat, checked: seq<nat>)
    requires Checks(s, h, checked) && Sender(s, e).Some?
    ensures Checks(Apply(order, s, e), h, checked + CheckedBy(s, e, h))
  {
    hide Sum, Weight, Offer, NextFrame, PutsIn, Refusing, Offers;
    var f, t := Sender(s, e).value, e.thread;
    OfferMoves(order, s, t, f);
    if f.phase.Retrying? { RetryingEnds(order, s, f); }
    ProgressMoves(order, s, f, h);
    SumReplace(Senders(h), s, t, NextFrame(order, s, f));
    SumReplace(Progress(h), s, t, NextFrame(order, s, f));
    if f.ref.message.handle == h {
      OnlySender(s, t, f);
    } else {
      assert checked + [] == checked;
    }
  }

  lemma {:induction false} BeginChecks(order: Order, s: State, e: Event, h: nat, checked: seq<nat>)
    requires Checks(s, h, checked) && e.BeginSend?
    ensures Checks(Apply(order, s, e), h, checked)
  {
    hide Sum, Weight;
    var r := Ref(e.slot, e.message);
    var f := Sending(r, 0, |s.consumers|, Checking, true);
    if e.thread < |s.threads| {
      SumPush(Senders(h), Create(s, r), e.thread, f);
      SumPush(Progress(h), Create(s, r), e.thread, f);
      BeginWeighs(f, h);
      NoSendersNoProgressIf(s.threads, h);
    }
  }

  lemma BeginWeighs(f: Frame, h: nat)
    requires f.Sending? && f.next == 0 && f.phase == Checking
    ensures Weight(Progress(h), f) == 0 && Weight(Senders(h), f) == If(f.ref.message.handle == h)
  {}

  lemma NoSendersNoProgressIf(threads: seq<seq<Frame>>, h: nat)
    ensures Sum(Senders(h), threads) == 0 ==> Sum(Progress(h), threads) == 0
  {
    hide Sum;
    if Sum(Senders(h), threads) == 0 { NoSendersNoProgress(threads, h); }
  }

  lemma HoldingWeighs(r: Ref, h: nat)
    ensures Weight(Progress(h), Holding(r)) == 0 && Weight(Senders(h), Holding(r)) == 0
  {}

  lemma {:induction false} LeaveChecks(order: Order, s: State, e: Event, h: nat, checked: seq<nat>)
    requires Checks(s, h, checked) && e.Advance? && Sender(s, e) == None
    ensures Checks(Apply(order, s, e), h, checked)
  {
    hide Sum, Weight, Release, Offer;
    if !s.broken && Top(s, e.thread).Some? {
      var f := Top(s, e.thread).value;
      SumPop(Senders(h), s, e.thread);
      SumPop(Progress(h), s, e.thread);
      ReleaseLeaves(Pop(s, e.thread), f.ref);
      if f.Holding? {
        HoldingWeighs(f.ref, h);
      } else {
        SenderWeighs(f, h);
      }
    }
  }

  lemma SenderWeighs(f: Frame, h: nat)
    requires f.Sending?
    ensures Weight(Senders(h), f) == If(f.ref.message.handle == h)
    ensures f.ref.message.handle != h ==> Weight(Progress(h), f) == 0
  {}

  lemma {:induction false} OtherChecks(order: Order, s: State, e: Event, h: nat, checked: seq<nat>)
    requires Checks(s, h, checked) && !e.Advance? && !e.BeginSend?
    ensures Checks(Apply(order, s, e), h, checked)
  {
    hide Sum, Weight;
    if e.Fetch? && Ready(s, e.thread) && e.consumer < |s.consumers| && s.consumers[e.consumer].mailbox != [] {
      var q := s.consumers[e.consumer].mailbox[0];
      SumPush(Senders(h), TakeOldest(s, e.consumer, e.silent), e.thread, Holding(q));
      SumPush(Progress(h), TakeOldest(s, e.consumer, e.silent), e.thread, Holding(q));
      HoldingWeighs(q, h);
    }
  }

  lemma {:induction false} StepChecks(order: Order, s: State, e: Event, h: nat, checked: seq<nat>)
    requires Checks(s, h, checked)
    ensures Checks(Apply(order, s, e), h, checked + CheckedBy(s, e, h))
  {
    hide Checks, Apply;
    if Sender(s, e).Some? {
      SenderChecks(order, s, e, h, checked);
    } else {
      assert checked + [] == checked;
      if e.Advance? {
        LeaveChecks(order, s, e, h, checked);
      } else if e.BeginSend? {
        BeginChecks(order, s, e, h, checked);
      } else {
        OtherChecks(order, s, e, h, checked);
      }
    }
  }

  lemma {:induction false} RunChecks(order: Order, pool: set<nat>, threads: nat, events: seq<Event>, h: nat)
    ensures Checks(After(order, Init(pool, threads), events), h, Checked(order, Init(pool, threads), events, h))
    decreases |events|
  {
    hide Apply, CheckedBy, Sum;
    if events == [] {
      SumNothing(Senders(h), threads);
    } else {
      hide Checks, Init;
      var s := Init(pool, threads);
      RunChecks(order, pool, threads, Front(events), h);
      StepChecks(order, After(order, s, Front(events)), Last(events), h, Checked(order, s, Front(events), h));
      AfterSnoc(order, s, events);
    }
  }

  /**
   A send that is about to finish has checked every consumer that was registered when it began, from the first to
   the last, each once.
   */
  lemma {:induction false} FinishedSendsCheckedEveryConsumer(
      order: Order, pool: set<nat>, threads: nat, events: seq<Event>, t: nat, f: Frame)
    requires Top(After(order, Init(pool, threads), events), t) == Some(f)
    requires f.Sending? && f.phase == Checking && f.next >= f.last
    ensures Checked(order, Init(pool, threads), events, f.ref.message.handle) == Upto(f.last)
    ensures f.last <= |After(order, Init(pool, threads), events).consumers|
  {
    hide After, Init, Sum, Checked, BoxOk, Wants;
    var s, h := After(order, Init(pool, threads), events), f.ref.message.handle;
    RunChecks(order, pool, threads, events, h);
    OnlySender(s, t, f);
    InitIsTidy(order, false, pool, threads);
    RunTidy(order, false, Init(pool, threads), events);
    PopTidy(order, false, s, t);
  }
}
