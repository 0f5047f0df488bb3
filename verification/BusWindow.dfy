/** Mailboxes as sliding windows over what was sent, in every run; and sends that never find a mailbox full. */
module BusWindow {
  import opened Telemetry
  import opened Bus
  import opened BusMoves

  function Messages(box: seq<Ref>): (ms: seq<Message>)
    ensures |ms| == |box| && forall i :: 0 <= i < |box| ==> ms[i] == box[i].message
  {
    seq(|box|, i requires 0 <= i < |box| => box[i].message)
  }

  function MessagesTaken(taken: seq<Taken>): (ms: seq<Message>)
    ensures |ms| == |taken| && forall i :: 0 <= i < |taken| ==> ms[i] == taken[i].message
  {
    seq(|taken|, i requires 0 <= i < |taken| => taken[i].message)
  }

  /**
   What was offered to a consumer is, in order, what was taken out (handled or dropped) followed by exactly
   what is queued; the queue is within its capacity; and only what the filter wants ever came in.
   */
  ghost predicate BoxOk(c: Consumer) {
    && c.offered == MessagesTaken(c.taken) + Messages(c.mailbox)
    && |c.mailbox| <= c.capacity
    && forall i :: 0 <= i < |c.offered| ==> Wants(c.filter, c.offered[i])
  }

  /** The orders in which the enqueue is one step. */
  predicate Whole(order: Order) { order == CheckAndEnqueue || order == WholeEnqueue }

  /** A sender past its check has a consumer before it that wants the packet; if the whole enqueue is one step it never fails. */
  ghost predicate FrameOk(order: Order, roomy: bool, cs: seq<Consumer>, f: Frame) {
    f.Sending? ==>
      && f.next <= f.last <= |cs|
      && (f.phase != Checking ==> f.next < f.last && Wants(cs[f.next].filter, f.ref.message))
      && (Whole(order) && roomy ==> f.ok && (f.phase == Checking || f.phase == Posting(false)))
      && (order == CheckAndEnqueue ==> f.phase == Checking)
  }

  ghost predicate StackOk(order: Order, roomy: bool, cs: seq<Consumer>, stack: seq<Frame>) {
    forall k :: 0 <= k < |stack| ==> FrameOk(order, roomy, cs, stack[k])
  }

  /** `roomy` tells that every mailbox can hold at least one packet. */
  ghost predicate Tidy(order: Order, roomy: bool, s: State) {
    && (forall c :: 0 <= c < |s.consumers| ==> BoxOk(s.consumers[c]))
    && (forall t :: 0 <= t < |s.threads| ==> StackOk(order, roomy, s.consumers, s.threads[t]))
    && (roomy ==> forall c :: 0 <= c < |s.consumers| ==> s.consumers[c].capacity >= 1)
    && (Whole(order) && roomy ==> s.bufferFull == 0)
  }

  /** Consumers that were registered stay, with their filters and capacities. */
  ghost predicate Extends(cs: seq<Consumer>, cs': seq<Consumer>) {
    |cs| <= |cs'| && forall c :: 0 <= c < |cs| ==> cs'[c].filter == cs[c].filter && cs'[c].capacity == cs[c].capacity
  }

  // ----- the parts of a step -----

  lemma {:induction false} StackExtends(order: Order, roomy: bool, cs: seq<Consumer>, cs': seq<Consumer>, stack: seq<Frame>)
    requires StackOk(order, roomy, cs, stack) && Extends(cs, cs') && |cs'| == |cs|
    ensures StackOk(order, roomy, cs', stack)
  {
    hide Wants;
  }

  lemma {:induction false} PushTidy(order: Order, roomy: bool, s: State, t: nat, f: Frame)
    requires Tidy(order, roomy, s) && t < |s.threads| && FrameOk(order, roomy, s.consumers, f)
    ensures Tidy(order, roomy, Push(s, t, f))
  {
    hide BoxOk, FrameOk;
  }

  lemma {:induction false} PopTidy(order: Order, roomy: bool, s: State, t: nat)
    requires Tidy(order, roomy, s) && Top(s, t).Some?
    ensures Tidy(order, roomy, Pop(s, t)) && FrameOk(order, roomy, s.consumers, Top(s, t).value)
  {
    hide BoxOk, FrameOk;
  }

  lemma {:induction false} DepositBox(c: Consumer, r: Ref)
    requires BoxOk(c) && |c.mailbox| < c.capacity && Wants(c.filter, r.message)
    ensures BoxOk(c.(mailbox := c.mailbox + [r], offered := c.offered + [r.message]))
  {
    hide Wants;
    assert Messages(c.mailbox + [r]) == Messages(c.mailbox) + [r.message];
  }

  lemma {:induction false} TakeBox(c: Consumer, silent: bool)
    requires BoxOk(c) && c.mailbox != []
    ensures BoxOk(c.(mailbox := c.mailbox[1..], taken := c.taken + [Taken(c.mailbox[0].message, silent)]))
  {
    hide Wants, MessagesTaken, Messages;
    var m, rest := c.mailbox[0].message, Messages(c.mailbox[1..]);
    TakenOne(c.taken, Taken(m, silent));
    OneQueued(c.mailbox);
    Reassociate(MessagesTaken(c.taken), m, rest);
  }

  lemma Reassociate(u: seq<Message>, m: Message, v: seq<Message>)
    ensures u + ([m] + v) == u + [m] + v
  {}

  lemma TakenOne(taken: seq<Taken>, last: Taken)
    ensures MessagesTaken(taken + [last]) == MessagesTaken(taken) + [last.message]
  {}

  lemma OneQueued(box: seq<Ref>)
    requires box != []
    ensures Messages(box) == [box[0].message] + Messages(box[1..])
  {}

  lemma {:induction false} ConsumerTidy(order: Order, roomy: bool, s: State, c: nat, box: Consumer)
    requires Tidy(order, roomy, s) && c < |s.consumers| && BoxOk(box)
    requires box.filter == s.consumers[c].filter && box.capacity == s.consumers[c].capacity
    ensures Tidy(order, roomy, s.(consumers := s.consumers[c := box]))
  {
    hide BoxOk, StackOk;
    forall t | 0 <= t < |s.threads| ensures StackOk(order, roomy, s.consumers[c := box], s.threads[t]) {
      StackExtends(order, roomy, s.consumers, s.consumers[c := box], s.threads[t]);
    }
  }

  lemma {:induction false} DepositTidy(order: Order, roomy: bool, s: State, c: nat, r: Ref)
    requires Tidy(order, roomy, s) && c < |s.consumers| && HasRoom(s, c) && Wants(s.consumers[c].filter, r.message)
    ensures Tidy(order, roomy, Deposit(s, c, r))
  {
    hide Wants;
    DepositBox(s.consumers[c], r);
    ConsumerTidy(order, roomy, s, c, Deposit(s, c, r).consumers[c]);
  }

  lemma {:induction false} TakeTidy(order: Order, roomy: bool, s: State, c: nat, silent: bool)
    requires Tidy(order, roomy, s) && c < |s.consumers| && s.consumers[c].mailbox != []
    ensures Tidy(order, roomy, TakeOldest(s, c, silent))
  {
    hide Wants;
    TakeBox(s.consumers[c], silent);
    ConsumerTidy(order, roomy, s, c, TakeOldest(s, c, silent).consumers[c]);
  }

  /** Counts, slots and fates play no part. */
  lemma {:induction false} CountsAside(order: Order, roomy: bool, s: State, s': State)
    requires Tidy(order, roomy, s) && s'.consumers == s.consumers && s'.threads == s.threads && s'.bufferFull == s.bufferFull
    ensures Tidy(order, roomy, s')
  {
    hide BoxOk, StackOk;
  }

  lemma {:induction false} ReleaseTidy(order: Order, roomy: bool, s: State, q: Ref)
    requires Tidy(order, roomy, s)
    ensures Tidy(order, roomy, Release(s, q))
  {
    hide Tidy, Release;
    ReleaseLeaves(s, q);
    CountsAside(order, roomy, s, Release(s, q));
  }

  lemma {:induction false} RetainTidy(order: Order, roomy: bool, s: State, q: Ref)
    requires Tidy(order, roomy, s)
    ensures Tidy(order, roomy, Retain(s, q))
  {
    hide Tidy, Retain;
    RetainLeaves(s, q);
    CountsAside(order, roomy, s, Retain(s, q));
  }

  lemma {:induction false} ReplaceTidy(order: Order, roomy: bool, s: State, t: nat, f: Frame)
    requires Tidy(order, roomy, s) && Top(s, t).Some? && FrameOk(order, roomy, s.consumers, f)
    ensures Tidy(order, roomy, Replace(s, t, f))
  {
    hide Tidy, FrameOk;
    PopTidy(order, roomy, s, t);
    PushTidy(order, roomy, Pop(s, t), t, f);
  }

  // ----- steps -----

  /** `f` is the top of thread `t` in a tidy state, with consumer `f.next` before it. */
  ghost predicate At(order: Order, roomy: bool, s: State, t: nat, f: Frame) {
    && Tidy(order, roomy, s) && Top(s, t) == Some(f)
    && f.Sending? && f.next < f.last && FrameOk(order, roomy, s.consumers, f)
  }

  lemma {:induction false} PostTidy(order: Order, roomy: bool, s: State, t: nat, f: Frame)
    requires At(order, roomy, s, t, f) && HasRoom(s, f.next) && Wants(s.consumers[f.next].filter, f.ref.message)
    ensures Tidy(order, roomy, Post(order, s, t, f))
  {
    hide Tidy, Wants, Retain;
    PopTidy(order, roomy, s, t);
    DepositTidy(order, roomy, Pop(s, t), f.next, f.ref);
    var posted := Deposit(Pop(s, t), f.next, f.ref);
    RetainTidy(order, roomy, posted, f.ref);
    RetainLeaves(posted, f.ref);
    if Held(f.phase) || order != PostThenRetain {
      PushTidy(order, roomy, if Held(f.phase) then posted else Retain(posted, f.ref), t, NextConsumer(f, true));
    } else {
      PushTidy(order, roomy, posted, t, f.(phase := Posted));
    }
  }

  lemma {:induction false} PostFailedTidy(order: Order, roomy: bool, s: State, t: nat, f: Frame)
    requires At(order, roomy, s, t, f) && !(Whole(order) && roomy)
    ensures Tidy(order, roomy, PostFailed(s, t, f))
  {
    hide Tidy, Wants, Release;
    ReplaceTidy(order, roomy, s, t, NextConsumer(f, false));
    ReleaseTidy(order, roomy, Replace(s, t, NextConsumer(f, false)), f.ref);
  }

  lemma {:induction false} PostOrFailTidy(order: Order, roomy: bool, s: State, t: nat, f: Frame)
    requires At(order, roomy, s, t, f) && Wants(s.consumers[f.next].filter, f.ref.message)
    requires Whole(order) && roomy ==> HasRoom(s, f.next)
    ensures Tidy(order, roomy, PostOrFail(order, s, t, f))
  {
    hide Tidy, Post, PostFailed;
    if HasRoom(s, f.next) {
      PostTidy(order, roomy, s, t, f);
    } else {
      PostFailedTidy(order, roomy, s, t, f);
    }
  }

  /** Dropping the oldest makes room. */
  lemma {:induction false} DropOldestTidy(order: Order, roomy: bool, s: State, c: nat)
    requires Tidy(order, roomy, s) && c < |s.consumers|
    ensures Tidy(order, roomy, DropOldest(s, c))
    ensures DropOldest(s, c).threads == s.threads && |DropOldest(s, c).consumers| == |s.consumers|
    ensures DropOldest(s, c).consumers[c].filter == s.consumers[c].filter
    ensures roomy ==> HasRoom(DropOldest(s, c), c)
    ensures forall i :: 0 <= i < |s.consumers| ==> DropOldest(s, c).consumers[i].filter == s.consumers[i].filter
  {
    hide StackOk, Release;
    assert BoxOk(s.consumers[c]);
    if s.consumers[c].mailbox != [] {
      TakeTidy(order, roomy, s, c, true);
      ReleaseTidy(order, roomy, TakeOldest(s, c, true), s.consumers[c].mailbox[0]);
      ReleaseLeaves(TakeOldest(s, c, true), s.consumers[c].mailbox[0]);
    }
  }

  lemma {:induction false} WholeTidy(order: Order, roomy: bool, s: State, t: nat, f: Frame)
    requires At(order, roomy, s, t, f) && Wants(s.consumers[f.next].filter, f.ref.message)
    ensures Tidy(order, roomy, PostOrFail(order, DropOldest(s, f.next), t, f))
  {
    hide Tidy, Wants, DropOldest, PostOrFail;
    DropOldestTidy(order, roomy, s, f.next);
    PostOrFailTidy(order, roomy, DropOldest(s, f.next), t, f);
  }

  lemma {:induction false} FullTidy(order: Order, roomy: bool, s: State, t: nat, f: Frame)
    requires At(order, roomy, s, t, f) && f.phase.Full?
    ensures Tidy(order, roomy, Offer(order, s, t, f))
  {
    hide Tidy, Wants;
    var box := s.consumers[f.next].mailbox;
    if box == [] {
      ReplaceTidy(order, roomy, s, t, f.(phase := Retrying(f.phase.held)));
    } else {
      PopTidy(order, roomy, s, t);
      TakeTidy(order, roomy, Pop(s, t), f.next, true);
      PushTidy(order, roomy, TakeOldest(Pop(s, t), f.next, true), t, f.(phase := Dropping(f.phase.held, box[0])));
    }
  }

  lemma {:induction false} RetainAndPush(order: Order, roomy: bool, s: State, t: nat, f: Frame, g: Frame)
    requires At(order, roomy, s, t, f) && FrameOk(order, roomy, s.consumers, g)
    ensures Tidy(order, roomy, Push(Retain(Pop(s, t), f.ref), t, g))
  {
    hide Tidy, Wants, Retain, FrameOk;
    PopTidy(order, roomy, s, t);
    RetainTidy(order, roomy, Pop(s, t), f.ref);
    RetainLeaves(Pop(s, t), f.ref);
    PushTidy(order, roomy, Retain(Pop(s, t), f.ref), t, g);
  }

  lemma {:induction false} OfferTidy(order: Order, roomy: bool, s: State, t: nat, f: Frame)
    requires At(order, roomy, s, t, f)
    ensures Tidy(order, roomy, Offer(order, s, t, f))
  {
    hide Tidy, Wants, Release, Retain, Post, PostOrFail, DropOldest, Replace, Push, Pop;
    match f.phase
    case Checking => {
      ReplaceTidy(order, roomy, s, t, NextConsumer(f, true));
      if order == CheckAndEnqueue && Wants(s.consumers[f.next].filter, f.ref.message) {
        if HasRoom(s, f.next) { PostOrFailTidy(order, roomy, s, t, f); } else { WholeTidy(order, roomy, s, t, f); }
      } else if Wants(s.consumers[f.next].filter, f.ref.message) {
        ReplaceTidy(order, roomy, s, t, f.(phase := if order == RetainThenPost then Retaining else Posting(false)));
      }
    }
    case Retaining => RetainAndPush(order, roomy, s, t, f, f.(phase := Posting(true)));
    case Posting(held) => {
      if HasRoom(s, f.next) {
        PostTidy(order, roomy, s, t, f);
      } else if order == WholeEnqueue {
        WholeTidy(order, roomy, s, t, f);
      } else {
        ReplaceTidy(order, roomy, s, t, f.(phase := Full(held)));
      }
    }
    case Full(held) => FullTidy(order, roomy, s, t, f);
    case Dropping(held, oldest) => {
      ReplaceTidy(order, roomy, s, t, f.(phase := Retrying(held)));
      ReleaseTidy(order, roomy, Replace(s, t, f.(phase := Retrying(held))), oldest);
    }
    case Retrying(_) => PostOrFailTidy(order, roomy, s, t, f);
    case Posted => RetainAndPush(order, roomy, s, t, f, NextConsumer(f, true));
  }

  lemma {:induction false} FinishTidy(order: Order, roomy: bool, s: State, t: nat, f: Frame)
    requires Tidy(order, roomy, s) && Top(s, t) == Some(f)
    ensures Tidy(order, roomy, Release(Pop(s, t), f.ref))
    ensures f.Sending? && !f.ok ==> Tidy(order, roomy, Release(Pop(s, t), f.ref).(bufferFull := s.bufferFull + 1))
    ensures Release(Pop(s, t), f.ref).bufferFull == s.bufferFull
  {
    hide BoxOk, StackOk, Wants, Release, Pop;
    PopTidy(order, roomy, s, t);
    ReleaseTidy(order, roomy, Pop(s, t), f.ref);
    ReleaseLeaves(Pop(s, t), f.ref);
    PopSets(s, t);
  }

  lemma PopSets(s: State, t: nat)
    requires Top(s, t).Some?
    ensures Pop(s, t).bufferFull == s.bufferFull
  {}

  lemma {:induction false} ProceedTidy(order: Order, roomy: bool, s: State, t: nat, f: Frame)
    requires Tidy(order, roomy, s) && Top(s, t) == Some(f)
    ensures Tidy(order, roomy, Proceed(order, s, t, f))
  {
    hide Tidy, Release, Pop, Offer;
    PopTidy(order, roomy, s, t);
    FinishTidy(order, roomy, s, t, f);
    if f.Sending? && f.next < f.last && f.next < |s.consumers| {
      OfferTidy(order, roomy, s, t, f);
    }
  }

  lemma {:induction false} RegisterTidy(order: Order, roomy: bool, s: State, c: Consumer)
    requires Tidy(order, roomy, s) && c.mailbox == [] && c.offered == [] && c.taken == []
    requires roomy ==> c.capacity >= 1
    ensures Tidy(order, roomy, s.(consumers := s.consumers + [c]))
  {
    hide StackOk, Wants;
    assert MessagesTaken([]) + Messages([]) == [];
    var cs := s.consumers + [c];
    forall t | 0 <= t < |s.threads| ensures StackOk(order, roomy, cs, s.threads[t]) {
      StackGrows(order, roomy, s.consumers, c, s.threads[t]);
    }
  }

  lemma {:induction false} StackGrows(order: Order, roomy: bool, cs: seq<Consumer>, c: Consumer, stack: seq<Frame>)
    requires StackOk(order, roomy, cs, stack)
    ensures StackOk(order, roomy, cs + [c], stack)
  {
    hide Wants;
    forall k | 0 <= k < |stack| ensures FrameOk(order, roomy, cs + [c], stack[k]) {
      assert FrameOk(order, roomy, cs, stack[k]);
    }
  }

  ghost predicate Roomy(events: seq<Event>) {
    forall i :: 0 <= i < |events| && events[i].Register? ==> events[i].capacity >= 1
  }

  lemma {:induction false} StepTidy(order: Order, roomy: bool, s: State, e: Event)
    requires Tidy(order, roomy, s) && (roomy && e.Register? ==> e.capacity >= 1)
    ensures Tidy(order, roomy, Apply(order, s, e))
  {
    hide Tidy, Wants, Proceed, Push, Create, FreePacket;
    match e
    case Register(filter, capacity) => RegisterTidy(order, roomy, s, Consumer(filter, capacity, [], false, [], []));
    case SetPaused(c, paused) => PausedTidy(order, roomy, s, c, paused);
    case BeginSend(t, slot, m) => BeginTidy(order, roomy, s, t, slot, m);
    case Fetch(t, c, silent) => {
      if Ready(s, t) && c < |s.consumers| && s.consumers[c].mailbox != [] {
        TakeTidy(order, roomy, s, c, silent);
        PushTidy(order, roomy, TakeOldest(s, c, silent), t, Holding(s.consumers[c].mailbox[0]));
      }
    }
    case Advance(t) => {
      if Top(s, t).Some? { ProceedTidy(order, roomy, s, t, Top(s, t).value); }
    }
  }

  lemma {:induction false} PausedTidy(order: Order, roomy: bool, s: State, c: nat, paused: bool)
    requires Tidy(order, roomy, s)
    ensures Tidy(order, roomy, Apply(order, s, SetPaused(c, paused)))
  {
    hide StackOk, Wants;
    if c < |s.consumers| {
      assert BoxOk(s.consumers[c]);
      ConsumerTidy(order, roomy, s, c, s.consumers[c].(paused := paused));
    }
  }

  lemma {:induction false} BeginTidy(order: Order, roomy: bool, s: State, t: nat, slot: nat, m: Message)
    requires Tidy(order, roomy, s)
    ensures Tidy(order, roomy, Apply(order, s, BeginSend(t, slot, m)))
  {
    hide Tidy;
    var r := Ref(slot, m);
    CountsAside(order, roomy, s, FreePacket(s, m.handle));
    CountsAside(order, roomy, s, Create(s, r));
    if t < |s.threads| {
      PushTidy(order, roomy, Create(s, r), t, Sending(r, 0, |s.consumers|, Checking, true));
    }
  }

  lemma {:induction false} RunTidy(order: Order, roomy: bool, s: State, events: seq<Event>)
    requires Tidy(order, roomy, s) && (roomy ==> Roomy(events))
    ensures Tidy(order, roomy, After(order, s, events))
    decreases |events|
  {
    hide Tidy, Apply;
    if events != [] {
      StepTidy(order, roomy, s, events[0]);
      RunTidy(order, roomy, Apply(order, s, events[0]), events[1..]);
    }
  }

  lemma {:induction false} InitIsTidy(order: Order, roomy: bool, pool: set<nat>, threads: nat)
    ensures Tidy(order, roomy, Init(pool, threads))
  {}

  /**
   In every run, whatever the order of post and retain, every mailbox is a window: what was offered to the
   consumer is what was taken out of it, oldest first, followed by what is queued, at most its
   capacity; and nothing was offered that its filter does not want.
   */
  lemma {:induction false} MailboxesAreWindows(order: Order, pool: set<nat>, threads: nat, events: seq<Event>, c: nat)
    requires c < |After(order, Init(pool, threads), events).consumers|
    ensures
      var box := After(order, Init(pool, threads), events).consumers[c];
      && box.offered == MessagesTaken(box.taken) + Messages(box.mailbox)
      && |box.mailbox| <= box.capacity
      && forall i :: 0 <= i < |box.offered| ==> Wants(box.filter, box.offered[i])
  {
    hide After, Init, StackOk, Wants;
    InitIsTidy(order, false, pool, threads);
    RunTidy(order, false, Init(pool, threads), events);
    assert BoxOk(After(order, Init(pool, threads), events).consumers[c]);
  }

  /** With the whole enqueue in one step and room for one packet in every mailbox, no send reports a full buffer. */
  lemma {:induction false} NoSendFindsTheBufferFull(order: Order, pool: set<nat>, threads: nat, events: seq<Event>)
    requires Whole(order) && Roomy(events)
    ensures After(order, Init(pool, threads), events).bufferFull == 0
  {
    hide After, Init, StackOk, BoxOk;
    InitIsTidy(order, true, pool, threads);
    RunTidy(order, true, Init(pool, threads), events);
  }
}
