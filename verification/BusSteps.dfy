/** Every step of the bus keeps the invariant, or is the one step that the code's order gets wrong. */
module BusSteps {
  import opened Telemetry
  import opened Bus
  import opened BusSafety

  // ----- the parts of a step, for any order -----

  lemma {:induction false} DepositMid(order: Order, s: State, c: nat, q: Ref, x: multiset<Ref>)
    requires Mid(order, s, x + multiset{q}) && c < |s.consumers| && q in s.counts
    ensures Mid(order, Deposit(s, c, q), x)
  {
    hide Good, NothingOwed;
    DepositKeeps(s, c, q, x + multiset{q}, x);
  }

  lemma {:induction false} TakeMid(order: Order, s: State, c: nat, silent: bool, x: multiset<Ref>)
    requires Mid(order, s, x) && c < |s.consumers| && s.consumers[c].mailbox != []
    ensures Mid(order, TakeOldest(s, c, silent), x + multiset{s.consumers[c].mailbox[0]})
  {
    hide Good, NothingOwed;
    TakeKeeps(s, c, silent, x, x + multiset{s.consumers[c].mailbox[0]});
  }

  lemma {:induction false} RetainMid(order: Order, s: State, q: Ref, x: multiset<Ref>)
    requires Mid(order, s, x) && q in s.counts
    ensures Mid(order, Retain(s, q), x + multiset{q}) && Retain(s, q).counts.Keys == s.counts.Keys
    ensures Retain(s, q).threads == s.threads
  {
    hide NothingOwed, Balanced, Conserved, Accounted;
    RetainKeeps(s, q, x, x + multiset{q});
  }

  /** The release of a reference that has an owner too many goes wrong when the count is one and a post is still owed. */
  ghost predicate Breaks(s: State, q: Ref) {
    q in s.counts && s.counts[q] == 1 && Owed(s, q) > 0
  }

  lemma {:induction false} ReleaseMid(order: Order, s: State, q: Ref)
    requires Mid(order, s, multiset{q})
    ensures Release(s, q).broken <==> Breaks(s, q)
    ensures !Breaks(s, q) ==> Inv(order, Release(s, q))
    ensures order != PostThenRetain ==> !Breaks(s, q)
    ensures Release(s, q).threads == s.threads && Release(s, q).consumers == s.consumers
  {
    hide Owed, Owners, Good;
    ReleaseKeeps(s, q, multiset{q});
  }

  /** Changing the top frame without changing what it counts for. */
  lemma {:induction false} ReplaceStep(order: Order, s: State, t: nat, f: Frame)
    requires Inv(order, s) && Top(s, t).Some? && Net(f) == Net(Top(s, t).value)
    requires !(f.Sending? && f.phase.Posted?)
    ensures Inv(order, Replace(s, t, f))
  {
    hide Own, Net, Inv, Mid;
    PopMid(order, s, t);
    PushMid(order, Pop(s, t), t, f, Net(f));
  }

  // ----- the steps of a sender -----

  /** `f` is the top frame of thread `t`, sending in a good state, with consumer `f.next` before it. */
  ghost predicate At(order: Order, s: State, t: nat, f: Frame) {
    Inv(order, s) && Top(s, t) == Some(f) && f.Sending? && f.next < |s.consumers|
  }

  lemma {:induction false} RetainingStep(order: Order, s: State, t: nat, f: Frame)
    requires At(order, s, t, f) && f.phase == Retaining
    ensures Inv(order, Offer(order, s, t, f))
  {
    hide Inv, Mid, Retain;
    PopMid(order, s, t);
    assert Own(f, f.ref) > 0;
    var g := f.(phase := Posting(true));
    assert Net(f) == multiset{f.ref} && Net(g) == multiset{f.ref} + multiset{f.ref};
    RetainMid(order, Pop(s, t), f.ref, multiset{f.ref});
    PushMid(order, Retain(Pop(s, t), f.ref), t, g, Net(g));
  }

  lemma {:induction false} PostedStep(order: Order, s: State, t: nat, f: Frame)
    requires At(order, s, t, f) && f.phase == Posted
    ensures Inv(order, Offer(order, s, t, f))
  {
    hide Inv, Mid, Retain;
    PopMid(order, s, t);
    assert Own(f, f.ref) > 0;
    var g := NextConsumer(f, true);
    assert Net(f) == multiset{} && Net(g) == multiset{f.ref} == multiset{} + multiset{f.ref};
    RetainMid(order, Pop(s, t), f.ref, multiset{});
    PushMid(order, Retain(Pop(s, t), f.ref), t, g, Net(g));
  }

  predicate Posts(f: Frame) { f.Sending? && (f.phase.Checking? || f.phase.Posting? || f.phase.Retrying?) }

  lemma {:induction false} PostStep(order: Order, s: State, t: nat, f: Frame)
    requires At(order, s, t, f) && Posts(f)
    ensures Inv(order, Post(order, s, t, f))
  {
    hide Inv, Mid, Retain;
    var r := f.ref;
    var h := if Held(f.phase) then multiset{r} else multiset{};
    PopMid(order, s, t);
    assert Own(f, r) > 0;
    assert Net(f) == h + multiset{r};
    DepositMid(order, Pop(s, t), f.next, r, h);
    var posted := Deposit(Pop(s, t), f.next, r);
    var g := NextConsumer(f, true);
    var p := f.(phase := Posted);
    assert Net(g) == multiset{r} && Net(p) == multiset{};
    hide Net, Own, Deposit, Pop;
    if Held(f.phase) {
      PushMid(order, posted, t, g, h);
    } else if order == PostThenRetain {
      PushMid(order, posted, t, p, h);
    } else {
      RetainMid(order, posted, r, h);
      PushMid(order, Retain(posted, r), t, g, multiset{r});
    }
  }

  lemma {:induction false} PostFailedStep(order: Order, s: State, t: nat, f: Frame)
    requires At(order, s, t, f) && Posts(f)
    ensures PostFailed(s, t, f).broken <==> Held(f.phase) && Breaks(s, f.ref)
    ensures !PostFailed(s, t, f).broken ==> Inv(order, PostFailed(s, t, f))
    ensures order != PostThenRetain ==> !PostFailed(s, t, f).broken
  {
    hide Mid, Release, Good, Owed;
    var r := f.ref;
    var g := NextConsumer(f, false);
    assert Net(g) == multiset{r};
    if Held(f.phase) {
      assert Net(f) == multiset{r} + Net(g);
      ReplaceDropping(order, s, t, g, r);
      ReleaseMid(order, Replace(s, t, g), r);
    } else {
      ReplaceStep(order, s, t, g);
      NotBroken(order, Replace(s, t, g));
    }
  }

  lemma NotBroken(order: Order, s: State)
    ensures Inv(order, s) ==> !s.broken
  {}

  /** Changing the top frame so that it counts for `q` no more. */
  lemma {:induction false} ReplaceDropping(order: Order, s: State, t: nat, g: Frame, q: Ref)
    requires Inv(order, s) && Top(s, t).Some? && Net(Top(s, t).value) == multiset{q} + Net(g)
    requires forall r :: Own(g, r) > 0 ==> Own(Top(s, t).value, r) > 0
    requires forall r :: Due(g, r) == 0 && Due(Top(s, t).value, r) == 0
    ensures Mid(order, Replace(s, t, g), multiset{q})
    ensures Owed(Replace(s, t, g), q) == Owed(s, q) && Replace(s, t, g).counts == s.counts
    ensures Replace(s, t, g).consumers == s.consumers && Top(Replace(s, t, g), t) == Some(g)
  {
    hide Own, Due, Net, Good, NothingOwed;
    var f := Top(s, t).value;
    PopMid(order, s, t);
    forall r ensures Net(g)[r] + Due(g, r) == Own(g, r) { NetIs(g, r); }
    PushKeeps(Pop(s, t), t, g, Net(f), multiset{q});
    PopOwners(s, t, q);
    PushOwners(Pop(s, t), t, g, q);
  }

  lemma {:induction false} DroppingStep(order: Order, s: State, t: nat, f: Frame)
    requires At(order, s, t, f) && f.phase.Dropping?
    ensures Offer(order, s, t, f).broken <==> Breaks(s, f.phase.oldest)
    ensures !Offer(order, s, t, f).broken ==> Inv(order, Offer(order, s, t, f))
    ensures order != PostThenRetain ==> !Offer(order, s, t, f).broken
  {
    hide Inv, Mid, Release, Owed, Replace;
    var q := f.phase.oldest;
    var g := f.(phase := Retrying(f.phase.held));
    assert Net(f) == multiset{q} + Net(g);
    hide Net;
    ReplaceDropping(order, s, t, g, q);
    ReleaseMid(order, Replace(s, t, g), q);
  }

  lemma {:induction false} FullStep(order: Order, s: State, t: nat, f: Frame)
    requires At(order, s, t, f) && f.phase.Full?
    ensures Inv(order, Offer(order, s, t, f))
  {
    hide Inv, Mid;
    var box := s.consumers[f.next].mailbox;
    if box == [] {
      ReplaceStep(order, s, t, f.(phase := Retrying(f.phase.held)));
    } else {
      FullTakes(order, s, t, f);
    }
  }

  lemma {:induction false} FullTakes(order: Order, s: State, t: nat, f: Frame)
    requires At(order, s, t, f) && f.phase.Full? && s.consumers[f.next].mailbox != []
    ensures
      var g := f.(phase := Dropping(f.phase.held, s.consumers[f.next].mailbox[0]));
      Inv(order, Push(TakeOldest(Pop(s, t), f.next, true), t, g))
  {
    hide Inv, Mid;
    var q := s.consumers[f.next].mailbox[0];
    var g := f.(phase := Dropping(f.phase.held, q));
    PopMid(order, s, t);
    TakeMid(order, Pop(s, t), f.next, true, Net(f));
    assert Net(g) == Net(f) + multiset{q};
    hide Net;
    PushMid(order, TakeOldest(Pop(s, t), f.next, true), t, g, Net(g));
  }

  lemma {:induction false} DropOldestStep(order: Order, s: State, c: nat)
    requires Inv(order, s) && c < |s.consumers| && order != PostThenRetain
    ensures Inv(order, DropOldest(s, c))
    ensures DropOldest(s, c).threads == s.threads && |DropOldest(s, c).consumers| == |s.consumers|
  {
    hide Good, NothingOwed, Release;
    if s.consumers[c].mailbox != [] {
      TakeMid(order, s, c, true, multiset{});
      assert multiset{} + multiset{s.consumers[c].mailbox[0]} == multiset{s.consumers[c].mailbox[0]};
      ReleaseMid(order, TakeOldest(s, c, true), s.consumers[c].mailbox[0]);
    }
  }

  /** The reference that the next step of a thread releases, if it releases one. */
  function ReleasedBy(s: State, f: Frame): Option<Ref> {
    match f
    case Holding(r) => Some(r)
    case Sending(r, next, last, phase, _) =>
      if next < last && next < |s.consumers| then
        match phase
        case Dropping(_, oldest) => Some(oldest)
        case Retrying(held) => if held && !HasRoom(s, next) then Some(r) else None
        case _ => None
      else if phase == Checking then Some(r) else None
  }

  /** A step out of a good state: it breaks the run if and only if it releases a reference it must not, and else all is well. */
  ghost predicate StepsWell(order: Order, s: State, f: Frame, s': State) {
    && (s'.broken <==> ReleasedBy(s, f).Some? && Breaks(s, ReleasedBy(s, f).value))
    && (!s'.broken ==> Inv(order, s'))
    && (order != PostThenRetain ==> !s'.broken)
  }

  lemma {:induction false} PostOrFailStep(order: Order, s: State, t: nat, f: Frame)
    requires At(order, s, t, f) && Posts(f)
    ensures
      var s' := PostOrFail(order, s, t, f);
      && (s'.broken <==> !HasRoom(s, f.next) && Held(f.phase) && Breaks(s, f.ref))
      && (!s'.broken ==> Inv(order, s'))
      && (order != PostThenRetain ==> !s'.broken)
  {
    hide Inv, Post, PostFailed, Breaks;
    PostStep(order, s, t, f);
    PostFailedStep(order, s, t, f);
    NotBroken(order, Post(order, s, t, f));
  }

  lemma {:induction false} CheckingStep(order: Order, s: State, t: nat, f: Frame)
    requires At(order, s, t, f) && f.phase == Checking
    ensures Inv(order, Offer(order, s, t, f))
  {
    hide Inv, Wants, PostOrFail, DropOldest, Breaks;
    ReplaceStep(order, s, t, NextConsumer(f, true));
    ReplaceStep(order, s, t, f.(phase := Retaining));
    ReplaceStep(order, s, t, f.(phase := Posting(false)));
    if order == CheckAndEnqueue {
      if HasRoom(s, f.next) {
        PostOrFailStep(order, s, t, f);
      } else {
        DropOldestStep(order, s, f.next);
        PostOrFailStep(order, DropOldest(s, f.next), t, f);
      }
    }
  }

  lemma {:induction false} PostingStep(order: Order, s: State, t: nat, f: Frame)
    requires At(order, s, t, f) && f.phase.Posting?
    ensures Inv(order, Offer(order, s, t, f))
  {
    hide Inv, Post, PostOrFail, DropOldest, Breaks;
    if HasRoom(s, f.next) {
      PostStep(order, s, t, f);
    } else if order == WholeEnqueue {
      DropOldestStep(order, s, f.next);
      PostOrFailStep(order, DropOldest(s, f.next), t, f);
    } else {
      ReplaceStep(order, s, t, f.(phase := Full(f.phase.held)));
    }
  }

  lemma {:induction false} OfferStep(order: Order, s: State, t: nat, f: Frame)
    requires At(order, s, t, f) && f.next < f.last
    ensures StepsWell(order, s, f, Offer(order, s, t, f))
  {
    hide Inv, Breaks;
    match f.phase
    case Checking => { CheckingStep(order, s, t, f); NotBroken(order, Offer(order, s, t, f)); }
    case Retaining => { RetainingStep(order, s, t, f); NotBroken(order, Offer(order, s, t, f)); }
    case Posting(_) => { PostingStep(order, s, t, f); NotBroken(order, Offer(order, s, t, f)); }
    case Full(_) => { FullStep(order, s, t, f); NotBroken(order, Offer(order, s, t, f)); }
    case Dropping(_, _) => DroppingStep(order, s, t, f);
    case Retrying(_) => PostOrFailStep(order, s, t, f);
    case Posted => { PostedStep(order, s, t, f); NotBroken(order, Offer(order, s, t, f)); }
  }

  /** Releasing the reference of a frame that goes away with it. */
  lemma {:induction false} LeaveStep(order: Order, s: State, t: nat, q: Ref)
    requires Inv(order, s) && Top(s, t).Some? && Net(Top(s, t).value) == multiset{q}
    requires forall r :: Due(Top(s, t).value, r) == 0
    ensures Release(Pop(s, t), q).broken <==> Breaks(s, q)
    ensures !Breaks(s, q) ==> Inv(order, Release(Pop(s, t), q))
    ensures order != PostThenRetain ==> !Breaks(s, q)
  {
    hide Inv, Mid, Release, Owed, Due, Net;
    PopMid(order, s, t);
    PopOwners(s, t, q);
    ReleaseMid(order, Pop(s, t), q);
  }

  lemma {:induction false} BufferFullAside(order: Order, s: State, n: nat)
    requires Inv(order, s)
    ensures Inv(order, s.(bufferFull := n))
  {
    hide Owners, Owed, Conserved, Accounted;
    var s' := s.(bufferFull := n);
    SameOwners(s, s');
    ConservedAlike(s, s');
    AccountedAlike(s, s');
    forall r ensures BalancedAt(s', multiset{}, r) { assert BalancedAt(s, multiset{}, r); }
  }

  lemma {:induction false} ProceedStep(order: Order, s: State, t: nat, f: Frame)
    requires Inv(order, s) && Top(s, t) == Some(f)
    ensures StepsWell(order, s, f, Proceed(order, s, t, f))
  {
    hide Inv, Breaks, Release, Offer;
    NotBroken(order, s);
    match f
    case Holding(r) => LeaveStep(order, s, t, r);
    case Sending(r, next, last, phase, ok) => {
      if next < last && next < |s.consumers| {
        OfferStep(order, s, t, f);
      } else if phase == Checking {
        LeaveStep(order, s, t, r);
        var s' := Release(Pop(s, t), r);
        if !s'.broken { BufferFullAside(order, s', if ok then s.bufferFull else s.bufferFull + 1); }
      }
    }
  }

  lemma {:induction false} ConsumersAside(order: Order, s: State, s': State)
    requires Inv(order, s) && s' == s.(consumers := s'.consumers)
    requires forall r :: InMail(s'.consumers, r) == InMail(s.consumers, r)
    ensures Inv(order, s')
  {
    hide InMail, InThreads, DueInThreads, Conserved, Accounted;
    ConservedAlike(s, s');
    AccountedAlike(s, s');
    forall r ensures BalancedAt(s', multiset{}, r) { assert BalancedAt(s, multiset{}, r); }
    if NothingOwed(s) {
      forall r ensures Owed(s', r) == 0 { assert Owed(s, r) == 0; }
    }
  }

  lemma {:induction false} RegisterStep(order: Order, s: State, filter: Filter, capacity: nat)
    requires Inv(order, s)
    ensures Inv(order, Apply(order, s, Register(filter, capacity)))
  {
    hide Inv;
    var c := Consumer(filter, capacity, [], false, [], []);
    forall r ensures InMail(s.consumers + [c], r) == InMail(s.consumers, r) { MailAppend(s.consumers, c, r); }
    ConsumersAside(order, s, s.(consumers := s.consumers + [c]));
  }

  lemma {:induction false} SetPausedStep(order: Order, s: State, c: nat, paused: bool)
    requires Inv(order, s)
    ensures Inv(order, Apply(order, s, SetPaused(c, paused)))
  {
    hide Inv;
    if c < |s.consumers| {
      var to := s.consumers[c].(paused := paused);
      forall r ensures InMail(s.consumers[c := to], r) == InMail(s.consumers, r) { MailUpdate(s.consumers, c, to, r); }
      ConsumersAside(order, s, s.(consumers := s.consumers[c := to]));
    }
  }

  /** With the pool exhausted the packet is freed at once, and nothing else changes. */
  lemma {:induction false} ExhaustedStep(order: Order, s: State, handle: nat)
    requires Inv(order, s) && handle !in s.fates
    ensures Inv(order, FreePacket(s, handle))
  {
    hide Owners, Owed, Conserved;
    var s' := FreePacket(s, handle);
    SameOwners(s, s');
    ConservedAlike(s, s');
    forall r ensures BalancedAt(s', multiset{}, r) { assert BalancedAt(s, multiset{}, r); }
    forall r | r in s'.counts ensures InUse(s', r) { assert InUse(s, r); }
    forall h | h in s'.fates ensures FreedOnce(s', h) || StillHeld(s', h) {
      if h != handle { assert FreedOnce(s, h) || StillHeld(s, h); }
    }
  }

  lemma {:induction false} BeginSendStep(order: Order, s: State, t: nat, slot: nat, m: Message)
    requires Inv(order, s)
    ensures Inv(order, Apply(order, s, BeginSend(t, slot, m)))
  {
    hide Balanced, Conserved, Accounted, NothingOwed, Create, FreePacket;
    if Ready(s, t) && m.handle !in s.fates {
      if s.free == {} {
        ExhaustedStep(order, s, m.handle);
      } else if slot in s.free {
        var q := Ref(slot, m);
        var f := Sending(q, 0, |s.consumers|, Checking, true);
        CreateKeeps(s, q, multiset{q});
        assert Net(f) == multiset{q};
        CreateThreads(s, q);
        hide Good;
        PushMid(order, Create(s, q), t, f, multiset{q});
      }
    }
  }

  lemma CreateThreads(s: State, q: Ref)
    ensures Create(s, q).threads == s.threads
  {}

  lemma {:induction false} FetchStep(order: Order, s: State, t: nat, c: nat, silent: bool)
    requires Inv(order, s)
    ensures Inv(order, Apply(order, s, Fetch(t, c, silent)))
  {
    hide Good, NothingOwed;
    if !s.broken && Ready(s, t) && c < |s.consumers| && s.consumers[c].mailbox != [] {
      var q := s.consumers[c].mailbox[0];
      TakeMid(order, s, c, silent, multiset{});
      assert Net(Holding(q)) == multiset{} + multiset{q};
      PushMid(order, TakeOldest(s, c, silent), t, Holding(q), multiset{} + multiset{q});
    }
  }

  /**
   One step of the machine, whatever the order. It keeps the invariant unless it breaks the run; in
   the code's order it breaks the run exactly when it releases a reference whose count is one while
   a post of that reference is still to be retained; in the other orders it never does.
   */
  lemma {:induction false} StepKeeps(order: Order, s: State, e: Event)
    requires Inv(order, s)
    ensures
      var s' := Apply(order, s, e);
      && (!s'.broken ==> Inv(order, s'))
      && (order != PostThenRetain ==> !s'.broken)
      && (s'.broken <==>
            && e.Advance? && Top(s, e.thread).Some?
            && ReleasedBy(s, Top(s, e.thread).value).Some? && Breaks(s, ReleasedBy(s, Top(s, e.thread).value).value))
  {
    hide Inv, Breaks, Proceed, ReleasedBy;
    NotBroken(order, s);
    var s' := Apply(order, s, e);
    match e
    case Register(filter, capacity) => { RegisterStep(order, s, filter, capacity); NotBroken(order, s'); }
    case SetPaused(c, paused) => { SetPausedStep(order, s, c, paused); NotBroken(order, s'); }
    case BeginSend(t, slot, m) => { BeginSendStep(order, s, t, slot, m); NotBroken(order, s'); }
    case Fetch(t, c, silent) => { FetchStep(order, s, t, c, silent); NotBroken(order, s'); }
    case Advance(t) => {
      if Top(s, t).Some? { ProceedStep(order, s, t, Top(s, t).value); }
    }
  }
}
