/** What a step of the bus does to its thread and to the mailboxes, without counts, slots and packets. */
module BusMoves {
  import opened Telemetry
  import opened Bus

  /** There is room for a packet of consumer `c`, if need be in place of the oldest entry. */
  predicate Fits(s: State, c: nat)
    requires c < |s.consumers|
  {
    HasRoom(s, c) || (s.consumers[c].mailbox != [] && |s.consumers[c].mailbox| <= s.consumers[c].capacity)
  }

  /** A sender at a consumer that is not paused and whose filter matches. */
  predicate Accepts(c: Consumer, m: Message) { !c.paused && Wants(c.filter, m) }

  /** The step of a sender with consumer `f.next` before it is a post that succeeds. */
  predicate PutsIn(order: Order, s: State, f: Frame)
    requires f.Sending? && f.next < |s.consumers|
  {
    match f.phase
    case Checking => order == CheckAndEnqueue && Accepts(s.consumers[f.next], f.ref.message) && Fits(s, f.next)
    case Posting(_) => if order == WholeEnqueue then Fits(s, f.next) else HasRoom(s, f.next)
    case Retrying(_) => HasRoom(s, f.next)
    case _ => false
  }

  /** The step is a post that fails for good. */
  predicate Refusing(order: Order, s: State, f: Frame)
    requires f.Sending? && f.next < |s.consumers|
  {
    match f.phase
    case Checking => order == CheckAndEnqueue && Accepts(s.consumers[f.next], f.ref.message) && !Fits(s, f.next)
    case Posting(_) => order == WholeEnqueue && !Fits(s, f.next)
    case Retrying(_) => !HasRoom(s, f.next)
    case _ => false
  }

  /** The frame of a sender after its step. */
  function NextFrame(order: Order, s: State, f: Frame): (g: Frame)
    requires f.Sending? && f.next < |s.consumers|
    ensures g.Sending? && g.ref == f.ref && g.last == f.last
  {
    if Refusing(order, s, f) then NextConsumer(f, false)
    else if PutsIn(order, s, f) then
      if order == PostThenRetain && !Held(f.phase) then f.(phase := Posted) else NextConsumer(f, true)
    else
      match f.phase
      case Checking =>
        if !Accepts(s.consumers[f.next], f.ref.message) then NextConsumer(f, true)
        else f.(phase := if order == RetainThenPost then Retaining else Posting(false))
      case Retaining => f.(phase := Posting(true))
      case Posting(held) => f.(phase := Full(held))
      case Full(held) =>
        f.(phase := if s.consumers[f.next].mailbox == [] then Retrying(held) else Dropping(held, s.consumers[f.next].mailbox[0]))
      case Dropping(held, _) => f.(phase := Retrying(held))
      case Retrying(_) => f
      case Posted => NextConsumer(f, true)
  }

  /** What was offered to consumer `c`, which may not be registered yet. */
  function OfferedTo(s: State, c: nat): seq<Message> {
    if c < |s.consumers| then s.consumers[c].offered else []
  }

  /** Nothing was added to, or taken from, the list of consumers, nor were their filters or capacities changed. */
  ghost predicate SameConsumers(s: State, s': State) {
    && |s'.consumers| == |s.consumers|
    && forall c :: 0 <= c < |s.consumers| ==>
         s'.consumers[c].filter == s.consumers[c].filter && s'.consumers[c].capacity == s.consumers[c].capacity
         && s'.consumers[c].paused == s.consumers[c].paused
  }

  /** Consumer `c` was offered `ms` more, and nobody else anything. */
  ghost predicate Offers(s: State, s': State, c: nat, ms: seq<Message>) {
    && SameConsumers(s, s')
    && forall d :: OfferedTo(s', d) == OfferedTo(s, d) + if d == c then ms else []
  }

  /** A packet that was given to the bus stays known to it. */
  ghost predicate Remembers(s: State, s': State) {
    forall h :: h in s.fates ==> h in s'.fates
  }

  lemma ReleaseLeaves(s: State, q: Ref)
    ensures var s' := Release(s, q); s'.consumers == s.consumers && s'.threads == s.threads && s'.bufferFull == s.bufferFull
    ensures Remembers(s, Release(s, q))
  {}

  lemma RetainLeaves(s: State, q: Ref)
    ensures var s' := Retain(s, q); s'.consumers == s.consumers && s'.threads == s.threads && s'.bufferFull == s.bufferFull
    ensures Remembers(s, Retain(s, q))
  {}

  /** The oldest entry goes, which leaves room unless the mailbox cannot hold anything. */
  lemma {:induction false} DropLeaves(s: State, c: nat)
    requires c < |s.consumers|
    ensures var s' := DropOldest(s, c);
      && s'.threads == s.threads && s'.bufferFull == s.bufferFull && Offers(s, s', c, []) && Remembers(s, s')
      && (!HasRoom(s, c) ==> (HasRoom(s', c) <==> Fits(s, c)))
  {
    hide Release;
    if s.consumers[c].mailbox != [] {
      ReleaseLeaves(TakeOldest(s, c, true), s.consumers[c].mailbox[0]);
    }
  }

  lemma {:induction false} DepositOffers(s: State, c: nat, q: Ref)
    requires c < |s.consumers|
    ensures Offers(s, Deposit(s, c, q), c, [q.message]) && Deposit(s, c, q).threads == s.threads
  {}

  lemma {:induction false} TakeOffers(s: State, c: nat)
    requires c < |s.consumers| && s.consumers[c].mailbox != []
    ensures Offers(s, TakeOldest(s, c, true), c, []) && TakeOldest(s, c, true).threads == s.threads
  {}

  /** The thread's top frame was replaced by `g`, and consumer `c` was offered `ms`. */
  ghost predicate Moves(s: State, s': State, t: nat, g: Frame, c: nat, ms: seq<Message>)
    requires Top(s, t).Some?
  {
    && s'.threads == Replace(s, t, g).threads && s'.bufferFull == s.bufferFull
    && Offers(s, s', c, ms) && Remembers(s, s')
  }

  lemma {:induction false} ReplaceMoves(s: State, t: nat, g: Frame, c: nat)
    requires Top(s, t).Some?
    ensures Moves(s, Replace(s, t, g), t, g, c, [])
  {}

  lemma {:induction false} MovesRetained(s: State, t: nat, g: Frame, q: Ref, c: nat)
    requires Top(s, t).Some?
    ensures Moves(s, Push(Retain(Pop(s, t), q), t, g), t, g, c, [])
  {
    hide Retain;
    RetainLeaves(Pop(s, t), q);
  }

  lemma {:induction false} MovesReleased(s: State, t: nat, g: Frame, q: Ref, c: nat)
    requires Top(s, t).Some?
    ensures Moves(s, Release(Replace(s, t, g), q), t, g, c, [])
  {
    hide Release;
    ReleaseLeaves(Replace(s, t, g), q);
  }

  lemma {:induction false} PostMoves(order: Order, s: State, t: nat, f: Frame)
    requires Top(s, t) == Some(f) && f.Sending? && f.next < |s.consumers|
    ensures
      var g := if order == PostThenRetain && !Held(f.phase) then f.(phase := Posted) else NextConsumer(f, true);
      Moves(s, Post(order, s, t, f), t, g, f.next, [f.ref.message])
  {
    hide Retain, Offers;
    DepositOffers(Pop(s, t), f.next, f.ref);
    var posted := Deposit(Pop(s, t), f.next, f.ref);
    RetainLeaves(posted, f.ref);
    var s' := Post(order, s, t, f);
    SameOffers(Pop(s, t), s, posted, s', f.next, [f.ref.message]);
  }

  lemma {:induction false} SameOffers(s: State, s0: State, s': State, s1: State, c: nat, ms: seq<Message>)
    requires Offers(s, s', c, ms) && s0.consumers == s.consumers && s1.consumers == s'.consumers
    ensures Offers(s0, s1, c, ms)
  {
    forall d ensures OfferedTo(s1, d) == OfferedTo(s0, d) + if d == c then ms else [] {
      assert OfferedTo(s', d) == OfferedTo(s, d) + if d == c then ms else [];
    }
  }

  lemma {:induction false} PostFailedMoves(s: State, t: nat, f: Frame)
    requires Top(s, t) == Some(f) && f.Sending? && f.next < |s.consumers|
    ensures Moves(s, PostFailed(s, t, f), t, NextConsumer(f, false), f.next, [])
  {
    hide Release, Moves;
    ReplaceMoves(s, t, NextConsumer(f, false), f.next);
    MovesReleased(s, t, NextConsumer(f, false), f.ref, f.next);
  }

  /** Dropping first does not matter to where the thread ends up and what is offered. */
  lemma {:induction false} AfterDropMoves(s: State, s': State, t: nat, g: Frame, c: nat, ms: seq<Message>)
    requires Top(s, t).Some? && c < |s.consumers| && Top(DropOldest(s, c), t).Some?
    requires Moves(DropOldest(s, c), s', t, g, c, ms)
    ensures Moves(s, s', t, g, c, ms)
  {
    hide DropOldest;
    DropLeaves(s, c);
    var dropped := DropOldest(s, c);
    forall d ensures OfferedTo(s', d) == OfferedTo(s, d) + if d == c then ms else [] {
      assert OfferedTo(s', d) == OfferedTo(dropped, d) + if d == c then ms else [];
      assert OfferedTo(dropped, d) == OfferedTo(s, d) + [];
    }
  }

  /** The whole enqueue, where there is room after dropping the oldest, and where there is none. */
  lemma {:induction false} WholeMoves(order: Order, s: State, t: nat, f: Frame)
    requires Top(s, t) == Some(f) && f.Sending? && f.next < |s.consumers| && !HasRoom(s, f.next)
    requires order != PostThenRetain
    ensures
      var s' := PostOrFail(order, DropOldest(s, f.next), t, f);
      if Fits(s, f.next) then Moves(s, s', t, NextConsumer(f, true), f.next, [f.ref.message])
      else Moves(s, s', t, NextConsumer(f, false), f.next, [])
  {
    hide DropOldest, Post, PostFailed, Moves, Offers;
    DropLeaves(s, f.next);
    var dropped := DropOldest(s, f.next);
    SameNumber(s, dropped, f.next);
    PostMoves(order, dropped, t, f);
    PostFailedMoves(dropped, t, f);
    if Fits(s, f.next) {
      AfterDropMoves(s, Post(order, dropped, t, f), t, NextConsumer(f, true), f.next, [f.ref.message]);
    } else {
      AfterDropMoves(s, PostFailed(dropped, t, f), t, NextConsumer(f, false), f.next, []);
    }
  }

  lemma SameNumber(s: State, s': State, c: nat)
    requires Offers(s, s', c, [])
    ensures |s'.consumers| == |s.consumers|
  {}

  lemma {:induction false} TakeMoves(s: State, t: nat, f: Frame, g: Frame)
    requires Top(s, t) == Some(f) && f.Sending? && f.next < |s.consumers| && s.consumers[f.next].mailbox != []
    ensures Moves(s, Push(TakeOldest(Pop(s, t), f.next, true), t, g), t, g, f.next, [])
  {
    hide Offers;
    TakeOffers(Pop(s, t), f.next);
    SameOffers(Pop(s, t), s, TakeOldest(Pop(s, t), f.next, true), Push(TakeOldest(Pop(s, t), f.next, true), t, g), f.next, []);
  }

  /** The step of a sender, seen from outside: its next frame, and the packet offered if it is a post that succeeds. */
  lemma {:induction false} OfferMoves(order: Order, s: State, t: nat, f: Frame)
    requires Top(s, t) == Some(f) && f.Sending? && f.next < |s.consumers|
    ensures Moves(s, Offer(order, s, t, f), t, NextFrame(order, s, f), f.next,
                  if PutsIn(order, s, f) then [f.ref.message] else [])
  {
    hide Wants, Release, Retain, Post, PostFailed, DropOldest, Replace, Push, Pop, TakeOldest, Moves, HasRoom;
    var g := NextFrame(order, s, f);
    ReplaceMoves(s, t, g, f.next);
    match f.phase
    case Checking => {
      if order == CheckAndEnqueue && Accepts(s.consumers[f.next], f.ref.message) {
        if HasRoom(s, f.next) { PostMoves(order, s, t, f); } else { WholeMoves(order, s, t, f); }
      }
    }
    case Retaining => MovesRetained(s, t, g, f.ref, f.next);
    case Posting(held) => {
      if HasRoom(s, f.next) { PostMoves(order, s, t, f); } else if order == WholeEnqueue { WholeMoves(order, s, t, f); }
    }
    case Full(held) => {
      if s.consumers[f.next].mailbox != [] { TakeMoves(s, t, f, g); }
    }
    case Dropping(held, oldest) => MovesReleased(s, t, g, oldest, f.next);
    case Retrying(_) => {
      PostMoves(order, s, t, f);
      PostFailedMoves(s, t, f);
    }
    case Posted => MovesRetained(s, t, g, f.ref, f.next);
  }
}
