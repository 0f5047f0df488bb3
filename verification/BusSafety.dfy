/** What every step of the bus keeps: counts match owners, slots are conserved, packets are freed once. */
module BusSafety {
  import opened Telemetry
  import opened Bus

  // ----- what a run records -----

  /** Every free is counted, for its packet only, and the packet's reference is remembered. */
  lemma FreesAreCounted(fates: map<nat, Fate>, h: nat)
    ensures
      var after := MarkFreed(fates, h);
      && after.Keys == fates.Keys + {h}
      && after[h].frees == (if h in fates then fates[h].frees else 0) + 1
      && (h in fates ==> after[h].home == fates[h].home)
      && forall g :: g in fates && g != h ==> after[g] == fates[g]
  {}

  /** A run is broken by the use of a reference that was freed, and by freeing one that still has an owner; and by nothing else here. */
  lemma UseAfterFreeBreaks(s: State, r: Ref)
    ensures Retain(s, r).broken <==> s.broken || r !in s.counts
    ensures Release(s, r).broken <==> s.broken || r !in s.counts || (s.counts[r] <= 1 && Owners(s, r) > 0)
  {
    hide Owners;
  }

  // ----- sums over consumers, stacks and threads -----

  lemma {:induction false} MailUpdate(cs: seq<Consumer>, i: nat, c: Consumer, r: Ref)
    requires i < |cs|
    ensures InMail(cs[i := c], r) == InMail(cs, r) - Copies(cs[i].mailbox, r) + Copies(c.mailbox, r)
    decreases |cs|
  {
    hide Copies;
    if i == 0 {
      assert cs[i := c][1..] == cs[1..];
    } else {
      MailUpdate(cs[1..], i - 1, c, r);
      assert cs[i := c][1..] == cs[1..][i - 1 := c];
    }
  }

  lemma {:induction false} MailAppend(cs: seq<Consumer>, c: Consumer, r: Ref)
    ensures InMail(cs + [c], r) == InMail(cs, r) + Copies(c.mailbox, r)
    decreases |cs|
  {
    hide Copies;
    if cs == [] {
      assert [c][1..] == [];
    } else {
      MailAppend(cs[1..], c, r);
      assert (cs + [c])[1..] == cs[1..] + [c];
    }
  }

  lemma {:induction false} ThreadsUpdate(threads: seq<seq<Frame>>, t: nat, stack: seq<Frame>, r: Ref)
    requires t < |threads|
    ensures InThreads(threads[t := stack], r) == InThreads(threads, r) - InStack(threads[t], r) + InStack(stack, r)
    ensures DueInThreads(threads[t := stack], r) == DueInThreads(threads, r) - DueInStack(threads[t], r) + DueInStack(stack, r)
    decreases |threads|
  {
    hide InStack, DueInStack;
    if t == 0 {
      assert threads[t := stack][1..] == threads[1..];
    } else {
      ThreadsUpdate(threads[1..], t - 1, stack, r);
      assert threads[t := stack][1..] == threads[1..][t - 1 := stack];
    }
  }

  lemma {:induction false} StackPush(stack: seq<Frame>, f: Frame, r: Ref)
    ensures InStack(stack + [f], r) == InStack(stack, r) + Own(f, r)
    ensures DueInStack(stack + [f], r) == DueInStack(stack, r) + Due(f, r)
  {
    hide Own, Due;
    assert (stack + [f])[..|stack|] == stack;
  }

  lemma {:induction false} PushOwners(s: State, t: nat, f: Frame, r: Ref)
    requires t < |s.threads|
    ensures Owners(Push(s, t, f), r) == Owners(s, r) + Own(f, r)
    ensures Owed(Push(s, t, f), r) == Owed(s, r) + Due(f, r)
  {
    hide Own, Due, InThreads, DueInThreads, InStack, DueInStack, InMail;
    StackPush(s.threads[t], f, r);
    ThreadsUpdate(s.threads, t, s.threads[t] + [f], r);
  }

  lemma {:induction false} PopOwners(s: State, t: nat, r: Ref)
    requires t < |s.threads| && s.threads[t] != []
    ensures Owners(Pop(s, t), r) == Owners(s, r) - Own(Top(s, t).value, r)
    ensures Owed(Pop(s, t), r) == Owed(s, r) - Due(Top(s, t).value, r)
  {
    hide Own, Due, InThreads, DueInThreads, InMail;
    var stack := s.threads[t];
    ThreadsUpdate(s.threads, t, stack[..|stack| - 1], r);
  }

  lemma {:induction false} DepositOwners(s: State, c: nat, q: Ref, r: Ref)
    requires c < |s.consumers|
    ensures Owners(Deposit(s, c, q), r) == Owners(s, r) + If(q == r)
    ensures Owed(Deposit(s, c, q), r) == Owed(s, r)
  {
    hide InThreads, DueInThreads, InMail;
    MailUpdate(s.consumers, c, Deposit(s, c, q).consumers[c], r);
    assert multiset(s.consumers[c].mailbox + [q]) == multiset(s.consumers[c].mailbox) + multiset{q};
  }

  lemma {:induction false} TakeOwners(s: State, c: nat, silent: bool, r: Ref)
    requires c < |s.consumers| && s.consumers[c].mailbox != []
    ensures Owners(TakeOldest(s, c, silent), r) == Owners(s, r) - If(s.consumers[c].mailbox[0] == r)
    ensures Owed(TakeOldest(s, c, silent), r) == Owed(s, r)
  {
    hide InThreads, DueInThreads, InMail;
    var box := s.consumers[c].mailbox;
    MailUpdate(s.consumers, c, TakeOldest(s, c, silent).consumers[c], r);
    assert box == [box[0]] + box[1..];
    assert multiset(box) == multiset{box[0]} + multiset(box[1..]);
  }

  // ----- the invariant -----

  /**
   Counts match owners, reference by reference, once those are added that were retained for an owner
   yet to come, `extra`, and those are set off that were posted and are still to be retained.
   Nothing that was freed has an owner.
   */
  ghost predicate BalancedAt(s: State, extra: multiset<Ref>, r: Ref) {
    if r in s.counts then s.counts[r] >= 1 && s.counts[r] + Owed(s, r) == Owners(s, r) + extra[r]
    else Owners(s, r) == 0 && Owed(s, r) == 0 && extra[r] == 0
  }

  ghost predicate Balanced(s: State, extra: multiset<Ref>) {
    forall r: Ref :: BalancedAt(s, extra, r)
  }

  /** Every slot is either free or in use by one reference, and none is lost. */
  ghost predicate Conserved(s: State) {
    && (forall r :: r in s.counts ==> r.slot !in s.free)
    && (forall q, r :: q in s.counts && r in s.counts && q.slot == r.slot ==> q == r)
    && |s.free| + |s.counts| == MAX_NUM_TELEMETRY_REFS
  }

  /** A packet given to the bus was freed once, or it is in one live reference and was not freed. */
  ghost predicate Accounted(s: State) {
    && (forall r :: r in s.counts ==> InUse(s, r))
    && (forall h :: h in s.fates ==> FreedOnce(s, h) || StillHeld(s, h))
  }

  ghost predicate InUse(s: State, r: Ref) {
    r.message.handle in s.fates && s.fates[r.message.handle] == Fate(Some(r), 0)
  }

  ghost predicate FreedOnce(s: State, h: nat)
    requires h in s.fates
  {
    s.fates[h].frees == 1
  }

  ghost predicate StillHeld(s: State, h: nat)
    requires h in s.fates
  {
    var f := s.fates[h];
    f.frees == 0 && f.home.Some? && f.home.value in s.counts && f.home.value.message.handle == h
  }

  ghost predicate Good(s: State, extra: multiset<Ref>) {
    !s.broken && Balanced(s, extra) && Conserved(s) && Accounted(s)
  }

  /** Nothing is posted without being retained. */
  ghost predicate NothingOwed(s: State) {
    forall r: Ref :: Owed(s, r) == 0
  }

  // ----- what each part of a step does to the balance -----

  /** A new frame takes its references out of `x`; what it has yet to retain it does not take. */
  lemma {:induction false} PushKeeps(s: State, t: nat, f: Frame, x: multiset<Ref>, x': multiset<Ref>)
    requires Good(s, x) && t < |s.threads|
    requires forall r :: x'[r] + Own(f, r) == x[r] + Due(f, r)
    requires forall r :: Own(f, r) > 0 ==> r in s.counts
    ensures Good(Push(s, t, f), x')
    ensures NothingOwed(s) && (forall r :: Due(f, r) == 0) ==> NothingOwed(Push(s, t, f))
  {
    hide Own, Owners, Owed, Conserved, Accounted;
    ConservedAlike(s, Push(s, t, f));
    AccountedAlike(s, Push(s, t, f));
    forall r ensures BalancedAt(Push(s, t, f), x', r) && Owed(Push(s, t, f), r) == Owed(s, r) + Due(f, r) {
      PushOwners(s, t, f, r);
      assert BalancedAt(s, x, r);
      DueIsOwned(f, r);
    }
  }

  lemma DueIsOwned(f: Frame, r: Ref)
    ensures Due(f, r) <= Own(f, r)
  {}

  /** What the top frame owned is left over in `x`. */
  lemma {:induction false} PopKeeps(s: State, t: nat, x: multiset<Ref>, x': multiset<Ref>)
    requires Good(s, x) && t < |s.threads| && s.threads[t] != []
    requires forall r :: x'[r] + Due(Top(s, t).value, r) == x[r] + Own(Top(s, t).value, r)
    ensures Good(Pop(s, t), x')
    ensures NothingOwed(s) ==> NothingOwed(Pop(s, t))
  {
    hide Own, Due, Owners, Owed, Conserved, Accounted;
    ConservedAlike(s, Pop(s, t));
    AccountedAlike(s, Pop(s, t));
    forall r ensures BalancedAt(Pop(s, t), x', r) && Owed(Pop(s, t), r) <= Owed(s, r) {
      PopOwners(s, t, r);
      assert BalancedAt(s, x, r);
    }
  }

  lemma {:induction false} DepositKeeps(s: State, c: nat, q: Ref, x: multiset<Ref>, x': multiset<Ref>)
    requires Good(s, x) && c < |s.consumers| && q in s.counts
    requires forall r :: x'[r] + If(q == r) == x[r]
    ensures Good(Deposit(s, c, q), x')
    ensures NothingOwed(s) ==> NothingOwed(Deposit(s, c, q))
  {
    hide Owners, Owed, Conserved, Accounted;
    ConservedAlike(s, Deposit(s, c, q));
    AccountedAlike(s, Deposit(s, c, q));
    forall r ensures BalancedAt(Deposit(s, c, q), x', r) && Owed(Deposit(s, c, q), r) == Owed(s, r) {
      DepositOwners(s, c, q, r);
      assert BalancedAt(s, x, r);
    }
  }

  lemma {:induction false} TakeKeeps(s: State, c: nat, silent: bool, x: multiset<Ref>, x': multiset<Ref>)
    requires Good(s, x) && c < |s.consumers| && s.consumers[c].mailbox != []
    requires forall r :: x'[r] == x[r] + If(s.consumers[c].mailbox[0] == r)
    ensures Good(TakeOldest(s, c, silent), x')
    ensures NothingOwed(s) ==> NothingOwed(TakeOldest(s, c, silent))
  {
    hide Owners, Owed, Conserved, Accounted;
    ConservedAlike(s, TakeOldest(s, c, silent));
    AccountedAlike(s, TakeOldest(s, c, silent));
    forall r ensures BalancedAt(TakeOldest(s, c, silent), x', r) && Owed(TakeOldest(s, c, silent), r) == Owed(s, r) {
      TakeOwners(s, c, silent, r);
      assert BalancedAt(s, x, r);
    }
  }

  lemma {:induction false} SameOwners(s: State, s': State)
    requires s'.threads == s.threads && s'.consumers == s.consumers
    ensures forall r :: Owners(s', r) == Owners(s, r) && Owed(s', r) == Owed(s, r)
    ensures NothingOwed(s) ==> NothingOwed(s')
  {
    hide InMail, InThreads, DueInThreads;
  }

  lemma {:induction false} RetainKeeps(s: State, q: Ref, x: multiset<Ref>, x': multiset<Ref>)
    requires Good(s, x) && q in s.counts
    requires forall r :: x'[r] == x[r] + If(q == r)
    ensures Good(Retain(s, q), x')
    ensures NothingOwed(s) ==> NothingOwed(Retain(s, q))
  {
    hide Owners, Owed, Accounted, Conserved, NothingOwed;
    var s' := Retain(s, q);
    SameOwners(s, s');
    assert s'.counts.Keys == s.counts.Keys;
    AccountedAlike(s, s');
    ConservedAlike(s, s');
    forall r ensures BalancedAt(s', x', r) {
      assert BalancedAt(s, x, r);
    }
  }

  lemma OneMore(counts: map<Ref, nat>, q: Ref)
    requires q !in counts
    ensures |counts[q := 1]| == |counts| + 1
  {
    var more := counts[q := 1];
    assert more.Keys == counts.Keys + {q};
    assert |more| == |more.Keys| && |counts| == |counts.Keys|;
  }

  lemma OneSlotFewer(free: set<nat>, slot: nat)
    requires slot in free
    ensures |free - {slot}| == |free| - 1
  {}

  lemma {:induction false} CreateConserves(s: State, q: Ref)
    requires Conserved(s) && q.slot in s.free
    ensures Conserved(Create(s, q))
  {
    assert q !in s.counts;
    OneMore(s.counts, q);
    OneSlotFewer(s.free, q.slot);
  }

  lemma {:induction false} CreateAccounts(s: State, q: Ref)
    requires Accounted(s) && q !in s.counts && q.message.handle !in s.fates
    ensures Accounted(Create(s, q))
  {
    var s' := Create(s, q);
    forall r | r in s'.counts ensures InUse(s', r) {
      if r != q { assert InUse(s, r); }
    }
    forall h | h in s'.fates ensures FreedOnce(s', h) || StillHeld(s', h) {
      if h != q.message.handle { assert FreedOnce(s, h) || StillHeld(s, h); }
    }
  }

  lemma {:induction false} CreateKeeps(s: State, q: Ref, x: multiset<Ref>)
    requires Good(s, multiset{}) && q.slot in s.free && q.message.handle !in s.fates
    requires forall r :: x[r] == If(q == r)
    ensures Good(Create(s, q), x)
    ensures NothingOwed(s) ==> NothingOwed(Create(s, q))
  {
    hide Owners, Owed, Accounted, NothingOwed;
    var s' := Create(s, q);
    SameOwners(s, s');
    assert q !in s.counts;
    CreateConserves(s, q);
    CreateAccounts(s, q);
    hide Conserved;
    forall r ensures BalancedAt(s', x, r) {
      assert BalancedAt(s, multiset{}, r);
    }
  }

  lemma {:induction false} FreeConserves(s: State, q: Ref, s': State)
    requires Conserved(s) && q in s.counts
    requires s'.counts == s.counts - {q} && s'.free == s.free + {q.slot}
    ensures Conserved(s')
  {
    OneFewer(s.counts, q);
  }

  lemma OneFewer(counts: map<Ref, nat>, q: Ref)
    requires q in counts
    ensures |counts - {q}| == |counts| - 1
  {
    var fewer := counts - {q};
    assert counts.Keys == fewer.Keys + {q};
    assert |counts| == |counts.Keys| && |fewer| == |fewer.Keys|;
  }

  lemma {:induction false} FreeAccounts(s: State, q: Ref, s': State)
    requires Accounted(s) && q in s.counts
    requires s'.counts == s.counts - {q} && s'.fates == FreePacket(s, q.message.handle).fates
    ensures Accounted(s')
  {
    assert InUse(s, q);
    forall r | r in s'.counts ensures InUse(s', r) {
      assert InUse(s, r);
    }
    forall h | h in s'.fates ensures FreedOnce(s', h) || StillHeld(s', h) {
      if h != q.message.handle { assert FreedOnce(s, h) || StillHeld(s, h); }
    }
  }

  lemma {:induction false} AccountedAlike(s: State, s': State)
    requires Accounted(s) && s'.counts.Keys == s.counts.Keys && s'.fates == s.fates
    ensures Accounted(s')
  {
    forall r | r in s'.counts ensures InUse(s', r) {
      assert InUse(s, r);
    }
    forall h | h in s'.fates ensures FreedOnce(s', h) || StillHeld(s', h) {
      assert FreedOnce(s, h) || StillHeld(s, h);
    }
  }

  lemma {:induction false} ConservedAlike(s: State, s': State)
    requires Conserved(s) && s'.counts.Keys == s.counts.Keys && s'.free == s.free
    ensures Conserved(s')
  {
    assert |s'.counts| == |s'.counts.Keys| == |s.counts|;
  }

  /**
   Releasing. The reference is freed exactly when nothing else is counted, and that is wrong exactly
   when something was posted and not yet retained.
   */
  lemma {:induction false} ReleaseKeeps(s: State, q: Ref, x: multiset<Ref>)
    requires Good(s, x)
    requires forall r :: x[r] == If(q == r)
    ensures q in s.counts
    ensures Release(s, q).broken <==> s.counts[q] == 1 && Owed(s, q) > 0
    ensures !Release(s, q).broken ==> Good(Release(s, q), multiset{})
    ensures NothingOwed(s) ==> NothingOwed(Release(s, q))
  {
    hide Owners, Owed, Accounted, Conserved, NothingOwed;
    assert BalancedAt(s, x, q);
    var s' := Release(s, q);
    SameOwners(s, s');
    if s.counts[q] > 1 {
      assert s'.counts.Keys == s.counts.Keys;
      AccountedAlike(s, s');
      ConservedAlike(s, s');
      forall r ensures BalancedAt(s', multiset{}, r) { assert BalancedAt(s, x, r); }
    } else if Owed(s, q) == 0 {
      FreeConserves(s, q, s');
      FreeAccounts(s, q, s');
      forall r ensures BalancedAt(s', multiset{}, r) { assert BalancedAt(s, x, r); }
    }
  }

  // ----- steps -----

  /** What an owner counts for: its references, without the one it has yet to retain. */
  function Net(f: Frame): multiset<Ref> {
    match f
    case Holding(r) => multiset{r}
    case Sending(r, _, _, phase, _) =>
      (if phase.Posted? then multiset{} else multiset{r}) + (if Held(phase) then multiset{r} else multiset{})
      + (if phase.Dropping? then multiset{phase.oldest} else multiset{})
  }

  lemma NetIs(f: Frame, r: Ref)
    ensures Net(f)[r] + Due(f, r) == Own(f, r)
  {}

  /** Good, and in the safe orders nothing is ever owed. */
  ghost predicate Inv(order: Order, s: State) {
    Good(s, multiset{}) && (order != PostThenRetain ==> NothingOwed(s))
  }

  ghost predicate Mid(order: Order, s: State, x: multiset<Ref>) {
    Good(s, x) && (order != PostThenRetain ==> NothingOwed(s))
  }

  lemma {:induction false} OwnedIsLive(s: State, x: multiset<Ref>, r: Ref)
    requires Good(s, x) && (Owners(s, r) > 0 || x[r] > 0)
    ensures r in s.counts
  {
    hide Owners, Owed;
    assert BalancedAt(s, x, r);
  }

  lemma {:induction false} TopIsLive(s: State, t: nat, x: multiset<Ref>)
    requires Good(s, x) && Top(s, t).Some?
    ensures forall r :: Own(Top(s, t).value, r) > 0 ==> r in s.counts
  {
    hide Owners, Owed, Good, Own;
    forall r | Own(Top(s, t).value, r) > 0 ensures r in s.counts {
      PopOwners(s, t, r);
      OwnedIsLive(s, x, r);
    }
  }

  /** Taking the top frame off. */
  lemma {:induction false} PopMid(order: Order, s: State, t: nat)
    requires Inv(order, s) && Top(s, t).Some?
    ensures Mid(order, Pop(s, t), Net(Top(s, t).value))
    ensures forall r :: Own(Top(s, t).value, r) > 0 ==> r in s.counts
  {
    hide Own, Due, Net, Good, NothingOwed;
    var f := Top(s, t).value;
    forall r ensures Net(f)[r] + Due(f, r) == Own(f, r) { NetIs(f, r); }
    TopIsLive(s, t, multiset{});
    PopKeeps(s, t, multiset{}, Net(f));
  }

  lemma {:induction false} PushMid(order: Order, s: State, t: nat, f: Frame, x: multiset<Ref>)
    requires Mid(order, s, x) && t < |s.threads| && x == Net(f)
    requires f.Sending? && f.phase.Posted? ==> f.ref in s.counts && order == PostThenRetain
    ensures Inv(order, Push(s, t, f))
  {
    hide Own, Net, Good, NothingOwed;
    forall r ensures Net(f)[r] + Due(f, r) == Own(f, r) && (Own(f, r) > 0 ==> r in s.counts) {
      NetIs(f, r);
      if Net(f)[r] > 0 { OwnedIsLive(s, x, r); }
    }
    PushKeeps(s, t, f, x, multiset{});
  }
}
