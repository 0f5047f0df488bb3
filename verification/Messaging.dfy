/**
 The messaging system as an object, one call at a time. Its state is the state of module Bus with a
 single thread, and every call is a run of that machine in the code's own order, so what holds in every
 such run holds here.
 */
module Messaging {
  import opened Telemetry
  import B = Bus
  import opened BusSafety
  import opened BusSteps
  import BusRuns
  import BusThreads
  import BusFilters

  datatype SendCode = SendOk | InternalPoolFull | ConsumerBufferFull
  datatype ReceiveCode = ReceiveOk | BufferEmpty | CallbackError

  /** The steps of a call that no other thread interrupts: a post and its retain are then as good as one step. */
  const ALONE := B.PostRetain

  /** The code's own order. */
  const CODE := B.PostThenRetain

  /** `n` steps of the only thread. */
  ghost function Steps(s: B.State, n: nat): B.State {
    if n == 0 then s else B.Apply(ALONE, Steps(s, n - 1), B.Advance(0))
  }

  /** A run of the machine in the code's own order leads from `s` to `s'`. */
  ghost predicate IsRun(s: B.State, s': B.State) {
    exists events :: B.After(CODE, s, events) == s'
  }

  lemma RunOfNothing(s: B.State)
    ensures IsRun(s, s)
  {
    hide B.Apply;
    assert B.After(CODE, s, []) == s;
  }

  lemma RunOfEvent(s: B.State, e: B.Event)
    ensures IsRun(s, B.Apply(ALONE, s, e))
  {
    hide B.Apply;
    BusRuns.AfterOne(ALONE, s, e);
    var events := BusThreads.FusedRunIsCodeRun(s, [e]);
  }

  lemma RunTrans(s: B.State, s': B.State, s'': B.State)
    requires IsRun(s, s') && IsRun(s', s'')
    ensures IsRun(s, s'')
  {
    hide B.After;
    var u :| B.After(CODE, s, u) == s';
    var v :| B.After(CODE, s', v) == s'';
    BusRuns.AfterConcat(CODE, s, u, v);
  }

  lemma {:induction false} RunOfSteps(s: B.State, n: nat)
    ensures IsRun(s, Steps(s, n))
  {
    hide B.Apply, IsRun;
    if n == 0 {
      RunOfNothing(s);
    } else {
      RunOfSteps(s, n - 1);
      RunOfEvent(Steps(s, n - 1), B.Advance(0));
      RunTrans(s, Steps(s, n - 1), Steps(s, n));
    }
  }

  /** A call of the bus; what a receive hands its packet to may call the bus again. */
  datatype Call =
    | CallSend(message: B.Message)
    | CallReceive(consumer: nat, silent: bool, accepts: bool, callback: seq<Call>)
    | CallPause(consumer: nat, flush: bool)

  /** A consumer after a packet was enqueued for it: the oldest entry goes if there is no room. */
  function Enqueued(c: B.Consumer, r: B.Ref): B.Consumer {
    var c' := if |c.mailbox| < c.capacity || c.mailbox == [] then c
              else c.(mailbox := c.mailbox[1..], taken := c.taken + [B.Taken(c.mailbox[0].message, true)]);
    if |c'.mailbox| < c.capacity then c'.(mailbox := c'.mailbox + [r], offered := c'.offered + [r.message]) else c'
  }

  predicate Accepts(c: B.Consumer, m: B.Message) { !c.paused && B.Wants(c.filter, m) }

  /** What a send does to each consumer. */
  function Offered(c: B.Consumer, r: B.Ref): B.Consumer {
    if Accepts(c, r.message) then Enqueued(c, r) else c
  }

  /** The last `n` entries, or all if there are no more. */
  function Newest(box: seq<B.Ref>, n: nat): (r: seq<B.Ref>)
    ensures |r| == if |box| <= n then |box| else n
  {
    if |box| <= n then box else box[|box| - n..]
  }

  /**
   What a send of `r` makes of a consumer. If it is not paused and the bits of the packet are those its filter asks for, its
   mailbox holds the newest entries, `r` the last of them, and one that went for `r` was taken out silently;
   otherwise nothing changes.
   */
  ghost predicate Took(before: B.Consumer, now: B.Consumer, r: B.Ref) {
    if before.paused || !BusFilters.Selects(before.filter, r.message) then now == before
    else
      && now.filter == before.filter && now.capacity == before.capacity && !now.paused
      && now.mailbox == Newest(before.mailbox + [r], before.capacity)
      && now.taken == before.taken + Dropped(before.mailbox[..if 0 < before.capacity <= |before.mailbox| then 1 else 0])
  }

  lemma {:induction false} OfferedTook(c: B.Consumer, r: B.Ref)
    requires |c.mailbox| <= c.capacity
    ensures Took(c, Offered(c, r), r)
  {
    hide BusFilters.Selects, B.Wants;
    BusFilters.WantsIffBits(c.filter, r.message);
    EnqueueSlidesTheWindow(c, r);
    if |c.mailbox| < c.capacity || c.mailbox == [] {
      assert c.taken + Dropped([]) == c.taken;
    } else {
      assert Dropped(c.mailbox[..1]) == [B.Taken(c.mailbox[0].message, true)];
    }
  }

  class System {
    var free: set<nat>
    var counts: map<B.Ref, nat>
    var consumers: seq<B.Consumer>
    var fates: map<nat, B.Fate>
    var bufferFull: nat
    /** The calls in progress. */
    ghost var stack: seq<B.Frame>

    ghost function State(): B.State
      reads this
    {
      B.State(free, counts, consumers, [stack], fates, false, bufferFull)
    }

    ghost predicate Valid()
      reads this
    {
      Inv(ALONE, State()) && forall c :: 0 <= c < |consumers| ==> |consumers[c].mailbox| <= consumers[c].capacity
    }

    /** A call may start: from outside the bus or from within a callback. */
    ghost predicate Ready()
      reads this
    {
      stack == [] || stack[|stack| - 1].Holding?
    }

    /** `messaging_start`, with the slots of the pool. */
    constructor (pool: set<nat>)
      requires |pool| == B.MAX_NUM_TELEMETRY_REFS
      ensures Valid() && State() == B.Init(pool, 1)
    {
      free, counts, consumers, fates, bufferFull := pool, map[], [], map[], 0;
      stack := [];
      new;
      BusRuns.InitIsGood(ALONE, pool, 1);
      assert State().threads == B.Init(pool, 1).threads;
    }

    /** `messaging_consumer_init`, for a consumer that was not registered before. */
    method RegisterConsumer(filter: B.Filter, capacity: nat) returns (ok: bool)
      requires Valid()
      modifies this`consumers
      ensures Valid() && State() == B.Apply(ALONE, old(State()), B.Register(filter, capacity))
      ensures ok <==> |old(consumers)| < B.MAX_NUM_CONSUMERS
      ensures consumers == if ok then old(consumers) + [B.Consumer(filter, capacity, [], false, [], [])] else old(consumers)
    {
      hide Good, NothingOwed;
      RegisterStep(ALONE, State(), filter, capacity);
      if |consumers| >= B.MAX_NUM_CONSUMERS {
        return false;
      }
      consumers := consumers + [B.Consumer(filter, capacity, [], false, [], [])];
      ok := true;
    }

    /** `telemetry_reference_retain` */
    method Retain(r: B.Ref)
      requires r in counts
      modifies this`counts
      ensures State() == B.Retain(old(State()), r)
    {
      counts := counts[r := counts[r] + 1];
    }

    /** `telemetry_reference_release`: the packet and the slot go with the last reference. */
    method Release(r: B.Ref)
      requires Mid(ALONE, State(), multiset{r})
      modifies this`counts, this`fates, this`free
      ensures State() == B.Release(old(State()), r) && Inv(ALONE, State())
    {
      hide B.Owners, Good, NothingOwed;
      ReleaseMid(ALONE, State(), r);
      LiveBefore(State(), r);
      if counts[r] - 1 == 0 {
        fates := B.MarkFreed(fates, r.message.handle);
        counts := counts - {r};
        free := free + {r.slot};
      } else {
        counts := counts[r := counts[r] - 1];
      }
    }

    lemma LiveBefore(s: B.State, r: B.Ref)
      requires Mid(ALONE, s, multiset{r})
      ensures r in s.counts && s.counts[r] >= 1
    {
      hide B.Owners, B.Owed;
      assert BalancedAt(s, multiset{r}, r);
    }

    /** `chMBPost` with TIME_IMMEDIATE */
    method Post(c: nat, r: B.Ref) returns (ok: bool)
      requires c < |consumers|
      modifies this`consumers
      ensures ok <==> old(B.HasRoom(State(), c))
      ensures State() == if ok then B.Deposit(old(State()), c, r) else old(State())
    {
      var to := consumers[c];
      ok := |to.mailbox| < to.capacity;
      if ok {
        consumers := consumers[c := to.(mailbox := to.mailbox + [r], offered := to.offered + [r.message])];
      }
    }

    /** `chMBFetch` with TIME_IMMEDIATE */
    method FetchOldest(c: nat, silent: bool) returns (r: Option<B.Ref>)
      requires c < |consumers|
      modifies this`consumers
      ensures r == if old(consumers[c]).mailbox == [] then None else Some(old(consumers[c]).mailbox[0])
      ensures State() == if r == None then old(State()) else B.TakeOldest(old(State()), c, silent)
    {
      var from := consumers[c];
      if from.mailbox == [] {
        return None;
      }
      r := Some(from.mailbox[0]);
      consumers := consumers[c := from.(mailbox := from.mailbox[1..], taken := from.taken + [B.Taken(from.mailbox[0].message, silent)])];
    }

    /** `messaging_consumer_receive` up to the callback: the oldest entry is fetched. */
    method BeginReceive(c: nat, silent: bool) returns (r: Option<B.Ref>)
      requires Valid() && c < |consumers| && Ready()
      modifies this`consumers, this`stack
      ensures Valid() && State() == B.Apply(ALONE, old(State()), B.Fetch(0, c, silent))
      ensures r == if old(consumers[c]).mailbox == [] then None else Some(old(consumers[c]).mailbox[0])
      ensures stack == old(stack) + if r == None then [] else [B.Holding(r.value)]
      ensures r.Some? ==>
        consumers == old(consumers)[c := old(consumers[c]).(mailbox := old(consumers[c]).mailbox[1..],
                                                           taken := old(consumers[c]).taken + [B.Taken(r.value.message, silent)])]
    {
      hide B.Release, B.Owners, B.Owed, Good, NothingOwed;
      ghost var s := State();
      r := FetchOldest(c, silent);
      if r == None {
        return;
      }
      TakeMid(ALONE, s, c, silent, multiset{});
      ghost var taken := State();
      assert multiset{} + multiset{r.value} == multiset{r.value} == Net(B.Holding(r.value));
      PushMid(ALONE, taken, 0, B.Holding(r.value), multiset{r.value});
      stack := stack + [B.Holding(r.value)];
      assert State().threads == B.Push(taken, 0, B.Holding(r.value)).threads;
      NotBroken(ALONE, s);
    }

    /** `messaging_consumer_receive` after the callback: the reference is released. */
    method EndReceive(ref: B.Ref)
      requires Valid() && stack != [] && stack[|stack| - 1] == B.Holding(ref)
      modifies this`counts, this`fates, this`free, this`stack
      ensures Valid() && State() == B.Apply(ALONE, old(State()), B.Advance(0))
      ensures stack == old(stack)[..|old(stack)| - 1]
    {
      hide B.Release, B.Owners, B.Owed, Good, NothingOwed;
      ghost var s := State();
      PopMid(ALONE, s, 0);
      NotBroken(ALONE, s);
      stack := stack[..|stack| - 1];
      assert State().threads == B.Pop(s, 0).threads;
      assert State() == B.Pop(s, 0);
      Release(ref);
      ReleaseKeepsConsumers(B.Pop(s, 0), ref);
    }

    /** A silent receive, not blocking, with the other consumers left as they are. */
    method ReceiveSilently(c: nat) returns (code: ReceiveCode)
      requires Valid() && c < |consumers| && Ready()
      modifies this
      ensures Valid() && stack == old(stack) && IsRun(old(State()), State())
      ensures
        var before := old(consumers[c]);
        if before.mailbox == [] then code == BufferEmpty && consumers == old(consumers)
        else code == ReceiveOk && consumers == old(consumers)[c :=
          before.(mailbox := before.mailbox[1..], taken := before.taken + [B.Taken(before.mailbox[0].message, true)])]
    {
      hide Inv, B.Apply;
      ghost var s := State();
      RunOfEvent(s, B.Fetch(0, c, true));
      var r := BeginReceive(c, true);
      if r == None {
        NothingToFetch(s, c, true);
        return BufferEmpty;
      }
      ghost var fetched := State();
      EndReceive(r.value);
      RunOfEvent(fetched, B.Advance(0));
      RunTrans(s, fetched, State());
      code := ReceiveOk;
    }

    lemma NothingToFetch(s: B.State, c: nat, silent: bool)
      requires c < |s.consumers| && s.consumers[c].mailbox == []
      ensures B.Apply(ALONE, s, B.Fetch(0, c, silent)) == s
    {}

    /**
     `messaging_consumer_receive`, not blocking. The callback gets `received`, makes the calls `callback`, and returns
     `accepts`; `during` is the state in which it returns.
     */
    method Receive(c: nat, silent: bool, accepts: bool, callback: seq<Call>)
      returns (code: ReceiveCode, received: Option<B.Message>, ghost during: B.State)
      requires Valid() && c < |consumers| && Ready()
      modifies this
      decreases callback, 1
      ensures Valid() && stack == old(stack) && IsRun(old(State()), State()) && |consumers| == |old(consumers)|
      ensures
        var before := old(consumers[c]);
        var fetched := B.Apply(ALONE, old(State()), B.Fetch(0, c, silent));
        if before.mailbox == [] then code == BufferEmpty && received == None && State() == old(State())
        else
          && (code == if silent || accepts then ReceiveOk else CallbackError)
          && (received == if silent then None else Some(before.mailbox[0].message))
          && IsRun(fetched, during) && (silent || callback == [] ==> during == fetched)
          && State() == B.Apply(ALONE, during, B.Advance(0))
    {
      hide Inv, B.Apply;
      ghost var s := State();
      RunOfEvent(s, B.Fetch(0, c, silent));
      received := None;
      var r := BeginReceive(c, silent);
      during := State();
      if r == None {
        NothingToFetch(s, c, silent);
        return BufferEmpty, None, during;
      }
      ghost var fetched := State();
      RunOfNothing(fetched);
      code := ReceiveOk;
      if !silent {
        received := Some(r.value.message);
        if |callback| > 0 {
          Perform(callback);
          during := State();
        }
        if !accepts {
          code := CallbackError;
        }
      }
      RunOfEvent(during, B.Advance(0));
      RunTrans(s, fetched, during);
      EndReceive(r.value);
      RunTrans(s, during, State());
    }

    /** Calls made one after the other, each of which may receive with a callback that makes further calls. */
    method Perform(calls: seq<Call>)
      requires Valid() && Ready()
      modifies this
      decreases calls, 0
      ensures Valid() && stack == old(stack) && IsRun(old(State()), State()) && |consumers| == |old(consumers)|
    {
      hide Inv, B.Apply;
      ghost var s := State();
      RunOfNothing(s);
      if |calls| == 0 {
        return;
      }
      match calls[0] {
        case CallSend(m) => {
          // A packet is the caller's to send until it is sent.
          if m.handle !in fates {
            var code;
            ghost var slot, n;
            code, slot, n := Send(m);
          }
        }
        case CallReceive(c, silent, accepts, callback) => {
          if c < |consumers| {
            var code, received;
            ghost var during;
            code, received, during := Receive(c, silent, accepts, callback);
          }
        }
        case CallPause(c, flush) => {
          if c < |consumers| {
            PauseConsumer(c, flush);
          }
        }
      }
      ghost var middle := State();
      Perform(calls[1..]);
      RunTrans(s, middle, State());
    }

    lemma ReleaseKeepsConsumers(s: B.State, r: B.Ref)
      ensures var s' := B.Release(s, r); s'.consumers == s.consumers && s'.threads == s.threads && s'.bufferFull == s.bufferFull
    {}

    /** The sender's frame on top of the stack becomes `f`. */
    ghost method SetTop(f: B.Frame)
      requires stack != []
      modifies this`stack
      ensures stack == old(stack)[..|old(stack)| - 1] + [f]
    {
      stack := stack[..|stack| - 1] + [f];
    }

    /** A sender with consumer `c` before it, in phase `phase`. */
    ghost predicate Sending(f: B.Frame, c: nat, phase: B.Phase)
      reads this
    {
      && stack != [] && stack[|stack| - 1] == f && f.Sending? && f.phase == phase
      && f.next == c < f.last <= |consumers|
    }

    /** The silent receive inside `messaging_consumer_enqueue_packet`. */
    method DropOldest(c: nat, ghost f: B.Frame) returns (ghost n: nat)
      requires Valid() && Sending(f, c, B.Full(false))
      modifies this
      ensures Valid() && State() == Steps(old(State()), n)
      ensures stack == old(stack)[..|old(stack)| - 1] + [f.(phase := B.Retrying(false))]
      ensures
        var before := old(consumers[c]);
        consumers == old(consumers)[c := if before.mailbox == [] then before else
          before.(mailbox := before.mailbox[1..], taken := before.taken + [B.Taken(before.mailbox[0].message, true)])]
    {
      hide B.Release, B.Owners, B.Owed, Good, NothingOwed, B.Wants;
      ghost var s := State();
      StepKeeps(ALONE, s, B.Advance(0));
      OneStep(s);
      var oldest := FetchOldest(c, true);
      if oldest == None {
        SetTop(f.(phase := B.Retrying(false)));
        assert State() == B.Apply(ALONE, s, B.Advance(0));
        n := 1;
        return;
      }
      ghost var g := f.(phase := B.Dropping(false, oldest.value));
      SetTop(g);
      assert State() == B.Apply(ALONE, s, B.Advance(0));
      TwoSteps(s);
      ReleaseDropped(c, oldest.value, g);
      n := 2;
    }

    method ReleaseDropped(c: nat, oldest: B.Ref, ghost g: B.Frame)
      requires Valid() && Sending(g, c, B.Dropping(false, oldest))
      modifies this
      ensures Valid() && State() == B.Apply(ALONE, old(State()), B.Advance(0))
      ensures consumers == old(consumers) && stack == old(stack)[..|old(stack)| - 1] + [g.(phase := B.Retrying(false))]
    {
      hide B.Release, B.Owners, B.Owed, Good, NothingOwed, B.Wants;
      ghost var s, f := State(), g.(phase := B.Retrying(false));
      StepKeeps(ALONE, s, B.Advance(0));
      ReplaceDropping(ALONE, s, 0, f, oldest);
      SetTop(f);
      assert State() == B.Replace(s, 0, f);
      Release(oldest);
      ReleaseKeepsConsumers(B.Replace(s, 0, f), oldest);
    }

    /** A post, and the retain that follows it. */
    method TryPost(c: nat, ref: B.Ref, ghost f: B.Frame) returns (ok: bool)
      requires Valid() && ref == f.ref && (Sending(f, c, B.Posting(false)) || Sending(f, c, B.Retrying(false)))
      modifies this
      ensures Valid() && (ok <==> old(B.HasRoom(State(), c)))
      ensures !ok ==> State() == old(State())
      ensures ok ==>
        && State() == B.Apply(ALONE, old(State()), B.Advance(0))
        && stack == old(stack)[..|old(stack)| - 1] + [B.NextConsumer(f, true)]
        && consumers == old(consumers)[c := old(consumers[c]).(mailbox := old(consumers[c]).mailbox + [ref],
                                                               offered := old(consumers[c]).offered + [ref.message])]
    {
      hide B.Owners, B.Owed, Good, NothingOwed, B.Wants;
      ghost var s := State();
      ok := Post(c, ref);
      if ok {
        StepKeeps(ALONE, s, B.Advance(0));
        TopRefIsLive(s, f);
        Retain(ref);
        SetTop(B.NextConsumer(f, true));
        assert State() == B.Post(ALONE, s, 0, f);
      }
    }

    lemma TopRefIsLive(s: B.State, f: B.Frame)
      requires Inv(ALONE, s) && B.Top(s, 0) == Some(f) && f.Sending?
      ensures f.ref in s.counts
    {
      hide Good, NothingOwed;
      TopIsLive(s, 0, multiset{});
      assert B.Own(f, f.ref) > 0;
    }

    /** `messaging_consumer_enqueue_packet` */
    method EnqueuePacket(c: nat, ref: B.Ref, ghost f: B.Frame) returns (ok: bool, ghost n: nat)
      requires Valid() && ref == f.ref && Sending(f, c, B.Posting(false))
      modifies this
      ensures Valid() && State() == Steps(old(State()), n)
      ensures ok <==> old(consumers[c]).capacity >= 1
      ensures consumers == old(consumers)[c := Enqueued(old(consumers[c]), ref)]
      ensures stack == old(stack)[..|old(stack)| - 1] + [B.NextConsumer(f, ok)]
    {
      hide B.Apply, Inv, Steps, B.Wants;
      ghost var s := State();
      ok := TryPost(c, ref, f);
      if ok {
        OneStep(s);
        n := 1;
        return;
      }
      ghost var full := f.(phase := B.Full(false));
      FindsFull(s, f);
      SetTop(full);
      assert State() == B.Replace(s, 0, full);
      OneStep(s);
      ghost var k := DropOldest(c, full);
      AddSteps(s, 1, k);
      ghost var retrying, dropped := f.(phase := B.Retrying(false)), State();
      ok := TryPost(c, ref, retrying);
      if !ok {
        FindsNoRoom(dropped, retrying);
        SetTop(B.NextConsumer(f, false));
        assert State() == B.Replace(dropped, 0, B.NextConsumer(f, false));
      }
      OneStep(dropped);
      AddSteps(s, 1 + k, 1);
      n := 1 + k + 1;
    }

    /** The check of one consumer and, if it accepts, the enqueue: the body of the loop of `messaging_send`. */
    method OfferTo(c: nat, ref: B.Ref, ghost f: B.Frame) returns (ok: bool, ghost n: nat)
      requires Valid() && ref == f.ref && Sending(f, c, B.Checking)
      modifies this
      ensures Valid() && State() == Steps(old(State()), n)
      ensures ok <==> (Accepts(old(consumers[c]), ref.message) ==> old(consumers[c]).capacity >= 1)
      ensures consumers == old(consumers)[c := Offered(old(consumers[c]), ref)]
      ensures stack == old(stack)[..|old(stack)| - 1] + [B.NextConsumer(f, ok)]
    {
      hide B.Apply, Inv, Steps, B.Wants, Enqueued;
      ghost var s := State();
      Checks(s, f);
      OneStep(s);
      if !consumers[c].paused && B.Wants(consumers[c].filter, ref.message) {
        ghost var posting := f.(phase := B.Posting(false));
        SetTop(posting);
        assert State() == B.Replace(s, 0, posting);
        ghost var k;
        ok, k := EnqueuePacket(c, ref, posting);
        AddSteps(s, 1, k);
        n := 1 + k;
      } else {
        SetTop(B.NextConsumer(f, true));
        assert State() == B.Replace(s, 0, B.NextConsumer(f, true));
        ok, n := true, 1;
      }
    }

    lemma Checks(s: B.State, f: B.Frame)
      requires Inv(ALONE, s) && B.Top(s, 0) == Some(f) && f.Sending? && f.phase == B.Checking
      requires f.next < f.last <= |s.consumers|
      ensures
        var g := if Accepts(s.consumers[f.next], f.ref.message) then f.(phase := B.Posting(false)) else B.NextConsumer(f, true);
        B.Apply(ALONE, s, B.Advance(0)) == B.Replace(s, 0, g) && Inv(ALONE, B.Replace(s, 0, g))
    {
      hide Good, NothingOwed, B.Wants, B.Owed, B.Owners;
      StepKeeps(ALONE, s, B.Advance(0));
    }

    /** The loop of `messaging_send`. */
    method OfferToAll(ref: B.Ref, ghost rest: seq<B.Frame>) returns (ok: bool, ghost n: nat)
      requires Valid() && stack == rest + [B.Sending(ref, 0, |consumers|, B.Checking, true)]
      modifies this
      ensures Valid() && State() == Steps(old(State()), n) && |consumers| == |old(consumers)|
      ensures stack == rest + [B.Sending(ref, |consumers|, |consumers|, B.Checking, ok)]
      ensures forall i :: 0 <= i < |consumers| ==> consumers[i] == Offered(old(consumers)[i], ref)
      ensures ok <==> forall i :: 0 <= i < |consumers| && Accepts(old(consumers)[i], ref.message) ==> old(consumers)[i].capacity >= 1
    {
      hide Inv, Steps, Accepts, Enqueued;
      ghost var begun := State();
      NoSteps(begun);
      var numConsumers := |consumers|;
      ok, n := true, 0;
      var i := 0;
      while i < numConsumers
        invariant 0 <= i <= numConsumers == |consumers| == |old(consumers)|
        invariant Valid() && State() == Steps(begun, n)
        invariant stack == rest + [B.Sending(ref, i, numConsumers, B.Checking, ok)]
        invariant forall j :: 0 <= j < i ==> consumers[j] == Offered(old(consumers)[j], ref)
        invariant forall j :: i <= j < |consumers| ==> consumers[j] == old(consumers)[j]
        invariant ok <==> forall j :: 0 <= j < i && Accepts(old(consumers)[j], ref.message) ==> old(consumers)[j].capacity >= 1
      {
        ghost var k;
        var taken;
        taken, k := OfferTo(i, ref, B.Sending(ref, i, numConsumers, B.Checking, ok));
        AddSteps(begun, n, k);
        n := n + k;
        ok := ok && taken;
        i := i + 1;
      }
    }

    /** The end of `messaging_send`: the sender's own reference goes. */
    method Finish(ref: B.Ref, ok: bool, ghost rest: seq<B.Frame>) returns (code: SendCode)
      requires Valid() && stack == rest + [B.Sending(ref, |consumers|, |consumers|, B.Checking, ok)]
      modifies this
      ensures Valid() && stack == rest && consumers == old(consumers)
      ensures State() == B.Apply(ALONE, old(State()), B.Advance(0))
      ensures code == if ok then SendOk else ConsumerBufferFull
    {
      hide Inv, Mid, B.Release, B.Apply;
      ghost var s := State();
      Finishes(s, stack[|stack| - 1]);
      stack := stack[..|stack| - 1];
      assert State().threads == B.Pop(s, 0).threads;
      assert State() == B.Pop(s, 0);
      Release(ref);
      if ok {
        code := SendOk;
      } else {
        bufferFull := bufferFull + 1;
        code := ConsumerBufferFull;
      }
    }

    /**
     `messaging_send`. Every consumer that is not paused and whose filter matches has the packet enqueued,
     the others are left alone; the send is reported to have found a full buffer only if some consumer has no
     mailbox at all; and with the pool exhausted the packet is freed.
     */
    method Send(m: B.Message) returns (code: SendCode, ghost slot: nat, ghost n: nat)
      requires Valid() && Ready() && m.handle !in fates
      modifies this
      ensures Valid() && stack == old(stack) && IsRun(old(State()), State()) && |consumers| == |old(consumers)|
      ensures code == InternalPoolFull <==> old(free) == {}
      ensures code == InternalPoolFull ==> State() == B.FreePacket(old(State()), m.handle)
      ensures code != InternalPoolFull ==>
        && slot in old(free)
        && State() == Steps(B.Apply(ALONE, old(State()), B.BeginSend(0, slot, m)), n)
        && |consumers| == |old(consumers)|
        && (forall i :: 0 <= i < |consumers| ==> consumers[i] == Offered(old(consumers)[i], B.Ref(slot, m)))
        && (forall i :: 0 <= i < |consumers| ==> Took(old(consumers)[i], consumers[i], B.Ref(slot, m)))
        && (code == SendOk <==> forall i :: 0 <= i < |consumers| && Accepts(old(consumers)[i], m) ==> old(consumers)[i].capacity >= 1)
    {
      hide Inv, Steps, Accepts, Enqueued, B.Apply;
      ghost var s := State();
      slot, n := 0, 0;
      if free == {} {
        ExhaustedIsGood(s, m);
        fates := B.MarkFreed(fates, m.handle);
        RunOfEvent(s, B.BeginSend(0, 0, m));
        return InternalPoolFull, slot, n;
      }
      var cell :| cell in free;
      slot := cell;
      var ref := B.Ref(cell, m);
      free, counts, fates := free - {cell}, counts[ref := 1], fates[m.handle := B.Fate(Some(ref), 0)];
      stack := stack + [B.Sending(ref, 0, |consumers|, B.Checking, true)];
      ghost var begun := State();
      Begins(s, cell, m, begun);
      var ok;
      ok, n := OfferToAll(ref, old(stack));
      OneMoreStep(begun, n);
      code := Finish(ref, ok, old(stack));
      n := n + 1;
      RunOfEvent(s, B.BeginSend(0, cell, m));
      RunOfSteps(begun, n);
      RunTrans(s, begun, State());
      hide Took, Offered;
      forall i | 0 <= i < |consumers| ensures Took(old(consumers)[i], consumers[i], ref) {
        OfferedTook(old(consumers)[i], ref);
      }
    }

    lemma NoSteps(s: B.State)
      ensures Steps(s, 0) == s
    {}

    lemma OneMoreStep(s: B.State, n: nat)
      ensures Steps(s, n + 1) == B.Apply(ALONE, Steps(s, n), B.Advance(0))
    {
      hide B.Apply;
    }

    lemma ExhaustedIsGood(s: B.State, m: B.Message)
      requires Inv(ALONE, s) && m.handle !in s.fates
      ensures Inv(ALONE, B.FreePacket(s, m.handle))
      ensures s.free == {} && B.Ready(s, 0) ==> B.Apply(ALONE, s, B.BeginSend(0, 0, m)) == B.FreePacket(s, m.handle)
    {
      hide Good, NothingOwed;
      ExhaustedStep(ALONE, s, m.handle);
      NotBroken(ALONE, s);
    }

    lemma Begins(s: B.State, slot: nat, m: B.Message, begun: B.State)
      requires Inv(ALONE, s) && B.Ready(s, 0) && slot in s.free && m.handle !in s.fates
      requires var r := B.Ref(slot, m);
        begun == B.Push(B.Create(s, r), 0, B.Sending(r, 0, |s.consumers|, B.Checking, true))
      ensures begun == B.Apply(ALONE, s, B.BeginSend(0, slot, m)) && Inv(ALONE, begun)
    {
      hide Balanced, Conserved, Accounted, NothingOwed;
      StepKeeps(ALONE, s, B.BeginSend(0, slot, m));
    }

    lemma Finishes(s: B.State, f: B.Frame)
      requires Inv(ALONE, s) && B.Top(s, 0) == Some(f) && f.Sending? && f.phase == B.Checking && f.next >= f.last
      ensures
        var left := B.Release(B.Pop(s, 0), f.ref);
        && Mid(ALONE, B.Pop(s, 0), multiset{f.ref})
        && B.Apply(ALONE, s, B.Advance(0)) == left.(bufferFull := if f.ok then s.bufferFull else s.bufferFull + 1)
        && Inv(ALONE, B.Apply(ALONE, s, B.Advance(0)))
        && left.threads == B.Pop(s, 0).threads && left.consumers == s.consumers && left.bufferFull == s.bufferFull
    {
      hide Good, NothingOwed, B.Owed, B.Owners, B.Release;
      PopMid(ALONE, s, 0);
      assert Net(f) == multiset{f.ref};
      ReleaseKeepsConsumers(B.Pop(s, 0), f.ref);
      StepKeeps(ALONE, s, B.Advance(0));
      NotBroken(ALONE, s);
    }

    lemma {:induction false} AddSteps(s: B.State, m: nat, n: nat)
      ensures Steps(Steps(s, m), n) == Steps(s, m + n)
    {
      hide B.Apply;
      if n > 0 { AddSteps(s, m, n - 1); }
    }

    lemma FindsFull(s: B.State, f: B.Frame)
      requires Inv(ALONE, s) && B.Top(s, 0) == Some(f) && f.Sending? && f.phase == B.Posting(false)
      requires f.next < f.last <= |s.consumers| && !B.HasRoom(s, f.next)
      ensures B.Apply(ALONE, s, B.Advance(0)) == B.Replace(s, 0, f.(phase := B.Full(false)))
      ensures Inv(ALONE, B.Replace(s, 0, f.(phase := B.Full(false))))
    {
      hide Good, NothingOwed, B.Wants, B.Owed, B.Owners;
      StepKeeps(ALONE, s, B.Advance(0));
    }

    lemma FindsNoRoom(s: B.State, f: B.Frame)
      requires Inv(ALONE, s) && B.Top(s, 0) == Some(f) && f.Sending? && f.phase == B.Retrying(false)
      requires f.next < f.last <= |s.consumers| && !B.HasRoom(s, f.next)
      ensures B.Apply(ALONE, s, B.Advance(0)) == B.Replace(s, 0, B.NextConsumer(f, false))
      ensures Inv(ALONE, B.Replace(s, 0, B.NextConsumer(f, false)))
    {
      hide Good, NothingOwed, B.Wants, B.Owed, B.Owners;
      StepKeeps(ALONE, s, B.Advance(0));
    }

    lemma OneStep(s: B.State)
      ensures Steps(s, 1) == B.Apply(ALONE, s, B.Advance(0))
    {
      hide B.Apply;
      assert Steps(s, 0) == s;
    }

    lemma TwoSteps(s: B.State)
      ensures Steps(s, 2) == B.Apply(ALONE, B.Apply(ALONE, s, B.Advance(0)), B.Advance(0))
    {
      hide B.Apply;
      OneStep(s);
    }

    method SetPaused(c: nat)
      requires Valid() && c < |consumers|
      modifies this`consumers
      ensures Valid() && State() == B.Apply(ALONE, old(State()), B.SetPaused(c, true))
      ensures IsRun(old(State()), State())
      ensures consumers == old(consumers)[c := old(consumers[c]).(paused := true)]
    {
      hide Good, NothingOwed;
      SetPausedStep(ALONE, State(), c, true);
      RunOfEvent(State(), B.SetPaused(c, true));
      consumers := consumers[c := consumers[c].(paused := true)];
    }

    /** `messaging_resume_consumer` */
    method ResumeConsumer(c: nat)
      requires Valid() && c < |consumers|
      modifies this`consumers
      ensures Valid() && State() == B.Apply(ALONE, old(State()), B.SetPaused(c, false))
      ensures IsRun(old(State()), State())
      ensures consumers == old(consumers)[c := old(consumers[c]).(paused := false)]
    {
      hide Good, NothingOwed;
      SetPausedStep(ALONE, State(), c, false);
      RunOfEvent(State(), B.SetPaused(c, false));
      consumers := consumers[c := consumers[c].(paused := false)];
    }

    /** `messaging_pause_consumer`: with a flush, everything queued is dropped, silently and in order. */
    method PauseConsumer(c: nat, flush: bool)
      requires Valid() && c < |consumers| && Ready()
      modifies this
      ensures Valid() && stack == old(stack) && IsRun(old(State()), State())
      ensures
        var before := old(consumers[c]);
        consumers == old(consumers)[c :=
          if flush then before.(paused := true, mailbox := [], taken := before.taken + Dropped(before.mailbox))
          else before.(paused := true)]
    {
      hide Inv, Dropped, B.Apply;
      ghost var s := State();
      SetPaused(c);
      if flush {
        ghost var paused := State();
        Flush(c);
        RunTrans(s, paused, State());
      }
    }

    /** The loop of `messaging_pause_consumer`: it ends because the mailbox gets shorter. */
    method Flush(c: nat)
      requires Valid() && c < |consumers| && Ready() && consumers[c].paused
      modifies this
      ensures Valid() && stack == old(stack) && IsRun(old(State()), State())
      ensures
        var before := old(consumers[c]);
        consumers == old(consumers)[c := before.(mailbox := [], taken := before.taken + Dropped(before.mailbox))]
    {
      hide Inv, Dropped, B.Apply;
      ghost var s, before, others := State(), consumers[c], consumers;
      RunOfNothing(s);
      var code := ReceiveOk;
      while code != BufferEmpty
        invariant Valid() && stack == old(stack) && |consumers| == |others| && IsRun(s, State())
        invariant
          var now := consumers[c];
          && consumers == others[c := now]
          && now == before.(mailbox := now.mailbox, taken := now.taken)
          && now.taken + Dropped(now.mailbox) == before.taken + Dropped(before.mailbox)
          && (code == BufferEmpty ==> now.mailbox == [])
        decreases |consumers[c].mailbox|, code != BufferEmpty
      {
        DropsOne(consumers[c].taken, consumers[c].mailbox);
        ghost var turn := State();
        code := ReceiveSilently(c);
        RunTrans(s, turn, State());
        if code != BufferEmpty {
          ghost var received := State();
          SetPaused(c);
          RunTrans(s, received, State());
        }
      }
      DropsNothing();
      assert consumers[c].taken + [] == consumers[c].taken;
    }
  }

  function Dropped(box: seq<B.Ref>): (taken: seq<B.Taken>)
    ensures |taken| == |box| && forall i :: 0 <= i < |box| ==> taken[i] == B.Taken(box[i].message, true)
  {
    seq(|box|, i requires 0 <= i < |box| => B.Taken(box[i].message, true))
  }

  lemma DropsNothing()
    ensures Dropped([]) == []
  {}

  lemma DropsOne(taken: seq<B.Taken>, box: seq<B.Ref>)
    ensures box != [] ==> taken + Dropped(box) == taken + [B.Taken(box[0].message, true)] + Dropped(box[1..])
  {}

  /** The mailbox after an enqueue holds the newest entries, as many as it has room for: only the oldest is dropped. */
  lemma EnqueueSlidesTheWindow(c: B.Consumer, r: B.Ref)
    requires |c.mailbox| <= c.capacity
    ensures
      var all := c.mailbox + [r];
      Enqueued(c, r).mailbox == if |all| <= c.capacity then all else if c.capacity == 0 then [] else all[1..]
  {}
}
