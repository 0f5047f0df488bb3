/** Whole runs of the bus: safety in the orders that retain in time, and what the code's order can do. */
module BusRuns {
  import opened Telemetry
  import opened Bus
  import opened BusSafety
  import opened BusSteps

  lemma {:induction false} NoFrames(threads: nat, r: Ref)
    ensures InThreads(seq(threads, _ => []), r) == 0 && DueInThreads(seq(threads, _ => []), r) == 0
  {
    if threads > 0 {
      NoFrames(threads - 1, r);
      assert seq<seq<Frame>>(threads, _ => [])[1..] == seq<seq<Frame>>(threads - 1, _ => []);
    }
  }

  lemma {:induction false} InitIsGood(order: Order, pool: set<nat>, threads: nat)
    requires |pool| == MAX_NUM_TELEMETRY_REFS
    ensures Inv(order, Init(pool, threads))
  {
    hide InThreads, DueInThreads;
    var s := Init(pool, threads);
    forall r ensures Owners(s, r) == 0 && Owed(s, r) == 0 { NoFrames(threads, r); }
  }

  lemma {:induction false} RunKeeps(order: Order, s: State, events: seq<Event>)
    requires s.broken || Inv(order, s)
    ensures After(order, s, events).broken || Inv(order, After(order, s, events))
    ensures order != PostThenRetain && !s.broken ==> !After(order, s, events).broken
    decreases |events|
  {
    hide Good, NothingOwed, Apply, Breaks, ReleasedBy;
    if events != [] {
      if s.broken { BrokenStays(order, s, events[0]); } else { StepKeeps(order, s, events[0]); }
      RunKeeps(order, Apply(order, s, events[0]), events[1..]);
    }
  }

  lemma BrokenStays(order: Order, s: State, e: Event)
    requires s.broken
    ensures Apply(order, s, e) == s
  {}

  lemma {:induction false} AfterCons(order: Order, s: State, e: Event, events: seq<Event>)
    ensures After(order, s, [e] + events) == After(order, Apply(order, s, e), events)
  {
    hide Apply;
    assert ([e] + events)[1..] == events;
  }

  lemma {:induction false} AfterOne(order: Order, s: State, e: Event)
    ensures After(order, s, [e]) == Apply(order, s, e)
  {
    hide Apply;
    assert [e][1..] == [];
  }

  lemma {:induction false} AfterConcat(order: Order, s: State, u: seq<Event>, v: seq<Event>)
    ensures After(order, s, u + v) == After(order, After(order, s, u), v)
    decreases |u|
  {
    hide Apply;
    if u == [] {
      assert u + v == v;
    } else {
      assert (u + v)[1..] == u[1..] + v;
      AfterConcat(order, Apply(order, s, u[0]), u[1..], v);
    }
  }

  /**
   Reference safety. When retaining is not left until after the post, then in every run of any number of
   threads each live reference's count is the number of mailbox slots, sends and fetches that hold
   it, at least one; nothing freed is still held; slots are conserved; and every packet ever given to
   the bus was freed exactly once or is in exactly one live reference.
   */
  lemma {:induction false} RunsAreSafe(order: Order, pool: set<nat>, threads: nat, events: seq<Event>)
    requires order != PostThenRetain && |pool| == MAX_NUM_TELEMETRY_REFS
    ensures
      var s := After(order, Init(pool, threads), events);
      && !s.broken
      && (forall r :: if r in s.counts then s.counts[r] == Owners(s, r) >= 1 else Owners(s, r) == 0)
      && |s.free| + |s.counts| == MAX_NUM_TELEMETRY_REFS
      && (forall h :: h in s.fates ==> FreedOnce(s, h) || StillHeld(s, h))
      && (forall q, r :: q in s.counts && r in s.counts && q.message.handle == r.message.handle ==> q == r)
  {
    hide After, Owners, Owed, Init;
    InitIsGood(order, pool, threads);
    RunKeeps(order, Init(pool, threads), events);
    var s := After(order, Init(pool, threads), events);
    forall r ensures if r in s.counts then s.counts[r] == Owners(s, r) >= 1 else Owners(s, r) == 0 {
      assert BalancedAt(s, multiset{}, r) && Owed(s, r) == 0;
    }
    forall q, r | q in s.counts && r in s.counts && q.message.handle == r.message.handle ensures q == r {
      assert InUse(s, q) && InUse(s, r);
    }
  }

  /**
   The code's order. As long as the run is not broken, count plus what was posted and is not yet
   retained is what the mailboxes, sends and fetches hold; and slots and packets are accounted for.
   */
  lemma {:induction false} CodeOrderBalances(pool: set<nat>, threads: nat, events: seq<Event>)
    requires |pool| == MAX_NUM_TELEMETRY_REFS
    ensures
      var s := After(PostThenRetain, Init(pool, threads), events);
      !s.broken ==>
        && (forall r :: if r in s.counts then s.counts[r] + Owed(s, r) == Owners(s, r) else Owners(s, r) == 0)
        && |s.free| + |s.counts| == MAX_NUM_TELEMETRY_REFS
        && (forall h :: h in s.fates ==> FreedOnce(s, h) || StillHeld(s, h))
  {
    hide After, Owners, Owed, Init;
    InitIsGood(PostThenRetain, pool, threads);
    RunKeeps(PostThenRetain, Init(pool, threads), events);
    var s := After(PostThenRetain, Init(pool, threads), events);
    if !s.broken {
      forall r ensures if r in s.counts then s.counts[r] + Owed(s, r) == Owners(s, r) else Owners(s, r) == 0 {
        assert BalancedAt(s, multiset{}, r);
      }
    }
  }

  /** A packet is freed by a step only once nobody holds its reference any more. */
  lemma {:induction false} FreedWhenUnheld(order: Order, s: State, e: Event, h: nat)
    requires Inv(order, s) && h in s.fates && StillHeld(s, h)
    requires var s' := Apply(order, s, e); !s'.broken && h in s'.fates && s'.fates[h] == s.fates[h].(frees := 1)
    ensures Owners(Apply(order, s, e), s.fates[h].home.value) == 0
  {
    hide Apply, Owners, Owed, Breaks;
    var s', r := Apply(order, s, e), s.fates[h].home.value;
    StepKeeps(order, s, e);
    assert r in s'.counts ==> InUse(s', r);
    assert BalancedAt(s', multiset{}, r);
  }
}
