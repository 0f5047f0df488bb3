/**
 The reference counter's load-exclusive/store-exclusive loops, run by any number of threads.

 A load reserves the word for its thread; a store succeeds only while the reservation lasts, and takes all
 reservations away; a reservation may also be lost for no visible reason. A failed store loads again.
 */
module AtomicCounter {

  const WORD := 0x1_0000_0000

  /** A thread is outside the loop, about to load, or about to store what it computed from `seen`. */
  datatype Thread = Idle | Loading(delta: int) | Storing(delta: int, seen: nat, reserved: bool)

  /** One completed call: what it added, and the new value that it returned. */
  datatype Done = Done(delta: int, result: nat)

  datatype State = State(value: nat, threads: seq<Thread>, done: seq<Done>)

  datatype Event = Call(thread: nat, delta: int) | Load(thread: nat) | Store(thread: nat) | LoseReservation(thread: nat)

  function Wrap(n: int): (w: nat)
    ensures w < WORD
  {
    n % WORD
  }

  function Unreserved(threads: seq<Thread>): (r: seq<Thread>)
    ensures |r| == |threads|
    ensures forall t :: 0 <= t < |threads| ==>
      r[t] == if threads[t].Storing? then threads[t].(reserved := false) else threads[t]
  {
    seq(|threads|, t requires 0 <= t < |threads| => if threads[t].Storing? then threads[t].(reserved := false) else threads[t])
  }

  /** One step; an event that cannot happen changes nothing. */
  function Apply(s: State, e: Event): State {
    if e.thread >= |s.threads| then s else
      var t := s.threads[e.thread];
      match e
      case Call(i, delta) => if t == Idle then s.(threads := s.threads[i := Loading(delta)]) else s
      case Load(i) => if t.Loading? then s.(threads := s.threads[i := Storing(t.delta, s.value, true)]) else s
      case LoseReservation(i) => if t.Storing? then s.(threads := s.threads[i := t.(reserved := false)]) else s
      case Store(i) =>
        if !t.Storing? then s
        else if !t.reserved then s.(threads := s.threads[i := Loading(t.delta)])
        else
          var value := Wrap(t.seen + t.delta);
          State(value, Unreserved(s.threads)[i := Idle], s.done + [Done(t.delta, value)])
  }

  function After(s: State, events: seq<Event>): State
    decreases |events|
  {
    if events == [] then s else After(Apply(s, events[0]), events[1..])
  }

  function Init(value: nat, threads: nat): State { State(value, seq(threads, _ => Idle), []) }

  function Sum(done: seq<Done>): int {
    if done == [] then 0 else Sum(done[..|done| - 1]) + done[|done| - 1].delta
  }

  // ----- the loops are atomic additions -----

  /** Whoever holds a reservation has seen the current value. */
  ghost predicate Fresh(s: State) {
    forall t :: 0 <= t < |s.threads| && s.threads[t].Storing? && s.threads[t].reserved ==> s.threads[t].seen == s.value
  }

  /** Every completed call returned the sum of everything completed up to then, and the value is the sum of all. */
  ghost predicate Linear(initial: nat, value: nat, done: seq<Done>) {
    && value == Wrap(initial + Sum(done))
    && forall k :: 0 <= k < |done| ==> done[k].result == Wrap(initial + Sum(done[..k + 1]))
  }

  lemma WrapAdds(n: int, delta: int)
    ensures Wrap(Wrap(n) + delta) == Wrap(n + delta)
  {
    assert n + delta - (n % WORD + delta) == n / WORD * WORD;
    var q, r := (n % WORD + delta) / WORD, (n % WORD + delta) % WORD;
    assert n + delta == (n / WORD + q) * WORD + r;
  }

  lemma {:induction false} LinearSnoc(initial: nat, value: nat, done: seq<Done>, delta: int)
    requires Linear(initial, value, done)
    ensures Linear(initial, Wrap(value + delta), done + [Done(delta, Wrap(value + delta))])
  {
    hide Wrap;
    var more := done + [Done(delta, Wrap(value + delta))];
    assert more[..|done|] == done && more[..|more|] == more;
    assert Sum(more) == Sum(done) + delta;
    WrapAdds(initial + Sum(done), delta);
    forall k | 0 <= k < |more| ensures more[k].result == Wrap(initial + Sum(more[..k + 1])) {
      if k < |done| {
        assert more[..k + 1] == done[..k + 1];
      }
    }
  }

  lemma {:induction false} StepIsLinear(initial: nat, s: State, e: Event)
    requires Fresh(s) && Linear(initial, s.value, s.done)
    ensures var s' := Apply(s, e); Fresh(s') && Linear(initial, s'.value, s'.done)
  {
    hide Wrap, Linear;
    if e.Store? && e.thread < |s.threads| {
      var t := s.threads[e.thread];
      if t.Storing? && t.reserved {
        LinearSnoc(initial, s.value, s.done, t.delta);
      }
    }
  }

  lemma {:induction false} RunIsLinear(initial: nat, s: State, events: seq<Event>)
    requires Fresh(s) && Linear(initial, s.value, s.done)
    ensures var s' := After(s, events); Fresh(s') && Linear(initial, s'.value, s'.done)
    decreases |events|
  {
    hide Apply, Fresh, Linear;
    if events != [] {
      StepIsLinear(initial, s, events[0]);
      RunIsLinear(initial, Apply(s, events[0]), events[1..]);
    }
  }

  /**
   In every run of any number of threads the counter is its first value plus what the completed calls added,
   modulo 2^32, and each call returned the value right after its own addition.
   */
  lemma {:induction false} LoopsAreAtomicAdds(initial: nat, threads: nat, events: seq<Event>)
    requires initial < WORD
    ensures
      var s := After(Init(initial, threads), events);
      && s.value == Wrap(initial + Sum(s.done))
      && forall k :: 0 <= k < |s.done| ==> s.done[k].result == Wrap(initial + Sum(s.done[..k + 1]))
  {
    hide After;
    RunIsLinear(initial, Init(initial, threads), events);
  }

  /** A load and a store that nothing interrupts complete the call. */
  lemma {:induction false} UninterruptedTurnCompletes(s: State, i: nat)
    requires i < |s.threads| && s.threads[i].Loading?
    ensures
      var s', delta := After(s, [Load(i), Store(i)]), s.threads[i].delta;
      && |s'.threads| == |s.threads| && s'.threads[i] == Idle
      && s'.value == Wrap(s.value + delta) && s'.done == s.done + [Done(delta, Wrap(s.value + delta))]
  {
    hide Wrap;
    var s1 := Apply(s, Load(i));
    var s2 := Apply(s1, Store(i));
    assert [Load(i), Store(i)][1..] == [Store(i)] && [Store(i)][1..] == [];
    assert After(s1, [Store(i)]) == After(s2, []) == s2;
  }

  /** A store without its reservation changes nothing and goes back to the load. */
  lemma {:induction false} LostReservationRetries(s: State, i: nat)
    requires i < |s.threads| && s.threads[i].Storing?
    ensures After(s, [LoseReservation(i), Store(i)]) == s.(threads := s.threads[i := Loading(s.threads[i].delta)])
  {
    hide Wrap;
    var s1 := Apply(s, LoseReservation(i));
    var s2 := Apply(s1, Store(i));
    assert [LoseReservation(i), Store(i)][1..] == [Store(i)] && [Store(i)][1..] == [];
    assert After(s1, [Store(i)]) == After(s2, []) == s2;
    assert s2.threads == s.threads[i := Loading(s.threads[i].delta)];
  }

  // ----- every call adds, once -----

  /** What a step begins: a call by a thread that is in none. */
  function Began(s: State, e: Event): seq<int> {
    if e.Call? && e.thread < |s.threads| && s.threads[e.thread] == Idle then [e.delta] else []
  }

  /** The amounts of all calls that began in a run, in order. */
  function Begun(s: State, events: seq<Event>): seq<int>
    decreases |events|
  {
    if events == [] then [] else Began(s, events[0]) + Begun(Apply(s, events[0]), events[1..])
  }

  function Total(deltas: seq<int>): int {
    if deltas == [] then 0 else deltas[0] + Total(deltas[1..])
  }

  /** Whether the thread is in a call that is to add `d`, and what it is to add. */
  function Weighs(t: Thread, d: int): nat { if t != Idle && t.delta == d then 1 else 0 }

  function Amount(t: Thread): int { if t == Idle then 0 else t.delta }

  /** How many of the calls in progress are to add `d`. */
  function InProgress(threads: seq<Thread>, d: int): nat {
    if threads == [] then 0 else Weighs(threads[0], d) + InProgress(threads[1..], d)
  }

  /** What all calls in progress are to add. */
  function InProgressTotal(threads: seq<Thread>): int {
    if threads == [] then 0 else Amount(threads[0]) + InProgressTotal(threads[1..])
  }

  function Times(deltas: seq<int>, d: int): nat { multiset(deltas)[d] }

  function Added(done: seq<Done>): (deltas: seq<int>)
    ensures |deltas| == |done| && forall k :: 0 <= k < |done| ==> deltas[k] == done[k].delta
  {
    seq(|done|, k requires 0 <= k < |done| => done[k].delta)
  }

  lemma {:induction false} ProgressUpdate(threads: seq<Thread>, i: nat, t: Thread, d: int)
    requires i < |threads|
    ensures InProgress(threads[i := t], d) + Weighs(threads[i], d) == InProgress(threads, d) + Weighs(t, d)
    ensures InProgressTotal(threads[i := t]) + Amount(threads[i]) == InProgressTotal(threads) + Amount(t)
    decreases |threads|
  {
    hide Weighs, Amount;
    if i == 0 {
      assert threads[i := t][1..] == threads[1..];
    } else {
      ProgressUpdate(threads[1..], i - 1, t, d);
      assert threads[i := t][1..] == threads[1..][i - 1 := t];
    }
  }

  lemma {:induction false} ProgressUnreserved(threads: seq<Thread>, d: int)
    ensures InProgress(Unreserved(threads), d) == InProgress(threads, d)
    ensures InProgressTotal(Unreserved(threads)) == InProgressTotal(threads)
    decreases |threads|
  {
    if threads != [] {
      ProgressUnreserved(threads[1..], d);
      assert Unreserved(threads)[1..] == Unreserved(threads[1..]);
    }
  }

  /** What was added and what is in progress; of the calls begun so far `k` are to add `d`, and all together are to add `n`. */
  ghost predicate Accounts(s: State, d: int, k: nat, n: int) {
    && k == Times(Added(s.done), d) + InProgress(s.threads, d)
    && n == Sum(s.done) + InProgressTotal(s.threads)
  }

  lemma {:induction false} DoneOneMore(done: seq<Done>, last: Done, d: int)
    ensures Times(Added(done + [last]), d) == Times(Added(done), d) + (if last.delta == d then 1 else 0)
    ensures Sum(done + [last]) == Sum(done) + last.delta
  {
    assert Added(done + [last]) == Added(done) + [last.delta];
    assert (done + [last])[..|done|] == done;
  }

  lemma {:induction false} StoreAccounts(s: State, i: nat, d: int, k: nat, n: int)
    requires Accounts(s, d, k, n)
    ensures Accounts(Apply(s, Store(i)), d, k, n)
  {
    hide Wrap, Unreserved, Times, Sum, InProgress, InProgressTotal;
    if i < |s.threads| && s.threads[i].Storing? {
      var t := s.threads[i];
      if t.reserved {
        ProgressUnreserved(s.threads, d);
        ProgressUpdate(Unreserved(s.threads), i, Idle, d);
        DoneOneMore(s.done, Done(t.delta, Wrap(t.seen + t.delta)), d);
      } else {
        ProgressUpdate(s.threads, i, Loading(t.delta), d);
      }
    }
  }

  lemma {:induction false} StepAccounts(s: State, e: Event, d: int, k: nat, n: int)
    requires Accounts(s, d, k, n)
    ensures Accounts(Apply(s, e), d, k + Times(Began(s, e), d), n + Total(Began(s, e)))
  {
    hide Wrap, Sum, InProgress, InProgressTotal;
    match e
    case Store(i) => StoreAccounts(s, i, d, k, n);
    case Call(i, delta) =>
      assert Total([delta]) == delta by { assert [delta][1..] == []; }
      if i < |s.threads| { ProgressUpdate(s.threads, i, Loading(delta), d); }
    case Load(i) =>
      if i < |s.threads| && s.threads[i].Loading? { ProgressUpdate(s.threads, i, Storing(s.threads[i].delta, s.value, true), d); }
    case LoseReservation(i) =>
      if i < |s.threads| && s.threads[i].Storing? { ProgressUpdate(s.threads, i, s.threads[i].(reserved := false), d); }
  }

  lemma {:induction false} TotalConcat(u: seq<int>, v: seq<int>)
    ensures Total(u + v) == Total(u) + Total(v)
    decreases |u|
  {
    if u == [] {
      assert u + v == v;
    } else {
      assert (u + v)[1..] == u[1..] + v;
      TotalConcat(u[1..], v);
    }
  }

  lemma {:induction false} RunAccounts(s: State, events: seq<Event>, d: int, k: nat, n: int)
    requires Accounts(s, d, k, n)
    ensures Accounts(After(s, events), d, k + Times(Begun(s, events), d), n + Total(Begun(s, events)))
    decreases |events|
  {
    hide Apply, Accounts, Began, Total;
    NoneBegun(d);
    if events != [] {
      var b, s' := Began(s, events[0]), Apply(s, events[0]);
      StepAccounts(s, events[0], d, k, n);
      RunAccounts(s', events[1..], d, k + Times(b, d), n + Total(b));
      TotalConcat(b, Begun(s', events[1..]));
      assert Times(b + Begun(s', events[1..]), d) == Times(b, d) + Times(Begun(s', events[1..]), d);
    }
  }

  lemma NoneBegun(d: int)
    ensures Total([]) == 0 && Times([], d) == 0
  {}

  lemma {:induction false} NobodyInProgress(threads: seq<Thread>, d: int)
    requires forall t :: 0 <= t < |threads| ==> threads[t] == Idle
    ensures InProgress(threads, d) == 0 && InProgressTotal(threads) == 0
    decreases |threads|
  {
    if threads != [] { NobodyInProgress(threads[1..], d); }
  }

  /**
   In every run, of the calls that began and are to add `d`, each has added it exactly once or is still in its loop, and
   nobody else has added anything.
   */
  lemma {:induction false} EveryCallAddsOnce(initial: nat, threads: nat, events: seq<Event>, d: int)
    ensures
      var s := After(Init(initial, threads), events);
      multiset(Begun(Init(initial, threads), events))[d] == multiset(Added(s.done))[d] + InProgress(s.threads, d)
    ensures Total(Begun(Init(initial, threads), events)) ==
            Sum(After(Init(initial, threads), events).done) + InProgressTotal(After(Init(initial, threads), events).threads)
  {
    hide After, Begun, InProgress, InProgressTotal;
    var s0 := Init(initial, threads);
    NobodyInProgress(s0.threads, d);
    assert Added([]) == [];
    RunAccounts(s0, events, d, 0, 0);
  }

  /** So when all calls have returned, the counter is its first value plus what all of them were to add, mod 2^32. */
  lemma {:induction false} NoAdditionIsLost(initial: nat, threads: nat, events: seq<Event>)
    requires initial < WORD
    requires forall t :: 0 <= t < |After(Init(initial, threads), events).threads| ==> After(Init(initial, threads), events).threads[t] == Idle
    ensures After(Init(initial, threads), events).value == Wrap(initial + Total(Begun(Init(initial, threads), events)))
  {
    hide After, Begun, Wrap, InProgress, InProgressTotal;
    LoopsAreAtomicAdds(initial, threads, events);
    EveryCallAddsOnce(initial, threads, events, 0);
    NobodyInProgress(After(Init(initial, threads), events).threads, 0);
  }

  // ----- who sees zero -----

  /**
   The calls are retains and releases of references that exist: the count never goes below zero, never
   reaches 2^32, and nobody retains once it was zero.
   */
  ghost predicate Disciplined(initial: nat, done: seq<Done>) {
    && (forall k :: 0 <= k < |done| ==> done[k].delta == 1 || done[k].delta == -1)
    && (forall k :: 0 <= k <= |done| ==> 0 <= initial + Sum(done[..k]) < WORD)
    && (forall k :: 0 <= k < |done| && initial + Sum(done[..k]) == 0 ==> done[k].delta != 1)
  }

  function ZeroSeen(done: seq<Done>): nat {
    if done == [] then 0 else ZeroSeen(done[..|done| - 1]) + (if done[|done| - 1].result == 0 then 1 else 0)
  }

  lemma {:induction false} SumStep(done: seq<Done>, k: nat)
    requires k < |done|
    ensures Sum(done[..k + 1]) == Sum(done[..k]) + done[k].delta
  {
    assert done[..k + 1][..k] == done[..k];
  }

  /** A disciplined call never wraps, and never starts from zero. */
  lemma {:induction false} CallAt(initial: nat, value: nat, done: seq<Done>, k: nat)
    requires Linear(initial, value, done) && Disciplined(initial, done) && k < |done|
    ensures done[k].result == initial + Sum(done[..k + 1]) == initial + Sum(done[..k]) + done[k].delta
    ensures initial + Sum(done[..k]) > 0
  {
    hide Sum;
    SumStep(done, k);
    var before, now := initial + Sum(done[..k]), initial + Sum(done[..k + 1]);
    assert 0 <= before && 0 <= now < WORD;
    assert Wrap(now) == now;
  }

  lemma {:induction false} ZeroSeenUpTo(initial: nat, value: nat, done: seq<Done>, k: nat)
    requires Linear(initial, value, done) && Disciplined(initial, done) && initial > 0 && k <= |done|
    ensures ZeroSeen(done[..k]) == if initial + Sum(done[..k]) == 0 then 1 else 0
  {
    hide ZeroSeen, Sum, Linear, Disciplined;
    if k == 0 {
      NoneSeen(done[..0]);
    } else {
      ZeroSeenUpTo(initial, value, done, k - 1);
      ZeroSeenStep(done, k - 1);
      CallAt(initial, value, done, k - 1);
    }
  }

  lemma NoneSeen(done: seq<Done>)
    requires done == []
    ensures ZeroSeen(done) == 0 && Sum(done) == 0
  {}

  lemma {:induction false} ZeroSeenStep(done: seq<Done>, k: nat)
    requires k < |done|
    ensures ZeroSeen(done[..k + 1]) == ZeroSeen(done[..k]) + (if done[k].result == 0 then 1 else 0)
  {
    assert done[..k + 1][..k] == done[..k];
  }

  /** Exactly one call, a release, sees the count reach zero, if it does; otherwise none does. */
  lemma {:induction false} OneReleaserSeesZero(initial: nat, threads: nat, events: seq<Event>)
    requires 0 < initial < WORD && Disciplined(initial, After(Init(initial, threads), events).done)
    ensures
      var s := After(Init(initial, threads), events);
      && ZeroSeen(s.done) == (if s.value == 0 then 1 else 0)
      && (forall k :: 0 <= k < |s.done| && s.done[k].result == 0 ==> s.done[k].delta == -1)
  {
    hide After, Linear, Wrap;
    RunIsLinear(initial, Init(initial, threads), events) by { InitIsLinear(initial, threads); }
    var s := After(Init(initial, threads), events);
    SeenInFull(initial, s.value, s.done);
  }

  lemma {:induction false} InitIsLinear(initial: nat, threads: nat)
    requires initial < WORD
    ensures Fresh(Init(initial, threads)) && Linear(initial, initial, [])
  {}

  lemma {:induction false} SeenInFull(initial: nat, value: nat, done: seq<Done>)
    requires 0 < initial && Linear(initial, value, done) && Disciplined(initial, done)
    ensures ZeroSeen(done) == (if value == 0 then 1 else 0)
    ensures forall k :: 0 <= k < |done| && done[k].result == 0 ==> done[k].delta == -1
  {
    hide ZeroSeen, Sum;
    ZeroSeenUpTo(initial, value, done, |done|);
    assert done[..|done|] == done;
    assert 0 <= initial + Sum(done[..|done|]) < WORD;
    forall k | 0 <= k < |done| && done[k].result == 0 ensures done[k].delta == -1 {
      CallAt(initial, value, done, k);
    }
  }
}
