/**
 The host's blocking queue as a monitor: any number of threads, one mutex, one condition variable.

 What a thread does while it holds the mutex is one step. A thread in `wait` is Waiting until it is notified or wakes
 for no reason; then it is Awake, and holds the mutex again when it rechecks.
 */
module BlockingQueue {
  import opened Telemetry

  /** What the mutex protects. */
  datatype Monitor<T> = Monitor(queue: seq<T>, running: bool)

  /** What one look at the queue comes to. */
  datatype Outcome<T> = Got(value: T) | Closed | MustWait

  function Enqueue<T>(m: Monitor<T>, val: T): Monitor<T> {
    if m.running then m.(queue := m.queue + [val]) else m
  }

  function Look<T>(m: Monitor<T>): (r: (Monitor<T>, Outcome<T>))
    ensures r.1.Closed? <==> m.queue == [] && !m.running
    ensures r.1.MustWait? <==> m.queue == [] && m.running
    ensures r.1.Got? ==> m.queue == [r.1.value] + r.0.queue && r.0.running == m.running
    ensures !r.1.Got? ==> r.0 == m
  {
    if m.queue == [] then (m, if m.running then MustWait else Closed)
    else (m.(queue := m.queue[1..]), Got(m.queue[0]))
  }

  function Shut<T>(m: Monitor<T>): Monitor<T> { m.(running := false) }

  function Opened<T>(m: Monitor<T>): Monitor<T> { m.(running := true) }

  // ----- the object -----

  /**
   The queue. `IsEmpty` and the methods that end in `Locked` are what is done while the mutex is held; the others are what
   a thread does that nobody comes in between.
   */
  class TQueue<T> {
    var queue: seq<T>
    var running: bool

    ghost function State(): Monitor<T>
      reads this
    {
      Monitor(queue, running)
    }

    constructor ()
      ensures State() == Monitor([], true)
    {
      queue := [];
      running := true;
    }

    /** `enqueue`; the caller then notifies one waiting thread if the queue is running. */
    method EnqueueLocked(val: T) returns (notify: bool)
      modifies this
      ensures State() == Enqueue(old(State()), val) && notify == running == old(running)
      ensures queue == if running then old(queue) + [val] else old(queue)
    {
      if !running {
        return false;
      }
      queue := queue + [val];
      notify := true;
    }

    /** One turn of the loop of `dequeue`. */
    method DequeueLocked() returns (outcome: Outcome<T>)
      modifies this
      ensures (State(), outcome) == Look(old(State()))
    {
      if |queue| == 0 {
        if !running {
          return Closed;
        }
        return MustWait;
      }
      outcome := Got(queue[0]);
      queue := queue[1..];
    }

    method IsEmpty() returns (empty: bool)
      ensures empty == (queue == [])
    {
      empty := |queue| == 0;
    }

    method CloseLocked()
      modifies this`running
      ensures State() == Shut(old(State())) && !running && queue == old(queue)
    {
      running := false;
    }

    method OpenLocked()
      modifies this`running
      ensures State() == Opened(old(State())) && running && queue == old(queue)
    {
      running := true;
    }

    /**
     What a receive that must not block does: it looks, and then dequeues. The mutex is taken twice; here nobody takes a
     value in between. `NeverWaitsIffOneReceiver` below says when that is so.
     */
    method DequeueNow() returns (r: Option<T>)
      modifies this
      ensures State().running == old(State()).running
      ensures if r == None then old(queue) == [] && queue == [] else old(queue) == [r.value] + queue
    {
      var empty := IsEmpty();
      if empty {
        return None;
      }
      var outcome := DequeueLocked();
      r := Some(outcome.value);
    }

    /**
     After a close, what is enqueued, `late`, is dropped, and dequeues never wait: they give everything that was queued,
     in order, and then report the end.
     */
    method CloseAndDrain(late: seq<T>) returns (rest: seq<T>)
      modifies this
      ensures rest == old(queue) && State() == Monitor([], false)
    {
      CloseLocked();
      for i := 0 to |late|
        invariant queue == old(queue) && !running
      {
        var notify := EnqueueLocked(late[i]);
      }
      rest := [];
      var outcome := DequeueLocked();
      while outcome.Got?
        invariant !running && !outcome.MustWait?
        invariant outcome.Got? ==> rest + [outcome.value] + queue == old(queue)
        invariant outcome.Closed? ==> rest == old(queue) && queue == []
        decreases |queue|, outcome.Got?
      {
        rest := rest + [outcome.value];
        outcome := DequeueLocked();
        if outcome.Got? {
          assert rest + ([outcome.value] + queue) == rest + [outcome.value] + queue;
        } else {
          assert rest + [] == rest;
        }
      }
    }
  }

  // ----- many threads -----

  /**
   A thread that receives. A receive that must not block looks first, under the mutex but on its own: it has then seen a
   value and will dequeue, or it found the queue empty and returns.
   */
  datatype Thread<T> = Outside | Seen | FoundEmpty | Waiting | Awake | Returned(result: Option<T>)

  /** The thread's next step with the mutex is a turn of `dequeue`. */
  predicate Dequeues<T>(thread: Thread<T>) { thread.Outside? || thread.Seen? || thread.Awake? }

  /** `accepted` and `taken` are the values that went in and came out, in order. */
  datatype State<T> = State(monitor: Monitor<T>, threads: seq<Thread<T>>, accepted: seq<T>, taken: seq<T>)

  datatype Event<T> =
    /** An enqueue, and the thread that its `notify_one` picks. */
    | Put(val: T, woken: nat)
    /** A receive that must not block looks. */
    | Peek(thread: nat)
    /** A dequeue begins, or an awake thread rechecks. */
    | Take(thread: nat)
    | SpuriousWake(thread: nat)
    | Close
    | Open
    /** A caller goes on after its receive returned. */
    | Leave(thread: nat)

  function SomeoneWaits<T>(threads: seq<Thread<T>>): bool {
    exists t :: 0 <= t < |threads| && threads[t].Waiting?
  }

  function AllAwake<T>(threads: seq<Thread<T>>): (r: seq<Thread<T>>)
    ensures |r| == |threads| && forall t :: 0 <= t < |r| ==> r[t] == if threads[t].Waiting? then Awake else threads[t]
  {
    seq(|threads|, t requires 0 <= t < |threads| => if threads[t].Waiting? then Awake else threads[t])
  }

  /** One step; an event that cannot happen changes nothing. */
  function Apply<T(==)>(s: State<T>, e: Event<T>): State<T> {
    match e
    case Put(val, woken) =>
      if !s.monitor.running then s
      else
        var s' := s.(monitor := Enqueue(s.monitor, val), accepted := s.accepted + [val]);
        if !SomeoneWaits(s.threads) then s'
        else if woken < |s.threads| && s.threads[woken].Waiting? then s'.(threads := s.threads[woken := Awake])
        else s
    case Peek(t) =>
      if t >= |s.threads| || !s.threads[t].Outside? then s
      else s.(threads := s.threads[t := if s.monitor.queue == [] then FoundEmpty else Seen])
    case Take(t) =>
      if t >= |s.threads| || !Dequeues(s.threads[t]) then s
      else
        var (m, outcome) := Look(s.monitor);
        (match outcome
         case Got(v) => s.(monitor := m, threads := s.threads[t := Returned(Some(v))], taken := s.taken + [v])
         case Closed => s.(threads := s.threads[t := Returned(None)])
         case MustWait => s.(threads := s.threads[t := Waiting]))
    case SpuriousWake(t) => if t < |s.threads| && s.threads[t].Waiting? then s.(threads := s.threads[t := Awake]) else s
    case Close => s.(monitor := Shut(s.monitor), threads := AllAwake(s.threads))
    case Open => s.(monitor := Opened(s.monitor))
    case Leave(t) =>
      if t < |s.threads| && (s.threads[t].Returned? || s.threads[t].FoundEmpty?) then s.(threads := s.threads[t := Outside]) else s
  }

  function After<T(==)>(s: State<T>, events: seq<Event<T>>): State<T>
    decreases |events|
  {
    if events == [] then s else After(Apply(s, events[0]), events[1..])
  }

  function Init<T>(threads: nat): State<T> { State(Monitor([], true), seq(threads, _ => Outside), [], []) }

  function AwakeCount<T>(threads: seq<Thread<T>>): nat {
    if threads == [] then 0 else (if threads[0].Awake? then 1 else 0) + AwakeCount(threads[1..])
  }

  lemma {:induction false} AwakeUpdate<T>(threads: seq<Thread<T>>, t: nat, x: Thread<T>)
    requires t < |threads|
    ensures AwakeCount(threads[t := x]) ==
            AwakeCount(threads) - (if threads[t].Awake? then 1 else 0) + (if x.Awake? then 1 else 0)
    decreases |threads|
  {
    if t == 0 {
      assert threads[t := x][1..] == threads[1..];
    } else {
      AwakeUpdate(threads[1..], t - 1, x);
      assert threads[t := x][1..] == threads[1..][t - 1 := x];
    }
  }

  ghost predicate Inv<T>(s: State<T>) {
    && s.taken + s.monitor.queue == s.accepted
    && (!s.monitor.running ==> !SomeoneWaits(s.threads))
    && (SomeoneWaits(s.threads) ==> AwakeCount(s.threads) >= |s.monitor.queue|)
  }

  lemma {:induction false} PutKeeps<T>(s: State<T>, val: T, woken: nat)
    requires Inv(s)
    ensures Inv(Apply(s, Put(val, woken)))
  {
    assert s.taken + (s.monitor.queue + [val]) == s.taken + s.monitor.queue + [val];
    if woken < |s.threads| { AwakeUpdate(s.threads, woken, Awake); }
  }

  lemma {:induction false} TakeKeeps<T>(s: State<T>, t: nat)
    requires Inv(s)
    ensures Inv(Apply(s, Take(t)))
  {
    var s' := Apply(s, Take(t));
    if t < |s.threads| {
      AwakeUpdate(s.threads, t, s'.threads[t]);
      if Look(s.monitor).1.Got? {
        var v := Look(s.monitor).1.value;
        assert s.taken + [v] + Look(s.monitor).0.queue == s.taken + ([v] + Look(s.monitor).0.queue);
      }
    }
  }

  lemma {:induction false} OtherStepKeeps<T>(s: State<T>, e: Event<T>)
    requires Inv(s) && !e.Put? && !e.Take?
    ensures Inv(Apply(s, e))
  {
    if (e.Peek? || e.SpuriousWake? || e.Leave?) && e.thread < |s.threads| {
      AwakeUpdate(s.threads, e.thread, Apply(s, e).threads[e.thread]);
    }
  }

  lemma {:induction false} RunKeeps<T>(s: State<T>, events: seq<Event<T>>)
    requires Inv(s)
    ensures Inv(After(s, events))
    decreases |events|
  {
    hide Apply, Inv;
    if events != [] {
      match events[0] {
        case Put(val, woken) => PutKeeps(s, val, woken);
        case Take(t) => TakeKeeps(s, t);
        case _ => OtherStepKeeps(s, events[0]);
      }
      RunKeeps(Apply(s, events[0]), events[1..]);
    }
  }

  lemma NobodyWaitsAtFirst<T>(threads: nat)
    ensures Inv<T>(Init(threads))
  {}

  /**
   No wake-up is lost, in any run of any number of threads, spurious wake-ups included: while a thread
   still waits, at least as many threads are awake to recheck as there are values queued; no thread
   waits on a closed queue; and values come out in the order in which they went in, each once.
   */
  lemma {:induction false} NoLostWakeUp<T>(threads: nat, events: seq<Event<T>>)
    ensures
      var s := After(Init(threads), events);
      && (forall t :: 0 <= t < |s.threads| && s.threads[t].Waiting? ==> s.monitor.running && AwakeCount(s.threads) >= |s.monitor.queue|)
      && s.taken + s.monitor.queue == s.accepted
  {
    hide Init, After;
    NobodyWaitsAtFirst<T>(threads);
    RunKeeps(Init(threads), events);
  }

  /**
   In every run, a dequeue gives up if and only if the queue is closed and everything it ever accepted was taken;
   and while a value is queued, whoever looks takes the oldest.
   */
  lemma {:induction false} GivesUpOnlyWhenClosed<T>(threads: nat, events: seq<Event<T>>, t: nat)
    requires var s := After(Init(threads), events); t < |s.threads| && Dequeues(s.threads[t])
    ensures
      var s := After(Init(threads), events);
      var s' := Apply(s, Take(t));
      && (s'.threads[t] == Returned(None) <==> !s.monitor.running && s.taken == s.accepted)
      && (s.taken != s.accepted ==> |s.taken| < |s.accepted| && s'.taken == s.taken + [s.accepted[|s.taken|]])
  {
    hide Init, After;
    NobodyWaitsAtFirst<T>(threads);
    RunKeeps(Init(threads), events);
    var s := After(Init(threads), events);
    if s.monitor.queue == [] {
      assert s.taken + [] == s.taken;
    } else {
      assert s.accepted[|s.taken|] == s.monitor.queue[0];
      assert |s.accepted| > |s.taken|;
    }
  }

  /** An enqueue on an open queue goes in; if threads wait, the one that is notified gets to look, and takes the oldest value. */
  lemma {:induction false} PutReachesAWaiter<T>(s: State<T>, val: T, woken: nat)
    requires s.monitor.running && (SomeoneWaits(s.threads) ==> woken < |s.threads| && s.threads[woken].Waiting?)
    ensures
      var s' := Apply(s, Put(val, woken));
      && s'.accepted == s.accepted + [val] && s'.monitor == Monitor(s.monitor.queue + [val], true) && s'.taken == s.taken
      && (if SomeoneWaits(s.threads) then
            && s'.threads == s.threads[woken := Awake]
            && Apply(s', Take(woken)).threads[woken] == Returned(Some((s.monitor.queue + [val])[0]))
          else s'.threads == s.threads)
  {}

  /** A close lets everybody go who waits: whoever looks then takes a value or gives up. */
  lemma {:induction false} CloseReleasesEverybody<T>(s: State<T>, t: nat)
    requires t < |s.threads| && s.threads[t].Waiting?
    ensures
      var s' := Apply(s, Close);
      && !s'.monitor.running && s'.monitor.queue == s.monitor.queue && s'.accepted == s.accepted
      && (forall u :: 0 <= u < |s.threads| ==> !s'.threads[u].Waiting?)
      && Apply(s', Take(t)).threads[t] == Returned(if s.monitor.queue == [] then None else Some(s.monitor.queue[0]))
  {}

  /** Once opened, a queue takes what is enqueued. */
  lemma {:induction false} OpenTakesAgain<T>(s: State<T>, val: T)
    requires !SomeoneWaits(s.threads)
    ensures Apply(Apply(s, Open), Put(val, 0)).accepted == s.accepted + [val]
  {}

  /** Whoever waits may wake for no reason, and then looks again. */
  lemma SpuriousWakeLooksAgain<T>(s: State<T>, t: nat)
    requires t < |s.threads| && s.threads[t].Waiting?
    ensures Apply(s, SpuriousWake(t)) == s.(threads := s.threads[t := Awake]) && Dequeues(Apply(s, SpuriousWake(t)).threads[t])
  {}

  /** From a close on, until the queue is opened again, nothing is accepted and nobody starts to wait. */
  lemma {:induction false} ClosedTakesNothing<T>(s: State<T>, events: seq<Event<T>>)
    requires !s.monitor.running && forall k :: 0 <= k < |events| ==> !events[k].Open?
    ensures
      var s' := After(s, events);
      && !s'.monitor.running && s'.accepted == s.accepted
      && (!SomeoneWaits(s.threads) ==> !SomeoneWaits(s'.threads))
    decreases |events|
  {
    if events != [] {
      assert !events[0].Open?;
      ClosedTakesNothing(Apply(s, events[0]), events[1..]);
    }
  }

  // ----- receives that must not block -----

  /** No receive that looked first, and saw a value, would wait now. */
  predicate NobodyWouldWait<T(==)>(s: State<T>) {
    forall t :: 0 <= t < |s.threads| && s.threads[t].Seen? ==> !Apply(s, Take(t)).threads[t].Waiting?
  }

  /** At most one thread receives, and what it has seen is still there. */
  predicate OneReceiver<T>(s: State<T>) {
    |s.threads| <= 1 && (|s.threads| == 1 && s.threads[0].Seen? ==> s.monitor.queue != [])
  }

  lemma {:induction false} OneReceiverStays<T>(s: State<T>, events: seq<Event<T>>)
    requires OneReceiver(s)
    ensures OneReceiver(After(s, events)) && NobodyWouldWait(After(s, events))
    decreases |events|
  {
    if events != [] { OneReceiverStays(Apply(s, events[0]), events[1..]); }
  }

  lemma {:induction false} AfterConcat<T>(s: State<T>, u: seq<Event<T>>, v: seq<Event<T>>)
    ensures After(s, u + v) == After(After(s, u), v)
    decreases |u|
  {
    hide Apply;
    if u == [] {
      assert u + v == v;
    } else {
      assert (u + v)[1..] == u[1..] + v;
      AfterConcat(Apply(s, u[0]), u[1..], v);
    }
  }

  lemma {:induction false} AfterOne<T>(s: State<T>, e: Event<T>)
    ensures After(s, [e]) == Apply(s, e)
  {
    hide Apply;
    assert [e][1..] == [];
    assert After(Apply(s, e), []) == Apply(s, e);
  }

  /** Nobody enqueues, and nobody closes the queue. */
  predicate Quiet<T>(events: seq<Event<T>>) {
    forall k :: 0 <= k < |events| ==> !events[k].Put? && !events[k].Close?
  }

  /** Thread `u` takes everything that is queued. */
  lemma {:induction false} TakesAll<T>(s: State<T>, t: nat, u: nat) returns (events: seq<Event<T>>)
    requires t < |s.threads| && u < |s.threads| && t != u && s.threads[u].Outside?
    ensures
      var s' := After(s, events);
      && Quiet(events) && s'.monitor == Monitor([], s.monitor.running)
      && |s'.threads| == |s.threads| && s'.threads[t] == s.threads[t]
    decreases |s.monitor.queue|
  {
    events := [];
    if s.monitor.queue != [] {
      var taken := Apply(s, Take(u));
      var left := Apply(taken, Leave(u));
      var rest := TakesAll(left, t, u);
      AfterOne(s, Take(u));
      AfterConcat(s, [Take(u)], [Leave(u)]);
      AfterOne(taken, Leave(u));
      AfterConcat(s, [Take(u)] + [Leave(u)], rest);
      events := [Take(u)] + [Leave(u)] + rest;
    }
  }

  /**
   A second receiver spoils the look of the first. From any state with a value queued in an open queue, thread `t` looks, `u`
   empties the queue, and the receive of `t` that was not to block waits. Nobody need enqueue or close for that.
   */
  lemma {:induction false} SecondReceiverSpoilsTheLook<T>(s: State<T>, t: nat, u: nat) returns (seen: seq<Event<T>>)
    requires t < |s.threads| && u < |s.threads| && t != u && s.threads[t].Outside? && s.threads[u].Outside?
    requires s.monitor.running && s.monitor.queue != []
    ensures
      var s' := After(s, seen);
      && Quiet(seen) && |s'.threads| == |s.threads| && s'.threads[t].Seen? && Stuck(Apply(s', Take(t)), t)
  {
    var looked := Apply(s, Peek(t));
    var rest := TakesAll(looked, t, u);
    AfterOne(s, Peek(t));
    AfterConcat(s, [Peek(t)], rest);
    seen := [Peek(t)] + rest;
  }

  /** Thread `t` is inside the wait of a dequeue on an open, empty queue. */
  predicate Stuck<T>(s: State<T>, t: nat) {
    t < |s.threads| && (s.threads[t].Waiting? || s.threads[t].Awake?) && s.monitor.queue == [] && s.monitor.running
  }

  /** It then hangs until somebody enqueues or closes: so does the flush of a paused consumer. */
  lemma {:induction false} StuckUntilPutOrClose<T>(s: State<T>, t: nat, events: seq<Event<T>>)
    requires Stuck(s, t) && Quiet(events)
    ensures Stuck(After(s, events), t)
    decreases |events|
  {
    if events != [] {
      assert !events[0].Put? && !events[0].Close?;
      StuckUntilPutOrClose(Apply(s, events[0]), t, events[1..]);
    }
  }

  /** In every run no receive that looks first ever waits, if and only if at most one thread receives from the queue. */
  lemma {:induction false} NeverWaitsIffOneReceiver<T(!new)>(threads: nat, v: T)
    ensures (forall events :: NobodyWouldWait(After(Init<T>(threads), events))) <==> threads <= 1
  {
    hide After, NobodyWouldWait;
    var s := Init<T>(threads);
    if threads <= 1 {
      forall events ensures NobodyWouldWait(After(s, events)) {
        OneReceiverStays(s, events);
      }
    } else {
      var e := Put(v, 0);
      AfterOne(s, e);
      var seen := SecondReceiverSpoilsTheLook(Apply(s, e), 0, 1);
      AfterConcat(s, [e], seen);
      WouldWait(After(s, [e] + seen), 0);
    }
  }

  lemma WouldWait<T>(s: State<T>, t: nat)
    requires t < |s.threads| && s.threads[t].Seen? && Stuck(Apply(s, Take(t)), t)
    ensures !NobodyWouldWait(s)
  {}

  /** Looking, taking and going on, until a look finds the queue empty. */
  function FlushTurns<T>(turns: nat): seq<Event<T>> {
    if turns == 0 then [Peek(0)] else [Peek(0), Take(0), Leave(0)] + FlushTurns(turns - 1)
  }

  /** With one receiver and nobody enqueuing, the flush of a paused consumer takes everything queued, in order, and ends. */
  lemma {:induction false} FlushOfOneReceiverEnds<T>(s: State<T>)
    requires s.threads == [Outside]
    ensures After(s, FlushTurns(|s.monitor.queue|)) ==
            s.(monitor := s.monitor.(queue := []), threads := [FoundEmpty], taken := s.taken + s.monitor.queue)
    decreases |s.monitor.queue|
  {
    hide After;
    var queue := s.monitor.queue;
    if queue == [] {
      AfterOne(s, Peek(0));
      assert s.taken + [] == s.taken;
    } else {
      var e0: Event<T>, e1: Event<T>, e2: Event<T>, rest := Peek(0), Take(0), Leave(0), FlushTurns(|queue| - 1);
      var s1 := Apply(s, e0);
      var s2 := Apply(s1, e1);
      var s3 := Apply(s2, e2);
      AfterOne(s, e0);
      AfterOne(s1, e1);
      AfterOne(s2, e2);
      AfterConcat(s, [e0], [e1]);
      AfterConcat(s, [e0] + [e1], [e2]);
      AfterConcat(s, [e0] + [e1] + [e2], rest);
      assert FlushTurns<T>(|queue|) == [e0] + [e1] + [e2] + rest;
      FlushOfOneReceiverEnds(s3);
      assert s.taken + [queue[0]] + queue[1..] == s.taken + queue;
    }
  }
}
