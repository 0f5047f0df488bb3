/**
 Shutting a file driver down: senders, the reader thread and the destructor, in every interleaving.

 The two drivers differ in the order of the destructor's steps. The m3tel driver closes its mailbox before it
 lowers the flag that the reader watches, and loses nothing. The .tel driver lowers the flag first, and loses
 exactly the packets that are accepted after the reader has finished and before the mailbox is closed.
 */
module Shutdown {
  import opened Telemetry
  import Q = BlockingQueue

  /** What the destructor does before it joins the reader. */
  datatype Action = LowerFlag | PauseConsumer | CloseMailbox

  datatype Order = CloseFirst | FlagFirst

  function Actions(order: Order): (actions: seq<Action>)
    ensures |actions| == 3
  {
    match order
    case CloseFirst => [PauseConsumer, CloseMailbox, LowerFlag]
    case FlagFirst => [LowerFlag, PauseConsumer, CloseMailbox]
  }

  /** The reader thread: its first loop receives and waits while the flag is up; its second empties the mailbox. */
  datatype Reader =
    | AtFlag
    | Receiving
    | Handling(packet: Packet)
    | AtEmptiness
    | Draining
    | HandlingLast(packet: Packet)
    | Finished

  /** A sender has seen that the consumer is not paused, and will enqueue. */
  datatype Sender = Idle | Sending(packet: Packet)

  /**
   `accepted` are the packets the mailbox took, `handled` those the callback saw, `late` those taken
   after the reader finished. `gaveUp` tells that the callback failed while draining.
   */
  datatype State = State(
    mailbox: Q.Monitor<Packet>,
    paused: bool,
    flag: bool,
    destructor: nat,
    reader: Reader,
    senders: seq<Sender>,
    accepted: seq<Packet>,
    handled: seq<Packet>,
    late: seq<Packet>,
    gaveUp: bool)

  datatype Event =
    | Check(sender: nat, packet: Packet)
    | Post(sender: nat)
    | Read(callbackOk: bool)
    | Destroy

  function Init(senders: nat): State {
    State(Q.Monitor([], true), false, true, 0, AtFlag, seq(senders, _ => Idle), [], [], [], false)
  }

  function Perform(s: State, a: Action): State {
    match a
    case LowerFlag => s.(flag := false)
    case PauseConsumer => s.(paused := true)
    case CloseMailbox => s.(mailbox := s.mailbox.(running := false))
  }

  function ReaderStep(s: State, callbackOk: bool): State {
    match s.reader
    case AtFlag => s.(reader := if s.flag then Receiving else AtEmptiness)
    case Receiving =>
      var (m, outcome) := Q.Look(s.mailbox);
      (match outcome
       case Got(p) => s.(mailbox := m, reader := Handling(p))
       case Closed => s.(reader := AtFlag)
       case MustWait => s)
    case Handling(p) => s.(reader := AtFlag, handled := s.handled + [p])
    case AtEmptiness => s.(reader := if s.mailbox.queue == [] then Finished else Draining)
    case Draining =>
      var (m, outcome) := Q.Look(s.mailbox);
      (match outcome
       case Got(p) => s.(mailbox := m, reader := HandlingLast(p))
       case Closed => s.(reader := Finished)
       case MustWait => s)
    case HandlingLast(p) =>
      s.(reader := if callbackOk then AtEmptiness else Finished, handled := s.handled + [p], gaveUp := !callbackOk)
    case Finished => s
  }

  /** One step; an event that cannot happen changes nothing. */
  function Apply(order: Order, s: State, e: Event): State {
    match e
    case Check(i, p) =>
      if i < |s.senders| && s.senders[i].Idle? && !s.paused then s.(senders := s.senders[i := Sending(p)]) else s
    case Post(i) =>
      if i >= |s.senders| || s.senders[i].Idle? then s
      else
        var p, s' := s.senders[i].packet, s.(senders := s.senders[i := Idle]);
        if !s.mailbox.running then s'
        else s'.(mailbox := Q.Enqueue(s.mailbox, p), accepted := s.accepted + [p],
                 late := if s.reader.Finished? then s.late + [p] else s.late)
    case Read(callbackOk) => ReaderStep(s, callbackOk)
    case Destroy => if s.destructor < 3 then Perform(s, Actions(order)[s.destructor]).(destructor := s.destructor + 1) else s
  }

  function After(order: Order, s: State, events: seq<Event>): State
    decreases |events|
  {
    if events == [] then s else After(order, Apply(order, s, events[0]), events[1..])
  }

  /** What the reader has taken out and not yet handed to the callback. */
  function InHand(r: Reader): seq<Packet> {
    if r.Handling? || r.HandlingLast? then [r.packet] else []
  }

  /** The reader is past its first loop. */
  predicate Leaving(r: Reader) { r.AtEmptiness? || r.Draining? || r.HandlingLast? || r.Finished? }

  ghost predicate Inv(order: Order, s: State) {
    && s.handled + InHand(s.reader) + s.mailbox.queue == s.accepted
    && s.destructor <= 3
    && (s.flag <==> forall k :: 0 <= k < s.destructor ==> Actions(order)[k] != LowerFlag)
    && (!s.paused <==> forall k :: 0 <= k < s.destructor ==> Actions(order)[k] != PauseConsumer)
    && (s.mailbox.running <==> forall k :: 0 <= k < s.destructor ==> Actions(order)[k] != CloseMailbox)
    && (Leaving(s.reader) ==> !s.flag)
    && (s.reader.Draining? ==> s.mailbox.queue != [])
    && (s.reader.Finished? && !s.gaveUp ==> s.mailbox.queue == s.late)
    && (!s.reader.Finished? ==> s.late == [] && !s.gaveUp)
    && (order == CloseFirst ==> s.late == [])
  }

  lemma {:induction false} FlagDownMeansClosed(s: State)
    requires Inv(CloseFirst, s) && !s.flag
    ensures !s.mailbox.running
  {
    var k :| 0 <= k < s.destructor && Actions(CloseFirst)[k] == LowerFlag;
    assert k == 2 && Actions(CloseFirst)[1] == CloseMailbox;
  }

  lemma {:induction false} PostKeeps(order: Order, s: State, i: nat)
    requires Inv(order, s)
    ensures Inv(order, Apply(order, s, Post(i)))
  {
    if i < |s.senders| && s.senders[i].Sending? {
      var p, h := s.senders[i].packet, s.handled + InHand(s.reader);
      assert h + (s.mailbox.queue + [p]) == h + s.mailbox.queue + [p];
      if order == CloseFirst && s.reader.Finished? { FlagDownMeansClosed(s); }
    }
  }

  lemma {:induction false} ReadKeeps(order: Order, s: State, callbackOk: bool)
    requires Inv(order, s)
    ensures Inv(order, ReaderStep(s, callbackOk))
  {
    hide Actions;
    match s.reader {
      case Receiving => TakeOut(s);
      case Draining => TakeOut(s);
      case Handling(p) => assert s.handled + [p] + [] == s.handled + [p];
      case HandlingLast(p) => assert s.handled + [p] + [] == s.handled + [p];
      case _ =>
    }
  }

  lemma TakeOut(s: State)
    ensures var (m, outcome) := Q.Look(s.mailbox);
      outcome.Got? ==> s.handled + [] + s.mailbox.queue == s.handled + [outcome.value] + m.queue
  {}

  lemma {:induction false} DestroyKeeps(order: Order, s: State)
    requires Inv(order, s)
    ensures Inv(order, Apply(order, s, Destroy))
  {
    hide InHand, Leaving;
    var s' := Apply(order, s, Destroy);
    if s.destructor < 3 {
      var a := Actions(order)[s.destructor];
      assert forall k :: 0 <= k < s'.destructor ==> k < s.destructor || Actions(order)[k] == a;
    }
  }

  lemma {:induction false} StepKeeps(order: Order, s: State, e: Event)
    requires Inv(order, s)
    ensures Inv(order, Apply(order, s, e))
  {
    hide Inv, Apply;
    match e {
      case Check(i, p) => CheckKeeps(order, s, i, p);
      case Post(i) => PostKeeps(order, s, i);
      case Read(ok) => { ReadKeeps(order, s, ok); ReadIs(order, s, ok); }
      case Destroy => DestroyKeeps(order, s);
    }
  }

  lemma {:induction false} RunKeeps(order: Order, s: State, events: seq<Event>)
    requires Inv(order, s)
    ensures Inv(order, After(order, s, events))
    decreases |events|
  {
    hide Inv, Apply;
    if events != [] {
      StepKeeps(order, s, events[0]);
      RunKeeps(order, Apply(order, s, events[0]), events[1..]);
    }
  }

  lemma CheckKeeps(order: Order, s: State, i: nat, p: Packet)
    requires Inv(order, s)
    ensures Inv(order, Apply(order, s, Check(i, p)))
  {}

  lemma ReadIs(order: Order, s: State, ok: bool)
    ensures Apply(order, s, Read(ok)) == ReaderStep(s, ok)
  {}

  lemma InitIsGood(order: Order, senders: nat)
    ensures Inv(order, Init(senders))
  {}

  /**
   The m3tel driver drains. However senders, reader and destructor interleave, when the reader is finished
   every packet the mailbox ever accepted has gone through the callback once, in order, unless the
   callback failed on the way out; and the mailbox accepts no more.
   */
  lemma {:induction false} CloseFirstDrains(senders: nat, events: seq<Event>)
    ensures
      var s := After(CloseFirst, Init(senders), events);
      s.reader.Finished? && !s.gaveUp ==> s.handled == s.accepted && !s.mailbox.running
  {
    hide After, Init, Actions;
    InitIsGood(CloseFirst, senders);
    RunKeeps(CloseFirst, Init(senders), events);
    var s := After(CloseFirst, Init(senders), events);
    if s.reader.Finished? && !s.gaveUp {
      FlagDownMeansClosed(s);
      assert s.handled + [] + [] == s.handled;
    }
  }

  /**
   The .tel driver loses exactly what is accepted late: when its reader is finished, and the callback did not fail on
   the way out, everything accepted was handled if and only if nothing was accepted after the reader finished.
   */
  lemma {:induction false} FlagFirstLosesTheLate(senders: nat, events: seq<Event>)
    ensures
      var s := After(FlagFirst, Init(senders), events);
      s.reader.Finished? && !s.gaveUp ==>
        s.accepted == s.handled + s.late && (s.handled == s.accepted <==> s.late == [])
  {
    hide After, Init, Actions;
    InitIsGood(FlagFirst, senders);
    RunKeeps(FlagFirst, Init(senders), events);
    var s := After(FlagFirst, Init(senders), events);
    if s.reader.Finished? && !s.gaveUp {
      assert s.handled + [] + s.late == s.handled + s.late;
    }
  }

  lemma {:induction false} AfterConcat(order: Order, s: State, u: seq<Event>, v: seq<Event>)
    ensures After(order, s, u + v) == After(order, After(order, s, u), v)
    decreases |u|
  {
    hide Apply;
    if u == [] {
      assert u + v == v;
    } else {
      assert (u + v)[1..] == u[1..] + v;
      AfterConcat(order, Apply(order, s, u[0]), u[1..], v);
    }
  }

  // ----- what pausing the consumer does -----

  function Times(ps: seq<Packet>, p: Packet): nat { multiset(ps)[p] }

  /** How many senders are on their way to the mailbox with packet `p`. */
  function OnTheWay(senders: seq<Sender>, p: Packet): nat {
    if senders == [] then 0 else (if senders[0] == Sending(p) then 1 else 0) + OnTheWay(senders[1..], p)
  }

  lemma {:induction false} OnTheWayUpdate(senders: seq<Sender>, i: nat, x: Sender, p: Packet)
    requires i < |senders|
    ensures OnTheWay(senders[i := x], p) + (if senders[i] == Sending(p) then 1 else 0)
         == OnTheWay(senders, p) + (if x == Sending(p) then 1 else 0)
    decreases |senders|
  {
    if i == 0 {
      assert senders[i := x][1..] == senders[1..];
    } else {
      OnTheWayUpdate(senders[1..], i - 1, x, p);
      assert senders[i := x][1..] == senders[1..][i - 1 := x];
    }
  }

  /** A step of the paused driver: what is accepted was on its way, and nobody else sets out. */
  lemma {:induction false} PausedStep(order: Order, s: State, e: Event, p: Packet)
    requires s.paused
    ensures
      var s' := Apply(order, s, e);
      var before, now := Times(s.accepted, p) + OnTheWay(s.senders, p), Times(s'.accepted, p) + OnTheWay(s'.senders, p);
      && s'.paused && s.accepted <= s'.accepted && now <= before
      && (s'.mailbox.running ==> s.mailbox.running && now == before)
  {
    hide Actions, ReaderStep, OnTheWay, Times;
    match e
    case Check(i, q) =>
    case Read(ok) => ReaderLeaves(s, ok);
    case Destroy =>
    case Post(i) =>
      if i < |s.senders| && s.senders[i].Sending? {
        OnTheWayUpdate(s.senders, i, Idle, p);
        TimesOneMore(s.accepted, s.senders[i].packet, p);
      }
  }

  lemma TimesOneMore(ps: seq<Packet>, q: Packet, p: Packet)
    ensures Times(ps + [q], p) == Times(ps, p) + (if q == p then 1 else 0)
  {}

  /**
   Once the destructor has paused the consumer, the mailbox takes only what had passed the check by then, each packet at most
   once; while the mailbox is open, all of it that is no longer on its way.
   */
  lemma {:induction false} PausedTakesOnlyWhatWasOnItsWay(order: Order, s: State, events: seq<Event>, p: Packet)
    requires s.paused
    ensures
      var s' := After(order, s, events);
      var before, now := Times(s.accepted, p) + OnTheWay(s.senders, p), Times(s'.accepted, p) + OnTheWay(s'.senders, p);
      && s'.paused && s.accepted <= s'.accepted && now <= before
      && (s'.mailbox.running ==> s.mailbox.running && now == before)
    decreases |events|
  {
    hide Apply, OnTheWay, Times;
    if events != [] {
      PausedStep(order, s, events[0], p);
      PausedTakesOnlyWhatWasOnItsWay(order, Apply(order, s, events[0]), events[1..], p);
    }
  }

  // ----- the reader finishes -----

  /** The destructor has taken its three steps and joins the reader. */
  predicate Joining(s: State) { !s.flag && s.paused && !s.mailbox.running }

  /** At most so many steps of the reader are left once the destructor joins it. */
  function StepsLeft(s: State): nat {
    match s.reader
    case Receiving => 3 * |s.mailbox.queue| + 3
    case Handling(_) => 3 * |s.mailbox.queue| + 3
    case AtFlag => 3 * |s.mailbox.queue| + 2
    case HandlingLast(_) => 3 * |s.mailbox.queue| + 2
    case AtEmptiness => 3 * |s.mailbox.queue| + 1
    case Draining => 3 * |s.mailbox.queue|
    case Finished => 0
  }

  function Reads(events: seq<Event>): nat {
    if events == [] then 0 else (if events[0].Read? then 1 else 0) + Reads(events[1..])
  }

  lemma {:induction false} JoinReads(order: Order, s: State, ok: bool)
    requires Inv(order, s) && Joining(s)
    ensures Joining(ReaderStep(s, ok)) && (s.reader.Finished? ==> ReaderStep(s, ok) == s)
    ensures !s.reader.Finished? ==> StepsLeft(ReaderStep(s, ok)) < StepsLeft(s)
  {
    hide Actions, InHand, Leaving;
    match s.reader {
      case AtFlag =>
      case Receiving =>
      case Handling(p) =>
      case AtEmptiness =>
      case Draining =>
      case HandlingLast(p) =>
      case Finished =>
    }
  }

  lemma {:induction false} JoinOthers(order: Order, s: State, e: Event)
    requires Joining(s) && s.destructor == 3 && !e.Read?
    ensures var s' := Apply(order, s, e);
      Joining(s') && s'.destructor == 3 && s'.reader == s.reader && s'.mailbox == s.mailbox
  {
    hide Actions, ReaderStep;
  }

  lemma NothingLeft(s: State, order: Order)
    requires Inv(order, s) && StepsLeft(s) == 0
    ensures s.reader.Finished?
  {}

  lemma {:induction false} JoinRuns(order: Order, s: State, events: seq<Event>)
    requires Inv(order, s) && Joining(s) && s.destructor == 3 && Reads(events) >= StepsLeft(s)
    ensures After(order, s, events).reader.Finished?
    decreases |events|
  {
    hide Inv, Apply, ReaderStep, StepsLeft, Joining;
    if events == [] {
      NothingLeft(s, order);
    } else {
      var e := events[0];
      StepKeeps(order, s, e);
      if e.Read? {
        ReadIs(order, s, e.callbackOk);
        JoinReads(order, s, e.callbackOk);
        ReaderLeaves(s, e.callbackOk);
        FinishedIsNone(s);
      } else {
        JoinOthers(order, s, e);
        SameStepsLeft(s, Apply(order, s, e));
      }
      JoinRuns(order, Apply(order, s, e), events[1..]);
    }
  }

  lemma FinishedIsNone(s: State)
    ensures s.reader.Finished? ==> StepsLeft(s) == 0
  {}

  lemma SameStepsLeft(s: State, s': State)
    requires s'.reader == s.reader && s'.mailbox == s.mailbox
    ensures StepsLeft(s') == StepsLeft(s)
  {}

  /** The three steps of the destructor, in either order. */
  lemma {:induction false} AllActions(order: Order, s: State)
    requires Inv(order, s) && s.destructor == 3
    ensures Joining(s)
  {
    var a := Actions(order);
    match order {
      case CloseFirst => assert a[0] == PauseConsumer && a[1] == CloseMailbox && a[2] == LowerFlag;
      case FlagFirst => assert a[0] == LowerFlag && a[1] == PauseConsumer && a[2] == CloseMailbox;
    }
  }

  /**
   The destructor's join returns, in both drivers. Once it has taken its three steps, from every state of every run, the reader
   is finished after three steps for each packet queued then and three more, whatever senders and callback do meanwhile.
   */
  lemma {:induction false} JoinReturns(order: Order, senders: nat, before: seq<Event>, events: seq<Event>)
    requires
      var s := After(order, Init(senders), before);
      s.destructor == 3 && Reads(events) >= 3 * |s.mailbox.queue| + 3
    ensures After(order, Init(senders), before + events).reader.Finished?
  {
    hide After, Inv, Joining, Reads;
    var s := After(order, Init(senders), before);
    InitIsGood(order, senders);
    RunKeeps(order, Init(senders), before);
    AllActions(order, s);
    JoinRuns(order, s, events);
    AfterConcat(order, Init(senders), before, events);
  }

  // ----- which packets the .tel driver can lose -----

  predicate Pending(s: State, i: nat) { i < |s.senders| && s.senders[i].Sending? }

  /** The reader waits for a packet. */
  predicate Blocked(s: State) { s.reader.Receiving? && s.mailbox.queue == [] }

  /**
   What is to be known before the destructor starts. If senders may still start, there must be none. If they have
   stopped, none must be on its way to the mailbox, but for one for which the reader waits.
   */
  ghost predicate NobodyCanBeLate(s: State, mayStart: bool) {
    if mayStart then |s.senders| == 0 else forall i, j :: Pending(s, i) && Pending(s, j) ==> i == j && Blocked(s)
  }

  ghost predicate Allowed(mayStart: bool, events: seq<Event>) {
    mayStart || forall k :: 0 <= k < |events| ==> !events[k].Check?
  }

  /** The reader is not finished, or it handled everything, or the callback failed on the way out. */
  predicate Drained(s: State) { s.reader.Finished? && !s.gaveUp ==> s.handled == s.accepted }

  /** Nothing was late so far, and nothing can be. */
  ghost predicate Early(s: State) {
    && s.late == []
    && (s.mailbox.running ==> forall i, j :: Pending(s, i) && Pending(s, j) ==> i == j && Blocked(s))
  }

  lemma ReaderLeaves(s: State, ok: bool)
    ensures var s' := ReaderStep(s, ok);
      s'.late == s.late && s'.accepted == s.accepted && s'.senders == s.senders && s'.paused == s.paused
      && s'.mailbox.running == s.mailbox.running && s'.destructor == s.destructor && s'.flag == s.flag
  {
    match s.reader {
      case AtFlag =>
      case Receiving =>
      case Handling(p) =>
      case AtEmptiness =>
      case Draining =>
      case HandlingLast(p) =>
      case Finished =>
    }
  }

  lemma {:induction false} EarlyStays(order: Order, s: State, e: Event, mayStart: bool)
    requires Early(s) && (e.Check? ==> mayStart && |s.senders| == 0)
    ensures Early(Apply(order, s, e)) && |Apply(order, s, e).senders| == |s.senders|
  {
    hide Actions, ReaderStep;
    if e.Read? {
      ReaderLeaves(s, e.callbackOk);
      BlockedWaits(s, e.callbackOk);
      var s' := ReaderStep(s, e.callbackOk);
      forall i, j | s'.mailbox.running && Pending(s', i) && Pending(s', j) ensures i == j && Blocked(s') {
        assert Pending(s, i) && Pending(s, j);
      }
    } else if e.Post? {
      PostIsEarly(order, s, e.sender);
    } else if e.Destroy? {
      DestroyIsEarly(order, s);
    }
  }

  lemma {:induction false} PostIsEarly(order: Order, s: State, k: nat)
    requires Early(s)
    ensures Early(Apply(order, s, Post(k))) && |Apply(order, s, Post(k)).senders| == |s.senders|
  {
    var s' := Apply(order, s, Post(k));
    if s.mailbox.running && Pending(s, k) {
      assert Blocked(s);
      forall i ensures !Pending(s', i) {
        assert Pending(s, i) ==> i == k;
      }
    }
  }

  lemma {:induction false} DestroyIsEarly(order: Order, s: State)
    requires Early(s)
    ensures Early(Apply(order, s, Destroy)) && |Apply(order, s, Destroy).senders| == |s.senders|
  {
    hide Actions;
    var s' := Apply(order, s, Destroy);
    forall i, j | s'.mailbox.running && Pending(s', i) && Pending(s', j) ensures i == j && Blocked(s') {
      assert Pending(s, i) && Pending(s, j);
    }
  }

  lemma BlockedWaits(s: State, ok: bool)
    ensures Blocked(s) && s.mailbox.running ==> ReaderStep(s, ok) == s
  {}

  lemma {:induction false} EarlyRun(order: Order, s: State, events: seq<Event>, mayStart: bool)
    requires Early(s) && Allowed(mayStart, events) && (mayStart ==> |s.senders| == 0)
    ensures After(order, s, events).late == []
    decreases |events|
  {
    hide Apply;
    if events != [] {
      EarlyStays(order, s, events[0], mayStart);
      EarlyRun(order, Apply(order, s, events[0]), events[1..], mayStart);
    }
  }

  // ----- how a packet comes to be late -----

  /** One more step of a run. */
  lemma {:induction false} OneMore(s0: State, events: seq<Event>, s: State, e: Event) returns (more: seq<Event>, s': State)
    requires After(FlagFirst, s0, events) == s && Inv(FlagFirst, s)
    ensures After(FlagFirst, s0, more) == s' == Apply(FlagFirst, s, e) && Inv(FlagFirst, s')
    ensures forall mayStart :: Allowed(mayStart, events) && (e.Check? ==> mayStart) ==> Allowed(mayStart, more)
  {
    hide Apply, Inv;
    more, s' := events + [e], Apply(FlagFirst, s, e);
    AfterConcat(FlagFirst, s0, events, [e]);
    AfterCons(FlagFirst, s, e, []);
    AfterNothing(FlagFirst, s');
    assert [e] + [] == [e];
    StepKeeps(FlagFirst, s, e);
  }

  /** Nothing but the reader has moved. */
  ghost predicate OnlyReaderMoved(s: State, s': State) {
    s'.senders == s.senders && s'.paused == s.paused && s'.mailbox.running == s.mailbox.running && s'.destructor == s.destructor
  }

  function Rank(r: Reader): nat {
    match r
    case Receiving => 5
    case Handling(_) => 4
    case AtFlag => 3
    case HandlingLast(_) => 3
    case AtEmptiness => 2
    case Draining => 1
    case Finished => 0
  }

  lemma {:induction false} ReaderGoesOn(s: State)
    requires Inv(FlagFirst, s) && !s.flag && !s.reader.Finished? && !Blocked(s)
    ensures
      var s' := ReaderStep(s, true);
      && !Blocked(s') && !s'.flag && !s'.gaveUp && OnlyReaderMoved(s, s')
      && (|s'.mailbox.queue| < |s.mailbox.queue| || (s'.mailbox.queue == s.mailbox.queue && Rank(s'.reader) < Rank(s.reader)))
  {
    hide Actions;
    ReaderLeaves(s, true);
    match s.reader {
      case AtFlag =>
      case Receiving =>
      case Handling(p) =>
      case AtEmptiness =>
      case Draining =>
      case HandlingLast(p) =>
      case Finished =>
    }
  }

  /** With the flag down, a reader that does not wait handles what is queued and finishes. */
  lemma {:induction false} ReaderFinishes(s0: State, before: seq<Event>, s: State) returns (events: seq<Event>, s': State)
    requires After(FlagFirst, s0, before) == s && Inv(FlagFirst, s) && !s.flag && !Blocked(s) && !s.reader.Finished?
    ensures After(FlagFirst, s0, events) == s' && Inv(FlagFirst, s') && s'.reader.Finished? && !s'.gaveUp && OnlyReaderMoved(s, s')
    ensures forall mayStart :: Allowed(mayStart, before) ==> Allowed(mayStart, events)
    decreases |s.mailbox.queue|, Rank(s.reader)
  {
    hide Inv, Apply, ReaderStep, Blocked;
    ReaderGoesOn(s);
    ReadIs(FlagFirst, s, true);
    events, s' := OneMore(s0, before, s, Read(true));
    if !s'.reader.Finished? {
      events, s' := ReaderFinishes(s0, events, s');
    }
  }

  lemma {:induction false} LowersFlag(s: State)
    requires Inv(FlagFirst, s) && s.destructor == 0
    ensures
      var s' := Apply(FlagFirst, s, Destroy);
      !s'.flag && s'.mailbox == s.mailbox && s'.senders == s.senders && s'.reader == s.reader && s'.paused == s.paused
  {}

  /** At first nothing is closed or paused, and the reader is in its first loop. */
  lemma {:induction false} AtFirst(s: State)
    requires Inv(FlagFirst, s) && s.destructor == 0
    ensures s.flag && s.mailbox.running && !s.paused && !Leaving(s.reader) && s.late == []
  {
    hide Actions;
  }

  lemma {:induction false} PostGoesIn(s: State, i: nat)
    requires Pending(s, i) && s.mailbox.running
    ensures
      var s' := Apply(FlagFirst, s, Post(i));
      && s'.mailbox.queue != [] && s'.mailbox.running && s'.senders == s.senders[i := Idle] && s'.reader == s.reader
      && s'.paused == s.paused && s'.flag == s.flag && s'.destructor == s.destructor && s'.gaveUp == s.gaveUp
      && s'.late == if s.reader.Finished? then s.late + [s.senders[i].packet] else s.late
  {}

  lemma {:induction false} CheckPasses(s: State, i: nat, p: Packet)
    requires i < |s.senders| && s.senders[i].Idle? && !s.paused
    ensures Apply(FlagFirst, s, Check(i, p)) == s.(senders := s.senders[i := Sending(p)])
  {}

  lemma {:induction false} LateIsLost(s: State)
    requires Inv(FlagFirst, s) && s.reader.Finished? && !s.gaveUp && s.late != []
    ensures s.handled != s.accepted
  {
    hide Actions;
    assert |s.accepted| == |s.handled| + |s.late|;
  }

  /** From where nothing waits, a sender `j` on its way posts late. */
  lemma {:induction false} PostsLate(s0: State, before: seq<Event>, s: State, j: nat) returns (events: seq<Event>)
    requires After(FlagFirst, s0, before) == s && Inv(FlagFirst, s) && s.destructor == 0 && !Blocked(s) && Pending(s, j)
    ensures !Drained(After(FlagFirst, s0, events))
    ensures forall mayStart :: Allowed(mayStart, before) ==> Allowed(mayStart, events)
  {
    hide Inv, Apply, Actions;
    var s';
    AtFirst(s);
    LowersFlag(s);
    events, s' := OneMore(s0, before, s, Destroy);
    events, s' := ReaderFinishes(s0, events, s');
    PostGoesIn(s', j);
    events, s' := OneMore(s0, events, s', Post(j));
    LateIsLost(s');
  }

  /** The same, when the sender `j` is yet to start. */
  lemma {:induction false} StartsLate(s0: State, before: seq<Event>, s: State, j: nat) returns (events: seq<Event>)
    requires After(FlagFirst, s0, before) == s && Inv(FlagFirst, s) && s.destructor == 0 && !Blocked(s)
    requires j < |s.senders| && s.senders[j].Idle?
    ensures !Drained(After(FlagFirst, s0, events))
  {
    hide Inv, Apply, Actions;
    AtFirst(s);
    var p := Packet(0, 0, []);
    CheckPasses(s, j, p);
    var s';
    events, s' := OneMore(s0, before, s, Check(j, p));
    events := PostsLate(s0, events, s', j);
  }

  /** A sender that waits to post leaves a packet for the reader. */
  lemma {:induction false} Feeds(s0: State, before: seq<Event>, s: State, i: nat) returns (events: seq<Event>, s': State)
    requires After(FlagFirst, s0, before) == s && Inv(FlagFirst, s) && s.destructor == 0 && Pending(s, i)
    ensures After(FlagFirst, s0, events) == s' && Inv(FlagFirst, s') && s'.destructor == 0 && !Blocked(s')
    ensures s'.senders == s.senders[i := Idle]
    ensures forall mayStart :: Allowed(mayStart, before) ==> Allowed(mayStart, events)
  {
    hide Inv, Apply, Actions;
    AtFirst(s);
    PostGoesIn(s, i);
    events, s' := OneMore(s0, before, s, Post(i));
  }

  lemma {:induction false} SomebodyIsLate(s: State, mayStart: bool) returns (events: seq<Event>)
    requires Inv(FlagFirst, s) && s.destructor == 0 && !NobodyCanBeLate(s, mayStart)
    ensures Allowed(mayStart, events) && !Drained(After(FlagFirst, s, events))
  {
    hide Inv, Apply, Actions, Drained;
    AfterNothing(FlagFirst, s);
    events := [];
    var s' := s;
    if mayStart {
      AtFirst(s);
      if s.senders[0].Idle? {
        CheckPasses(s, 0, Packet(0, 0, []));
        events, s' := OneMore(s, [], s, Check(0, Packet(0, 0, [])));
      }
      events, s' := Feeds(s, events, s', 0);
      events := StartsLate(s, events, s', 0);
    } else {
      var i, j :| Pending(s, i) && Pending(s, j) && !(i == j && Blocked(s));
      if Blocked(s) {
        events, s' := Feeds(s, [], s, i);
      }
      events := PostsLate(s, events, s', j);
    }
  }

  /**
   The .tel driver drains, however it goes on from a state before its destructor starts, if and only if in that
   state nobody can be late: senders that may still start make it lose packets, and so do senders on their
   way to the mailbox, but for a single one for which the reader waits.
   */
  lemma {:induction false} FlagFirstDrainsIffNobodyCanBeLate(senders: nat, before: seq<Event>, mayStart: bool)
    requires After(FlagFirst, Init(senders), before).destructor == 0
    ensures
      var s := After(FlagFirst, Init(senders), before);
      (forall events :: Allowed(mayStart, events) ==> Drained(After(FlagFirst, s, events))) <==> NobodyCanBeLate(s, mayStart)
  {
    hide After, Inv, Drained, Allowed;
    var s := After(FlagFirst, Init(senders), before);
    InitIsGood(FlagFirst, senders);
    RunKeeps(FlagFirst, Init(senders), before);
    if NobodyCanBeLate(s, mayStart) {
      forall events | Allowed(mayStart, events) ensures Drained(After(FlagFirst, s, events)) {
        AtFirst(s);
        EarlyRun(FlagFirst, s, events, mayStart);
        RunKeeps(FlagFirst, s, events);
        NotLateIsHandled(After(FlagFirst, s, events));
      }
    } else {
      var events := SomebodyIsLate(s, mayStart);
    }
  }

  lemma {:induction false} NotLateIsHandled(s: State)
    requires Inv(FlagFirst, s) && s.late == []
    ensures Drained(s)
  {
    hide Actions;
    if s.reader.Finished? { assert s.handled + [] + [] == s.handled; }
  }

  /** In particular: if the senders have stopped before the destructor begins, the .tel driver drains too. */
  lemma {:induction false} FlagFirstDrainsQuietly(senders: nat, before: seq<Event>, events: seq<Event>)
    requires
      var s := After(FlagFirst, Init(senders), before);
      s.destructor == 0 && forall i :: 0 <= i < |s.senders| ==> s.senders[i].Idle?
    requires forall k :: 0 <= k < |events| ==> !events[k].Check?
    ensures
      var s := After(FlagFirst, Init(senders), before + events);
      s.reader.Finished? && !s.gaveUp ==> s.handled == s.accepted
  {
    hide After, Init;
    var s := After(FlagFirst, Init(senders), before);
    AfterConcat(FlagFirst, Init(senders), before, events);
    FlagFirstDrainsIffNobodyCanBeLate(senders, before, false);
    assert NobodyCanBeLate(s, false);
    assert Allowed(false, events);
    assert Drained(After(FlagFirst, s, events));
  }

  /** The destructor lowers the flag; the reader finds no packet and finishes; a sender posts; the mailbox is closed. */
  function LateEvents(p: Packet): seq<Event> {
    [Destroy, Read(true), Read(true), Check(0, p), Post(0), Destroy, Destroy]
  }

  lemma {:induction false} AfterCons(order: Order, s: State, e: Event, events: seq<Event>)
    ensures After(order, s, [e] + events) == After(order, Apply(order, s, e), events)
  {
    hide Apply;
    assert ([e] + events)[1..] == events;
  }

  lemma {:induction false} LateRun(order: Order, s: State, p: Packet)
    ensures
      var s3 := Apply(order, Apply(order, Apply(order, s, Destroy), Read(true)), Read(true));
      var s5 := Apply(order, Apply(order, s3, Check(0, p)), Post(0));
      After(order, s, LateEvents(p)) == Apply(order, Apply(order, s5, Destroy), Destroy)
  {
    hide Apply, After;
    var e1, e2, e3, e4 := Destroy, Read(true), Check(0, p), Post(0);
    var s1 := Apply(order, s, e1);
    var s2 := Apply(order, s1, e2);
    var s3 := Apply(order, s2, e2);
    var s4 := Apply(order, s3, e3);
    var s5 := Apply(order, s4, e4);
    assert LateEvents(p) == [e1] + ([e2] + ([e2] + ([e3] + ([e4] + ([e1] + ([e1] + []))))));
    AfterCons(order, s, e1, [e2] + ([e2] + ([e3] + ([e4] + ([e1] + ([e1] + []))))));
    AfterCons(order, s1, e2, [e2] + ([e3] + ([e4] + ([e1] + ([e1] + [])))));
    AfterCons(order, s2, e2, [e3] + ([e4] + ([e1] + ([e1] + []))));
    AfterCons(order, s3, e3, [e4] + ([e1] + ([e1] + [])));
    AfterCons(order, s4, e4, [e1] + ([e1] + []));
    AfterCons(order, s5, e1, [e1] + []);
    AfterCons(order, Apply(order, s5, e1), e1, []);
    AfterNothing(order, Apply(order, Apply(order, s5, e1), e1));
  }

  lemma AfterNothing(order: Order, s: State)
    ensures After(order, s, []) == s
  {}

  /** So a packet that the .tel driver accepted may never reach its file. */
  lemma {:induction false} FlagFirstCanLose(p: Packet)
    ensures
      var s := After(FlagFirst, Init(1), LateEvents(p));
      s.reader.Finished? && !s.gaveUp && s.accepted == [p] && s.handled == [] && s.destructor == 3
  {
    hide After;
    LateRun(FlagFirst, Init(1), p);
    var s0 := Init(1);
    assert s0.senders == [Idle];
    assert [] + [p] == [p];
  }
}
