/**
 The messaging system of the host build as an object, one call at a time: unbounded mailboxes that can be closed.
 References are counted by the language there; what several threads do to one mailbox is in modules
 BlockingQueue and Shutdown.
 */
module HostMessaging {
  import opened Telemetry
  import opened BlockingQueue
  import B = Bus
  import BusFilters

  /** `Waits`: the call does not return until another thread acts. */
  datatype ReceiveCode = ReceiveOk | BufferEmpty | CallbackError | Terminated | Waits

  /** `accepted` are the packets the mailbox took, `taken` those that left it. */
  datatype Consumer = Consumer(filter: B.Filter, box: Monitor<B.Message>, paused: bool,
                               accepted: seq<B.Message>, taken: seq<B.Message>)

  /** Nothing is lost, repeated or reordered in a mailbox, and only what the filter wants gets in. */
  ghost predicate BoxOk(c: Consumer) {
    && c.accepted == c.taken + c.box.queue
    && forall i :: 0 <= i < |c.accepted| ==> B.Wants(c.filter, c.accepted[i])
  }

  /** What a send does to a consumer. */
  function Offered(c: Consumer, m: B.Message): Consumer {
    if !c.paused && B.Wants(c.filter, m) && c.box.running then c.(box := Enqueue(c.box, m), accepted := c.accepted + [m]) else c
  }

  /** The packets among `ms` with the bits that the filter asks for, in order. */
  ghost function Selected(f: B.Filter, ms: seq<B.Message>): (r: seq<B.Message>) {
    if ms == [] then [] else Selected(f, ms[..|ms| - 1]) + if BusFilters.Selects(f, ms[|ms| - 1]) then [ms[|ms| - 1]] else []
  }

  /** What sends of `ms` make of a consumer: nothing if it is paused or closed, or else it takes, in order, what its filter selects. */
  ghost predicate Took(before: Consumer, now: Consumer, ms: seq<B.Message>) {
    && now.filter == before.filter && now.paused == before.paused && now.taken == before.taken
    && now.box.running == before.box.running
    && var more := if before.paused || !before.box.running then [] else Selected(before.filter, ms);
       now.accepted == before.accepted + more && now.box.queue == before.box.queue + more
  }

  lemma TookNothing(c: Consumer)
    ensures Took(c, c, [])
  {}

  lemma {:induction false} TookOneMore(before: Consumer, c: Consumer, ms: seq<B.Message>, m: B.Message)
    requires Took(before, c, ms)
    ensures Took(before, Offered(c, m), ms + [m])
  {
    hide B.Wants, BusFilters.Selects;
    BusFilters.WantsIffBits(c.filter, m);
    assert (ms + [m])[..|ms|] == ms && (ms + [m])[|ms|] == m;
    assert c.accepted + [] == c.accepted && c.box.queue + [] == c.box.queue;
  }

  lemma OfferedIsOk(c: Consumer, m: B.Message)
    requires BoxOk(c)
    ensures BoxOk(Offered(c, m))
  {
    hide B.Wants;
    assert c.taken + (c.box.queue + [m]) == c.taken + c.box.queue + [m];
  }

  class System {
    var consumers: seq<Consumer>

    ghost predicate Valid()
      reads this
    {
      forall i :: 0 <= i < |consumers| ==> BoxOk(consumers[i])
    }

    constructor ()
      ensures Valid() && consumers == []
    {
      consumers := [];
    }

    /** `messaging_consumer_init`, for a new consumer. */
    method RegisterConsumer(filter: B.Filter) returns (ok: bool)
      requires Valid()
      modifies this
      ensures Valid() && (ok <==> |old(consumers)| < B.MAX_NUM_CONSUMERS)
      ensures consumers == if ok then old(consumers) + [Consumer(filter, Monitor([], true), false, [], [])] else old(consumers)
    {
      if |consumers| >= B.MAX_NUM_CONSUMERS {
        return false;
      }
      consumers := consumers + [Consumer(filter, Monitor([], true), false, [], [])];
      ok := true;
    }

    /** `messaging_consumer_init` again: the mailbox is opened and the consumer resumed. */
    method ReopenConsumer(c: nat)
      requires Valid() && c < |consumers|
      modifies this
      ensures Valid()
      ensures consumers == old(consumers)[c := old(consumers[c]).(box := old(consumers[c]).box.(running := true), paused := false)]
    {
      hide B.Wants;
      assert BoxOk(consumers[c]);
      consumers := consumers[c := consumers[c].(box := consumers[c].box.(running := true), paused := false)];
    }

    /** `messaging_send`: every unpaused, open consumer whose filter matches takes the packet. */
    method Send(m: B.Message)
      requires Valid()
      modifies this
      ensures Valid() && |consumers| == |old(consumers)|
      ensures forall i :: 0 <= i < |consumers| ==> consumers[i] == Offered(old(consumers)[i], m)
      ensures forall i :: 0 <= i < |consumers| ==> Took(old(consumers)[i], consumers[i], [m])
    {
      hide BoxOk, B.Wants;
      ghost var before := consumers;
      var i := 0;
      while i < |consumers|
        invariant 0 <= i <= |consumers| == |before| && Valid()
        invariant forall j :: 0 <= j < i ==> consumers[j] == Offered(before[j], m)
        invariant forall j :: i <= j < |consumers| ==> consumers[j] == before[j]
      {
        var c := consumers[i];
        OfferedIsOk(c, m);
        if !c.paused && B.Wants(c.filter, m) {
          if c.box.running {
            consumers := consumers[i := c.(box := Enqueue(c.box, m), accepted := c.accepted + [m])];
          }
        }
        i := i + 1;
      }
      hide Offered, Took;
      forall j | 0 <= j < |consumers| ensures Took(before[j], consumers[j], [m]) {
        TookNothing(before[j]);
        TookOneMore(before[j], before[j], [], m);
        assert [] + [m] == [m];
      }
    }

    /** Packets sent one after the other. */
    method SendAll(ms: seq<B.Message>)
      requires Valid()
      modifies this
      ensures Valid() && |consumers| == |old(consumers)|
      ensures forall i :: 0 <= i < |consumers| ==> Took(old(consumers)[i], consumers[i], ms)
    {
      hide BoxOk, Offered, Took;
      forall j | 0 <= j < |consumers| ensures Took(consumers[j], consumers[j], []) { TookNothing(consumers[j]); }
      for i := 0 to |ms|
        invariant Valid() && |consumers| == |old(consumers)|
        invariant forall j :: 0 <= j < |consumers| ==> Took(old(consumers)[j], consumers[j], ms[..i])
      {
        ghost var sent := consumers;
        Send(ms[i]);
        forall j | 0 <= j < |consumers| ensures Took(old(consumers)[j], consumers[j], ms[..i + 1]) {
          TookOneMore(old(consumers)[j], sent[j], ms[..i], ms[i]);
          assert ms[..i] + [ms[i]] == ms[..i + 1];
        }
      }
      assert ms[..|ms|] == ms;
    }

    /**
     `messaging_consumer_receive`. `accepts` is what the callback returns; the callback gets `received`. Only a blocking
     call on an open, empty mailbox has to wait.
     */
    method Receive(c: nat, blocking: bool, silent: bool, accepts: bool) returns (code: ReceiveCode, received: Option<B.Message>)
      requires Valid() && c < |consumers|
      modifies this
      ensures Valid()
      ensures
        var before := old(consumers[c]);
        if before.box.queue == [] then
          && code == (if !blocking then BufferEmpty else if before.box.running then Waits else Terminated)
          && received == None && consumers == old(consumers)
        else
          var m := before.box.queue[0];
          && consumers == old(consumers)[c := before.(box := before.box.(queue := before.box.queue[1..]), taken := before.taken + [m])]
          && received == (if silent then None else Some(m))
          && code == if silent || accepts then ReceiveOk else CallbackError
    {
      hide B.Wants;
      var from := consumers[c];
      assert BoxOk(from);
      if !blocking && |from.box.queue| == 0 {
        return BufferEmpty, None;
      }
      var (box, outcome) := Look(from.box);
      if outcome.MustWait? {
        return Waits, None;
      }
      if outcome.Closed? {
        return Terminated, None;
      }
      assert from.taken + [outcome.value] + box.queue == from.taken + from.box.queue;
      consumers := consumers[c := from.(box := box, taken := from.taken + [outcome.value])];
      code, received := ReceiveOk, None;
      if !silent {
        received := Some(outcome.value);
        if !accepts {
          code := CallbackError;
        }
      }
    }

    /**
     The loop with which `reader_thread` empties a mailbox: in order, until it is empty or the callback fails, which it
     does on the packet after the first `accepted` ones.
     */
    method Drain(c: nat, accepted: nat) returns (ghost handled: seq<B.Message>, count: nat)
      requires Valid() && c < |consumers|
      modifies this
      ensures Valid()
      ensures
        var before := old(consumers[c]);
        var queue := before.box.queue;
        && count == (if accepted < |queue| then accepted + 1 else |queue|)
        && handled == queue[..count]
        && consumers == old(consumers)[c := before.(box := before.box.(queue := queue[count..]), taken := before.taken + queue[..count])]
    {
      hide BoxOk, B.Wants;
      ghost var before, others := consumers[c], consumers;
      handled, count := [], 0;
      var code := ReceiveOk;
      assert before.box.queue[0..] == before.box.queue && before.taken + [] == before.taken;
      while code == ReceiveOk
        invariant Valid() && |consumers| == |others| && count <= |before.box.queue|
        invariant consumers == others[c := before.(box := before.box.(queue := before.box.queue[count..]),
                                                   taken := before.taken + before.box.queue[..count])]
        invariant handled == before.box.queue[..count]
        invariant if code == ReceiveOk then count <= accepted
                  else count == if accepted < |before.box.queue| then accepted + 1 else |before.box.queue|
        decreases |before.box.queue| - count, code == ReceiveOk
      {
        var received;
        code, received := Receive(c, false, false, count < accepted);
        if code != BufferEmpty {
          TakesNext(before.box.queue, count);
          assert before.taken + before.box.queue[..count] + [before.box.queue[count]] == before.taken + before.box.queue[..count + 1];
          handled := handled + [received.value];
          count := count + 1;
        }
      }
    }

    /** The loop of `messaging_pause_consumer`. */
    method Flush(c: nat)
      requires Valid() && c < |consumers|
      modifies this
      ensures Valid()
      ensures
        var before := old(consumers[c]);
        consumers == old(consumers)[c := before.(box := before.box.(queue := []), taken := before.taken + before.box.queue)]
    {
      hide BoxOk, B.Wants;
      ghost var before, others, count := consumers[c], consumers, 0;
      var code := ReceiveOk;
      assert before.box.queue[0..] == before.box.queue && before.taken + [] == before.taken;
      while code != BufferEmpty
        invariant Valid() && |consumers| == |others| && count <= |before.box.queue|
        invariant consumers == others[c := before.(box := before.box.(queue := before.box.queue[count..]),
                                                   taken := before.taken + before.box.queue[..count])]
        invariant code == BufferEmpty ==> count == |before.box.queue|
        decreases |before.box.queue| - count, code != BufferEmpty
      {
        var received;
        code, received := Receive(c, false, true, true);
        if code != BufferEmpty {
          TakesNext(before.box.queue, count);
          assert before.taken + before.box.queue[..count] + [before.box.queue[count]] == before.taken + before.box.queue[..count + 1];
          count := count + 1;
        }
      }
      assert before.box.queue[..count] == before.box.queue && before.box.queue[count..] == [];
    }

    /** `messaging_pause_consumer` */
    method PauseConsumer(c: nat, flush: bool)
      requires Valid() && c < |consumers|
      modifies this
      ensures Valid()
      ensures
        var before := old(consumers[c]);
        consumers == old(consumers)[c :=
          if flush then before.(paused := true, box := before.box.(queue := []), taken := before.taken + before.box.queue)
          else before.(paused := true)]
    {
      hide B.Wants;
      assert BoxOk(consumers[c]);
      consumers := consumers[c := consumers[c].(paused := true)];
      if flush {
        Flush(c);
      }
    }

    /** `messaging_resume_consumer` */
    method ResumeConsumer(c: nat)
      requires Valid() && c < |consumers|
      modifies this
      ensures Valid()
      ensures consumers == old(consumers)[c := old(consumers[c]).(paused := false)]
    {
      hide B.Wants;
      assert BoxOk(consumers[c]);
      consumers := consumers[c := consumers[c].(paused := false)];
    }

    /**
     What pausing is for: whatever is sent afterwards, `later`, nothing gets into the mailbox; with a flush it stays empty, and
     without one it keeps what was queued. Once resumed, the consumer takes, in order, what its filter selects of `after`.
     */
    method PauseAndResume(c: nat, flush: bool, later: seq<B.Message>, after: seq<B.Message>)
      requires Valid() && c < |consumers| && consumers[c].box.running
      modifies this
      ensures Valid() && |consumers| == |old(consumers)|
      ensures
        var before, now := old(consumers[c]), consumers[c];
        var more := Selected(before.filter, after);
        && now.accepted == before.accepted + more
        && now.taken == before.taken + (if flush then before.box.queue else [])
        && now.box.queue == (if flush then [] else before.box.queue) + more
    {
      hide BoxOk, B.Wants, Offered, Selected;
      ghost var before := consumers[c];
      PauseConsumer(c, flush);
      SendAll(later);
      assert consumers[c].accepted == before.accepted + [] == before.accepted;
      assert before.taken + [] == before.taken;
      ResumeConsumer(c);
      SendAll(after);
    }

    /** `messaging_consumer_terminate` */
    method TerminateConsumer(c: nat)
      requires Valid() && c < |consumers|
      modifies this
      ensures Valid()
      ensures consumers == old(consumers)[c := old(consumers[c]).(paused := true, box := old(consumers[c]).box.(running := false))]
    {
      hide B.Wants;
      assert BoxOk(consumers[c]);
      consumers := consumers[c := consumers[c].(paused := true, box := consumers[c].box.(running := false))];
    }

    /**
     What termination is for. Whatever is sent after it, `later`, the mailbox takes nothing more, a blocking receive
     does not wait, and once drained with a callback that succeeds everything it ever accepted was taken.
     */
    method TerminateAndDrain(c: nat, later: seq<B.Message>) returns (code: ReceiveCode)
      requires Valid() && c < |consumers|
      modifies this
      ensures Valid() && |consumers| == |old(consumers)| && code == Terminated
      ensures consumers[c].taken == consumers[c].accepted == old(consumers[c]).accepted
      ensures consumers[c].box == Monitor([], false) && consumers[c].paused
    {
      hide B.Wants;
      assert BoxOk(consumers[c]);
      TerminateConsumer(c);
      ghost var terminated := consumers[c];
      for i := 0 to |later|
        invariant Valid() && |consumers| == |old(consumers)| && consumers[c] == terminated
      {
        Send(later[i]);
      }
      ghost var handled;
      var count;
      handled, count := Drain(c, |consumers[c].box.queue|);
      assert BoxOk(consumers[c]);
      assert consumers[c].box.queue == [];
      assert consumers[c].taken + [] == consumers[c].taken;
      var received;
      code, received := Receive(c, true, false, true);
    }

    /** After that, a second initialisation makes the consumer take what it wants again. */
    method Restart(c: nat, m: B.Message)
      requires Valid() && c < |consumers| && B.Wants(consumers[c].filter, m)
      modifies this
      ensures Valid() && |consumers| == |old(consumers)|
      ensures consumers[c].accepted == old(consumers[c]).accepted + [m]
      ensures consumers[c].box == Monitor(old(consumers[c]).box.queue + [m], true)
    {
      hide B.Wants, BoxOk;
      ReopenConsumer(c);
      Send(m);
    }
  }

  lemma TakesNext(queue: seq<B.Message>, k: nat)
    requires k < |queue|
    ensures queue[k..][0] == queue[k] && queue[k..][1..] == queue[k + 1..] && queue[..k + 1] == queue[..k] + [queue[k]]
  {}
}
