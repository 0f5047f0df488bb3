/**
 The reference-counted message bus as a machine that interleaves any number of threads.

 Every thread has a stack of frames, because a callback may send and receive again. A machine step
 is one access to shared state: one mailbox operation, one change of a count (together with the free
 that follows a count of zero), one read of the pause flag. `Order` says how posting to a mailbox
 and retaining the reference follow each other.
 */
module Bus {
  import opened Telemetry

  const MAX_NUM_TELEMETRY_REFS := 1000
  const MAX_NUM_CONSUMERS := 20

  /** A packet given to `messaging_send`: which one, and what the filters look at. */
  datatype Message = Message(handle: nat, id: bv16, flags: bv16)

  /** A reference is a slot of the pool and what was stored in it. */
  datatype Ref = Ref(slot: nat, message: Message)

  datatype Filter = Filter(source: bv16, sourceMask: bv16, metadata: bv16, metadataMask: bv16)

  /** The bits of a field that the mask lets through. */
  function Under(mask: bv16, field: bv16): bv16 { mask & field }

  predicate Wants(f: Filter, m: Message) {
    Under(f.sourceMask, m.id) == f.source && Under(f.metadataMask, m.flags) == f.metadata
  }

  datatype Taken = Taken(message: Message, silent: bool)

  /** A consumer; `offered` and `taken` record what entered and what left its mailbox. */
  datatype Consumer = Consumer(filter: Filter, capacity: nat, mailbox: seq<Ref>, paused: bool,
                               offered: seq<Message>, taken: seq<Taken>)

  /**
   CheckAndEnqueue: one step for the check of a consumer and, if it passes, all that follows for it.
   WholeEnqueue: posting, dropping the oldest, posting again and retaining are one step.
   PostRetain: a post and its retain are one step.
   PostThenRetain: as the code has it.
   RetainThenPost: the repair: retain, then post, and release if the post fails.
   */
  datatype Order = CheckAndEnqueue | WholeEnqueue | PostRetain | PostThenRetain | RetainThenPost

  /** Where a sender stands with the consumer it has come to; `held` when it has retained the reference for the post. */
  datatype Phase =
    | Checking
    | Retaining
    | Posting(held: bool)
    | Full(held: bool)
    | Dropping(held: bool, oldest: Ref)
    | Retrying(held: bool)
    | Posted

  predicate Held(p: Phase) {
    !p.Checking? && !p.Retaining? && !p.Posted? && p.held
  }

  datatype Frame =
    /** `messaging_send`: the sender's own reference, the consumers still to do, and whether all took the packet. */
    | Sending(ref: Ref, next: nat, last: nat, phase: Phase, ok: bool)
    /** `messaging_consumer_receive` between the fetch and the release. */
    | Holding(ref: Ref)

  /** What became of a packet: the reference made for it, if the pool had one, and how often it was freed. */
  datatype Fate = Fate(home: Option<Ref>, frees: nat)

  /** `broken` tells that a reference was freed while it had an owner, or used after it was freed. */
  datatype State = State(
    free: set<nat>,
    counts: map<Ref, nat>,
    consumers: seq<Consumer>,
    threads: seq<seq<Frame>>,
    fates: map<nat, Fate>,
    broken: bool,
    bufferFull: nat)

  datatype Event =
    | Register(filter: Filter, capacity: nat)
    | SetPaused(consumer: nat, paused: bool)
    | BeginSend(thread: nat, slot: nat, message: Message)
    | Fetch(thread: nat, consumer: nat, silent: bool)
    | Advance(thread: nat)

  /** The start: all slots of the pool are free, nobody is registered, every thread is outside the bus. */
  function Init(pool: set<nat>, threads: nat): State {
    State(pool, map[], [], seq(threads, _ => []), map[], false, 0)
  }

  // ----- who owns what -----

  function If(b: bool): nat { if b then 1 else 0 }

  /** How many times a frame answers for reference `r`. */
  function Own(f: Frame, r: Ref): nat {
    match f
    case Holding(q) => If(q == r)
    case Sending(q, _, _, phase, _) => If(q == r) + If(Held(phase) && q == r) + If(phase.Dropping? && phase.oldest == r)
  }

  /** Whether it has posted `r` and not yet retained it. */
  function Due(f: Frame, r: Ref): nat { If(f.Sending? && f.phase == Posted && f.ref == r) }

  function Copies(mailbox: seq<Ref>, r: Ref): nat { multiset(mailbox)[r] }

  function InMail(cs: seq<Consumer>, r: Ref): nat {
    if cs == [] then 0 else Copies(cs[0].mailbox, r) + InMail(cs[1..], r)
  }

  function InStack(stack: seq<Frame>, r: Ref): nat {
    if stack == [] then 0 else InStack(stack[..|stack| - 1], r) + Own(stack[|stack| - 1], r)
  }

  function InThreads(threads: seq<seq<Frame>>, r: Ref): nat {
    if threads == [] then 0 else InStack(threads[0], r) + InThreads(threads[1..], r)
  }

  function DueInStack(stack: seq<Frame>, r: Ref): nat {
    if stack == [] then 0 else DueInStack(stack[..|stack| - 1], r) + Due(stack[|stack| - 1], r)
  }

  function DueInThreads(threads: seq<seq<Frame>>, r: Ref): nat {
    if threads == [] then 0 else DueInStack(threads[0], r) + DueInThreads(threads[1..], r)
  }

  /** How many still need `r`: mailbox entries, sends in progress, fetches not yet released. */
  function Owners(s: State, r: Ref): nat { InMail(s.consumers, r) + InThreads(s.threads, r) }

  /** How many posts of `r` are still to be retained. */
  function Owed(s: State, r: Ref): nat { DueInThreads(s.threads, r) }

  // ----- the parts of a step -----

  function Push(s: State, t: nat, f: Frame): State
    requires t < |s.threads|
  {
    s.(threads := s.threads[t := s.threads[t] + [f]])
  }

  function Pop(s: State, t: nat): State
    requires t < |s.threads| && s.threads[t] != []
  {
    s.(threads := s.threads[t := s.threads[t][..|s.threads[t]| - 1]])
  }

  function Deposit(s: State, c: nat, r: Ref): State
    requires c < |s.consumers|
  {
    var to := s.consumers[c];
    s.(consumers := s.consumers[c := to.(mailbox := to.mailbox + [r], offered := to.offered + [r.message])])
  }

  function TakeOldest(s: State, c: nat, silent: bool): State
    requires c < |s.consumers| && s.consumers[c].mailbox != []
  {
    var from := s.consumers[c];
    s.(consumers := s.consumers[c :=
      from.(mailbox := from.mailbox[1..], taken := from.taken + [Taken(from.mailbox[0].message, silent)])])
  }

  /** `telemetry_reference_create` and storing the packet in the new reference. */
  function Create(s: State, r: Ref): State {
    s.(free := s.free - {r.slot}, counts := s.counts[r := 1], fates := s.fates[r.message.handle := Fate(Some(r), 0)])
  }

  function Retain(s: State, r: Ref): State {
    if r !in s.counts then s.(broken := true) else s.(counts := s.counts[r := s.counts[r] + 1])
  }

  /** `telemetry_allocator_free` */
  function MarkFreed(fates: map<nat, Fate>, handle: nat): map<nat, Fate> {
    fates[handle := if handle in fates then fates[handle].(frees := fates[handle].frees + 1) else Fate(None, 1)]
  }

  function FreePacket(s: State, handle: nat): State {
    s.(fates := MarkFreed(s.fates, handle))
  }

  /** `telemetry_reference_release`, by an owner that is no longer counted as one. */
  function Release(s: State, r: Ref): State {
    if r !in s.counts then s.(broken := true)
    else if s.counts[r] > 1 then s.(counts := s.counts[r := s.counts[r] - 1])
    else
      var freed := FreePacket(s, r.message.handle);
      freed.(counts := s.counts - {r}, free := s.free + {r.slot}, broken := s.broken || Owners(s, r) > 0)
  }

  // ----- the steps -----

  function Top(s: State, t: nat): Option<Frame> {
    if t < |s.threads| && s.threads[t] != [] then Some(s.threads[t][|s.threads[t]| - 1]) else None
  }

  function Replace(s: State, t: nat, f: Frame): State
    requires t < |s.threads| && s.threads[t] != []
  {
    Push(Pop(s, t), t, f)
  }

  /** On to the next consumer, after this one took the packet or, if not `ok`, did not. */
  function NextConsumer(f: Frame, ok: bool): Frame
    requires f.Sending?
  {
    f.(next := f.next + 1, phase := Checking, ok := f.ok && ok)
  }

  /**
   A post to a mailbox that has room. A count that was retained for it goes with it; otherwise the
   retain is part of the step, or, in the code's order, still to come.
   */
  function Post(order: Order, s: State, t: nat, f: Frame): State
    requires t < |s.threads| && s.threads[t] != [] && f.Sending? && f.next < |s.consumers|
  {
    var posted := Deposit(Pop(s, t), f.next, f.ref);
    if Held(f.phase) then Push(posted, t, NextConsumer(f, true))
    else if order == PostThenRetain then Push(posted, t, f.(phase := Posted))
    else Push(Retain(posted, f.ref), t, NextConsumer(f, true))
  }

  /** The second post failed too: `messaging_send` will report it. */
  function PostFailed(s: State, t: nat, f: Frame): State
    requires t < |s.threads| && s.threads[t] != [] && f.Sending?
  {
    var s' := Replace(s, t, NextConsumer(f, false));
    if Held(f.phase) then Release(s', f.ref) else s'
  }

  predicate HasRoom(s: State, c: nat)
    requires c < |s.consumers|
  {
    |s.consumers[c].mailbox| < s.consumers[c].capacity
  }

  function PostOrFail(order: Order, s: State, t: nat, f: Frame): State
    requires t < |s.threads| && s.threads[t] != [] && f.Sending? && f.next < |s.consumers|
  {
    if HasRoom(s, f.next) then Post(order, s, t, f) else PostFailed(s, t, f)
  }

  /** `messaging_consumer_receive(consumer, false, true)`, as one step. */
  function DropOldest(s: State, c: nat): State
    requires c < |s.consumers|
  {
    if s.consumers[c].mailbox == [] then s else Release(TakeOldest(s, c, true), s.consumers[c].mailbox[0])
  }

  /** The next step of a sender, which has consumer `f.next` before it. */
  function Offer(order: Order, s: State, t: nat, f: Frame): State
    requires t < |s.threads| && s.threads[t] != [] && f.Sending? && f.next < |s.consumers|
  {
    var c := s.consumers[f.next];
    match f.phase
    case Checking =>
      if c.paused || !Wants(c.filter, f.ref.message) then Replace(s, t, NextConsumer(f, true))
      else if order == CheckAndEnqueue then
        PostOrFail(order, if HasRoom(s, f.next) then s else DropOldest(s, f.next), t, f)
      else Replace(s, t, f.(phase := if order == RetainThenPost then Retaining else Posting(false)))
    case Retaining => Push(Retain(Pop(s, t), f.ref), t, f.(phase := Posting(true)))
    case Posting(held) =>
      if HasRoom(s, f.next) then Post(order, s, t, f)
      else if order == WholeEnqueue then PostOrFail(order, DropOldest(s, f.next), t, f)
      else Replace(s, t, f.(phase := Full(held)))
    case Full(held) =>
      if c.mailbox == [] then Replace(s, t, f.(phase := Retrying(held)))
      else Push(TakeOldest(Pop(s, t), f.next, true), t, f.(phase := Dropping(held, c.mailbox[0])))
    case Dropping(held, oldest) => Release(Replace(s, t, f.(phase := Retrying(held))), oldest)
    case Retrying(_) => PostOrFail(order, s, t, f)
    case Posted => Push(Retain(Pop(s, t), f.ref), t, NextConsumer(f, true))
  }

  /**
   The next step of a thread inside `messaging_send`, or at the end of `messaging_consumer_receive`. Consumers
   stay registered, so `last`, their number when the send began, never exceeds their number now.
   */
  function Proceed(order: Order, s: State, t: nat, f: Frame): State
    requires t < |s.threads| && s.threads[t] != []
  {
    match f
    case Holding(r) => Release(Pop(s, t), r)
    case Sending(r, next, last, phase, ok) =>
      if next < last && next < |s.consumers| then Offer(order, s, t, f)
      else if phase == Checking then
        Release(Pop(s, t), r).(bufferFull := if ok then s.bufferFull else s.bufferFull + 1)
      else s
  }

  /** A thread may start to send or receive when it runs no bus function, or from within a callback. */
  predicate Ready(s: State, t: nat) {
    t < |s.threads| && (s.threads[t] == [] || Top(s, t).value.Holding?)
  }

  /**
   One step; an event that cannot happen, and any event once the run is broken, changes nothing. A packet is given
   to the bus once: with `messaging_send` its owner gives it up.
   */
  function Apply(order: Order, s: State, e: Event): State {
    if s.broken then s else
      match e
      case Register(filter, capacity) =>
        if |s.consumers| >= MAX_NUM_CONSUMERS then s
        else s.(consumers := s.consumers + [Consumer(filter, capacity, [], false, [], [])])
      case SetPaused(c, paused) =>
        if c >= |s.consumers| then s else s.(consumers := s.consumers[c := s.consumers[c].(paused := paused)])
      case BeginSend(t, slot, m) =>
        if !Ready(s, t) || m.handle in s.fates then s
        else if s.free == {} then FreePacket(s, m.handle)
        else if slot !in s.free then s
        else Push(Create(s, Ref(slot, m)), t, Sending(Ref(slot, m), 0, |s.consumers|, Checking, true))
      case Fetch(t, c, silent) =>
        if !Ready(s, t) || c >= |s.consumers| || s.consumers[c].mailbox == [] then s
        else Push(TakeOldest(s, c, silent), t, Holding(s.consumers[c].mailbox[0]))
      case Advance(t) =>
        if Top(s, t).None? then s else Proceed(order, s, t, Top(s, t).value)
  }

  function After(order: Order, s: State, events: seq<Event>): State
    decreases |events|
  {
    if events == [] then s else After(order, Apply(order, s, events[0]), events[1..])
  }
}
