/**
 Component states and their reports, with the failures that a report can meet on its way.

 A failing report updates a component's state, which reports again. The recursion ends because the components that
 those failures are about do not report: methods below descend on that rank.
 */
module ComponentState {

  datatype State = Ok | Initializing | Error

  /** Components are numbers below COMPONENTS; these two are the ones that reporting itself depends on. */
  const COMPONENTS := 12
  const MESSAGING := 0
  const TELEMETRY_ALLOCATOR := 1

  datatype Report = Report(overall: State, component: nat, state: State, line: nat)

  /** How the sending of one report ends, and where. */
  datatype Outcome =
    | Sent
    | ProducerMissing
    | AllocatorFailed
    | PoolExhausted
    | BufferFull

  /** 1 for a component that reports, 0 for one that does not. */
  function Rank(component: nat): nat {
    if component == MESSAGING || component == TELEMETRY_ALLOCATOR then 0 else 1
  }

  function Severity(s: State): nat {
    match s case Ok => 0 case Initializing => 1 case Error => 2
  }

  /** `worst` is a state that some component is in, or Ok, and none is worse. */
  ghost predicate IsWorst(worst: State, states: seq<State>) {
    && (worst == Ok || worst in states)
    && forall i :: 0 <= i < |states| ==> Severity(states[i]) <= Severity(worst)
  }

  /** The states after a report met with `o`. */
  function AfterReport(states: seq<State>, o: Outcome): (r: seq<State>)
    requires |states| == COMPONENTS
    ensures |r| == COMPONENTS
  {
    match o
    case Sent => states
    case AllocatorFailed => states[TELEMETRY_ALLOCATOR := Error][MESSAGING := Error]
    case _ => states[MESSAGING := Error]
  }

  /** An update, and how the report of it ends if there is one. */
  datatype Change = Change(component: nat, state: State, o: Outcome)

  /** The states after an update. */
  function Updated(states: seq<State>, registered: bool, u: Change): (r: seq<State>)
    requires |states| == COMPONENTS && u.component < COMPONENTS
    ensures |r| == COMPONENTS
  {
    var written := states[u.component := u.state];
    if registered && Rank(u.component) == 1 then AfterReport(written, u.o) else written
  }

  /** Whether the report was handed to the consumers. */
  predicate Delivered(o: Outcome) { o == Sent || o == BufferFull }

  class Components {
    const states: array<State>
    var registered: bool
    /** The reports handed to the messaging system's consumers, oldest first. */
    var reports: seq<Report>

    ghost predicate Valid()
      reads this
    {
      states.Length == COMPONENTS
    }

    /** `component_state_start` */
    constructor ()
      ensures Valid() && fresh(states) && !registered && reports == []
      ensures forall i :: 0 <= i < COMPONENTS ==> states[i] == Ok
    {
      states := new State[COMPONENTS](_ => Ok);
      registered := false;
      reports := [];
    }

    /** `component_state_register_with_messaging`, with messages enabled. */
    method Register()
      requires Valid()
      modifies this`registered
      ensures registered
    {
      registered := true;
    }

    /** `component_state_get_overall_state`: the worst state of all components. */
    method GetOverallState() returns (overall: State)
      requires Valid()
      ensures IsWorst(overall, states[..])
      ensures overall == (if Error in states[..] then Error else if Initializing in states[..] then Initializing else Ok)
    {
      overall := Ok;
      for i := 0 to COMPONENTS
        invariant IsWorst(overall, states[..i]) && overall != Error
      {
        assert states[..i + 1] == states[..i] + [states[i]];
        if states[i] == Error {
          overall := Error;
          assert states[i] in states[..];
          break;
        } else if states[i] == Initializing {
          overall := Initializing;
        }
      }
      assert overall != Error ==> states[..COMPONENTS] == states[..];
      WorstIs(overall, states[..]);
    }

    /**
     `component_state_update`. The component has the new state, whether or not there is a report and however that ends; of the
     others only the two that reporting depends on can change, to an error, each exactly when a report failed in a way that
     concerns it. Whatever the report meets, the update ends, it hands at most one report to the consumers, and that
     report carries the worst state of all components as they are after the write.
     */
    method Update(component: nat, state: State, line: nat, o: Outcome)
      requires Valid() && component < COMPONENTS
      modifies this`reports, states
      decreases Rank(component), 2
      ensures states[..] == Updated(old(states[..]), registered, Change(component, state, o))
      ensures states[component] == state
      ensures forall i :: 0 <= i < COMPONENTS && i != component && i != MESSAGING && i != TELEMETRY_ALLOCATOR ==> states[i] == old(states[i])
      ensures
        var reporting := registered && component != MESSAGING && component != TELEMETRY_ALLOCATOR;
        && (component != MESSAGING ==>
              states[MESSAGING] == if reporting && o != Sent then Error else old(states[MESSAGING]))
        && (component != TELEMETRY_ALLOCATOR ==>
              states[TELEMETRY_ALLOCATOR] == if reporting && o == AllocatorFailed then Error else old(states[TELEMETRY_ALLOCATOR]))
      ensures
        if registered && component != MESSAGING && component != TELEMETRY_ALLOCATOR && (o == Sent || o == BufferFull) then
          exists overall :: IsWorst(overall, old(states[..])[component := state])
                            && reports == old(reports) + [Report(overall, component, state, line)]
        else reports == old(reports)
    {
      states[component] := state;
      UpdatedIs(old(states[..]), registered, Change(component, state, o));
      // Without interference the state is still the one just written, so only the component decides.
      if registered && ((component != MESSAGING && component != TELEMETRY_ALLOCATOR) || states[component] != state) {
        var overall := GetOverallState();
        ProducerSend(Report(overall, component, state, line), o, component);
      }
    }

    /** `messaging_producer_send_timestamp`, on behalf of an update of `component`. */
    method ProducerSend(report: Report, o: Outcome, ghost component: nat)
      requires Valid() && Rank(component) == 1
      modifies this`reports, states
      decreases Rank(component), 1
      ensures states[..] == AfterReport(old(states[..]), o)
      ensures reports == if Delivered(o) then old(reports) + [report] else old(reports)
    {
      if o == ProducerMissing {
        Update(MESSAGING, Error, 0, o);
        return;
      }
      if o == AllocatorFailed {
        // telemetry_allocator_alloc reports first, then its caller.
        Update(TELEMETRY_ALLOCATOR, Error, 0, o);
        Update(MESSAGING, Error, 0, o);
        return;
      }
      Send(report, o, component);
    }

    /** `messaging_send`, as far as reports are concerned. */
    method Send(report: Report, o: Outcome, ghost component: nat)
      requires Valid() && Rank(component) == 1 && o != ProducerMissing && o != AllocatorFailed
      modifies this`reports, states
      decreases Rank(component), 0
      ensures states[..] == AfterReport(old(states[..]), o)
      ensures reports == if Delivered(o) then old(reports) + [report] else old(reports)
    {
      if o == PoolExhausted {
        Update(MESSAGING, Error, 0, o);
        return;
      }
      reports := reports + [report];
      if o == BufferFull {
        Update(MESSAGING, Error, 0, o);
      }
    }

    /**
     `component_state_send_overall`: every component but the two that do not report sends its state once more, at most
     once each; and if all reports get through, they are sent in the order of the components and no state changes.
     */
    method SendOverall(outcomes: seq<Outcome>)
      requires Valid() && |outcomes| == COMPONENTS
      modifies this`reports, states
      ensures old(reports) <= reports && |reports| <= |old(reports)| + COMPONENTS - 2
      ensures registered && (forall i :: 0 <= i < COMPONENTS ==> outcomes[i] == Sent) ==>
        && states[..] == old(states[..]) && |reports| == |old(reports)| + COMPONENTS - 2
        && AllReported(reports, |old(reports)|, old(states[..]))
    {
      ghost var all := registered && forall i :: 0 <= i < COMPONENTS ==> outcomes[i] == Sent;
      for i := 0 to COMPONENTS
        invariant old(reports) <= reports && |reports| <= |old(reports)| + (if i <= 2 then 0 else i - 2)
        invariant all ==> states[..] == old(states[..]) && |reports| == |old(reports)| + (if i <= 2 then 0 else i - 2)
        invariant all ==> AllReported(reports, |old(reports)|, old(states[..]))
      {
        ghost var before := states[..];
        assert before[i := states[i]] == before;
        Update(i, states[i], 0, outcomes[i]);
      }
    }
  }

  /** From `start` on, the reports give the states of the components that report, in order, and the worst of all states. */
  ghost predicate AllReported(reports: seq<Report>, start: nat, states: seq<State>) {
    forall k :: start <= k < |reports| ==>
      var i := k - start + 2;
      && i < |states| && IsWorst(reports[k].overall, states)
      && reports[k].component == i && reports[k].state == states[i] && reports[k].line == 0
  }

  lemma NotWorse(a: State, b: State, states: seq<State>)
    requires IsWorst(a, states) && IsWorst(b, states)
    ensures Severity(a) <= Severity(b)
  {
    if a != Ok {
      var i :| 0 <= i < |states| && states[i] == a;
    }
  }

  /** The worst state of all components is determined by them. */
  lemma WorstIsUnique(a: State, b: State, states: seq<State>)
    requires IsWorst(a, states) && IsWorst(b, states)
    ensures a == b
  {
    NotWorse(a, b, states);
    NotWorse(b, a, states);
  }

  /** The worst state, case by case. */
  lemma WorstIs(worst: State, states: seq<State>)
    requires IsWorst(worst, states)
    ensures worst == (if Error in states then Error else if Initializing in states then Initializing else Ok)
  {
    if Error in states {
      var i :| 0 <= i < |states| && states[i] == Error;
    } else if Initializing in states {
      var i :| 0 <= i < |states| && states[i] == Initializing;
    }
  }

  /** An update writes its component, and a report that fails the two that reporting depends on. */
  lemma UpdatedIs(states: seq<State>, registered: bool, u: Change)
    requires |states| == COMPONENTS && u.component < COMPONENTS
    ensures
      var after := Updated(states, registered, u);
      var reporting := registered && u.component != MESSAGING && u.component != TELEMETRY_ALLOCATOR;
      && after[u.component] == u.state
      && (forall i :: 0 <= i < COMPONENTS && i != u.component && i != MESSAGING && i != TELEMETRY_ALLOCATOR ==> after[i] == states[i])
      && (u.component != MESSAGING ==> after[MESSAGING] == if reporting && u.o != Sent then Error else states[MESSAGING])
      && (u.component != TELEMETRY_ALLOCATOR ==>
            after[TELEMETRY_ALLOCATOR] == if reporting && u.o == AllocatorFailed then Error else states[TELEMETRY_ALLOCATOR])
  {}

  function AfterUpdates(states: seq<State>, registered: bool, us: seq<Change>): (r: seq<State>)
    requires |states| == COMPONENTS && forall i :: 0 <= i < |us| ==> us[i].component < COMPONENTS
    ensures |r| == COMPONENTS
    decreases |us|
  {
    if us == [] then states else AfterUpdates(Updated(states, registered, us[0]), registered, us[1..])
  }

  lemma {:induction false} MessagingStaysInError(states: seq<State>, registered: bool, us: seq<Change>)
    requires |states| == COMPONENTS && states[MESSAGING] == Error
    requires forall i :: 0 <= i < |us| ==> us[i].component < COMPONENTS && us[i].component != MESSAGING
    ensures AfterUpdates(states, registered, us)[MESSAGING] == Error
    decreases |us|
  {
    if us != [] { MessagingStaysInError(Updated(states, registered, us[0]), registered, us[1..]); }
  }

  /**
   Once a report has failed, the overall state is an error, whatever other components report afterwards and
   however that ends, until the messaging component itself is updated.
   */
  lemma {:induction false} FailureShows(states: seq<State>, failed: Change, us: seq<Change>, overall: State)
    requires |states| == COMPONENTS && failed.component < COMPONENTS && Rank(failed.component) == 1 && failed.o != Sent
    requires forall i :: 0 <= i < |us| ==> us[i].component < COMPONENTS && us[i].component != MESSAGING
    requires IsWorst(overall, AfterUpdates(Updated(states, true, failed), true, us))
    ensures overall == Error
  {
    var after := AfterUpdates(Updated(states, true, failed), true, us);
    MessagingStaysInError(Updated(states, true, failed), true, us);
    assert Severity(after[MESSAGING]) == 2;
  }
}
