/** The client's event streams: how each ends, and which are open, over any interleaving of streams,
    aborts and `closeOpenStreams`. */
module ClientStream {
  import opened Common

  /** The type of an event: two of them end a stream. */
  datatype Event = Done | Error | Other

  predicate IsLast(e: Event) { e == Done || e == Error }

  /** Normal end, broken connection, abort, a failure to open, and leaving by the reader of the events. */
  datatype Outcome = Normal | Broken | Cancelled | Refused | Left

  datatype Phase = Opening | Reading | Closed(outcome: Outcome)

  /** A stream: whether its controller is aborted, what it has delivered, and its flag `finished`. */
  datatype Stream = Stream(phase: Phase, aborted: bool, delivered: seq<Event>, finished: bool)

  const NEW := Stream(Opening, false, [], false)

  /** What happens to a stream. */
  datatype Step =
    | Opened | NoBody | NotOpened          // the response comes, has no body, or there is none
    | Arrives(event: Event)                // an event is read and delivered
    | Fails | Ends                         // the reader of the events throws, or is at its end
    | Leave                                // the consumer stops between events
    | Abort                                // the caller's signal

  /** The stream after a step; there is none where the step cannot happen. */
  function After(s: Stream, step: Step): Option<Stream> {
    match step
    case Opened => if s.phase == Opening then Some(s.(phase := Reading)) else None
    case NoBody => if s.phase == Opening then Some(s.(phase := Closed(Broken))) else None
    case NotOpened => if s.phase == Opening then Some(s.(phase := Closed(Refused))) else None
    case Arrives(event) =>
      if s.phase == Reading then Some(s.(delivered := s.delivered + [event], finished := IsLast(event))) else None
    case Fails => if s.phase == Reading then Some(s.(phase := Closed(if s.aborted then Cancelled else Broken))) else None
    case Ends => if s.phase == Reading then Some(s.(phase := Closed(if s.finished then Normal else Broken))) else None
    case Leave => if s.phase == Reading && s.delivered != [] then Some(s.(phase := Closed(Left))) else None
    case Abort => if s.phase.Closed? then None else Some(s.(aborted := true))
  }

  /** All streams so far, and the set of the open ones. */
  datatype State = State(streams: seq<Stream>, open: set<nat>)

  const START := State([], {})

  datatype Action = Open | Do(stream: nat, step: Step) | CloseAll

  function AbortAll(streams: seq<Stream>, open: set<nat>, n: nat): (r: seq<Stream>)
    requires n <= |streams|
    ensures |r| == n
    ensures forall i :: 0 <= i < n ==> r[i] == if i in open then streams[i].(aborted := true) else streams[i]
  {
    if n == 0 then []
    else AbortAll(streams, open, n - 1)
         + [if n - 1 in open then streams[n - 1].(aborted := true) else streams[n - 1]]
  }

  /** Adding on opening, deleting on closing, aborting what is in the set. */
  function Next(s: State, action: Action): Option<State> {
    match action
    case Open => Some(State(s.streams + [NEW], s.open + {|s.streams|}))
    case Do(i, step) =>
      if i >= |s.streams| then None
      else (match After(s.streams[i], step)
            case None => None
            case Some(stream) => Some(State(s.streams[i := stream], if stream.phase.Closed? then s.open - {i} else s.open)))
    case CloseAll => Some(s.(streams := AbortAll(s.streams, s.open, |s.streams|)))
  }

  /** The state after the first `n` actions, each of which can happen. */
  function Run(actions: seq<Action>, n: nat): Option<State>
    requires n <= |actions|
  {
    if n == 0 then Some(START)
    else match Run(actions, n - 1)
      case None => None
      case Some(s) => Next(s, actions[n - 1])
  }

  /** What is true of every stream at every moment. */
  predicate Sound(s: Stream) {
    && (s.finished <==> s.delivered != [] && IsLast(s.delivered[|s.delivered| - 1]))
    && (s.phase == Opening ==> s.delivered == [])
    && (s.phase == Closed(Normal) ==> s.finished)
    && (s.phase == Closed(Cancelled) ==> s.aborted)
    && (s.phase == Closed(Left) ==> s.delivered != [])
    && (s.phase == Closed(Refused) ==> s.delivered == [])
  }

  ghost predicate Inv(s: State) {
    && (forall i :: 0 <= i < |s.streams| ==> Sound(s.streams[i]))
    && (forall i: nat :: i in s.open <==> i < |s.streams| && !s.streams[i].phase.Closed?)
  }

  lemma StepKeepsSound(s: Stream, step: Step)
    requires Sound(s) && After(s, step).Some?
    ensures Sound(After(s, step).value)
  {
  }

  lemma NextKeepsInv(s: State, action: Action)
    requires Inv(s) && Next(s, action).Some?
    ensures Inv(Next(s, action).value)
  {
    var s' := Next(s, action).value;
    match action {
      case Open =>
        forall i | 0 <= i < |s'.streams| ensures Sound(s'.streams[i]) {
          assert i < |s.streams| ==> s'.streams[i] == s.streams[i];
        }
      case Do(k, step) =>
        StepKeepsSound(s.streams[k], step);
      case CloseAll => {}
    }
  }

  /** After any actions, the set of open streams is exactly the set of those that run. */
  lemma {:induction false} OpenAreRunning(actions: seq<Action>, n: nat)
    requires n <= |actions| && Run(actions, n).Some?
    ensures Inv(Run(actions, n).value)
  {
    if n > 0 {
      OpenAreRunning(actions, n - 1);
      NextKeepsInv(Run(actions, n - 1).value, actions[n - 1]);
    }
  }

  /** `closeOpenStreams` aborts every stream that runs and touches no other. */
  lemma CloseAllAborts(s: State)
    requires Inv(s)
    ensures var s' := Next(s, CloseAll).value;
            && s'.open == s.open && |s'.streams| == |s.streams|
            && forall i :: 0 <= i < |s.streams| ==>
                 if s.streams[i].phase.Closed? then s'.streams[i] == s.streams[i] else s'.streams[i] == s.streams[i].(aborted := true)
  {
  }

  // ----- how a stream ends, told from what happened -----

  /** How many streams were opened. */
  function Opens(actions: seq<Action>, n: nat): nat
    requires n <= |actions|
  {
    if n == 0 then 0 else Opens(actions, n - 1) + if actions[n - 1] == Open then 1 else 0
  }

  /** The events that arrived on a stream. */
  function EventsOn(actions: seq<Action>, n: nat, i: nat): seq<Event>
    requires n <= |actions|
  {
    if n == 0 then []
    else
      var a := actions[n - 1];
      EventsOn(actions, n - 1, i) + if a.Do? && a.stream == i && a.step.Arrives? then [a.step.event] else []
  }

  /** Whether its signal has fired or all open streams have been closed since it was opened. */
  predicate AbortedOn(actions: seq<Action>, n: nat, i: nat)
    requires n <= |actions|
  {
    n > 0
    && (AbortedOn(actions, n - 1, i) || actions[n - 1] == Do(i, Abort) || (actions[n - 1] == CloseAll && i < Opens(actions, n - 1)))
  }

  /** The stream is what these make of it; once it is closed, no abort reaches it. */
  predicate IsTold(actions: seq<Action>, n: nat, i: nat, s: Stream)
    requires n <= |actions|
  {
    s.delivered == EventsOn(actions, n, i) && (!s.phase.Closed? ==> s.aborted == AbortedOn(actions, n, i))
  }

  lemma {:induction false} NotYetOpen(actions: seq<Action>, n: nat, i: nat)
    requires n <= |actions| && Run(actions, n).Some? && |Run(actions, n).value.streams| <= i
    ensures |Run(actions, n).value.streams| == Opens(actions, n)
    ensures EventsOn(actions, n, i) == [] && !AbortedOn(actions, n, i)
  {
    if n > 0 {
      NotYetOpen(actions, n - 1, i);
    }
  }

  lemma {:induction false} OpensAreStreams(actions: seq<Action>, n: nat)
    requires n <= |actions| && Run(actions, n).Some?
    ensures |Run(actions, n).value.streams| == Opens(actions, n)
  {
    if n > 0 {
      OpensAreStreams(actions, n - 1);
    }
  }

  lemma StepIsTold(actions: seq<Action>, n: nat, i: nat, s: State)
    requires n < |actions| && i < |s.streams| == Opens(actions, n) && IsTold(actions, n, i, s.streams[i])
    requires (i in s.open <==> !s.streams[i].phase.Closed?) && Next(s, actions[n]).Some?
    ensures IsTold(actions, n + 1, i, Next(s, actions[n]).value.streams[i])
  {
  }

  lemma {:induction false} StreamsAreTold(actions: seq<Action>, n: nat, i: nat)
    requires n <= |actions| && Run(actions, n).Some? && i < |Run(actions, n).value.streams|
    ensures IsTold(actions, n, i, Run(actions, n).value.streams[i])
  {
    if n > 0 {
      var s := Run(actions, n - 1).value;
      if i < |s.streams| {
        StreamsAreTold(actions, n - 1, i);
        OpensAreStreams(actions, n - 1);
        OpenAreRunning(actions, n - 1);
        StepIsTold(actions, n - 1, i, s);
      } else {
        NotYetOpen(actions, n - 1, i);
      }
    }
  }

  predicate IsOn(action: Action, i: nat) { action.Do? && action.stream == i }

  /** Action `m` closes the stream. */
  predicate ClosesAt(actions: seq<Action>, m: nat, i: nat, closed: Stream) {
    && m < |actions| && IsOn(actions[m], i) && Run(actions, m).Some? && i < |Run(actions, m).value.streams|
    && !Run(actions, m).value.streams[i].phase.Closed?
    && After(Run(actions, m).value.streams[i], actions[m].step) == Some(closed)
  }

  lemma ClosedStays(s: State, action: Action, i: nat)
    requires i < |s.streams| && s.streams[i].phase.Closed? && i !in s.open && Next(s, action).Some?
    ensures Next(s, action).value.streams[i] == s.streams[i] && !IsOn(action, i)
  {
  }

  predicate IsClosed(actions: seq<Action>, n: nat, i: nat, closed: Stream)
    requires n <= |actions|
  {
    && Run(actions, n).Some? && i < |Run(actions, n).value.streams| && closed.phase.Closed?
    && Run(actions, n).value.streams[i] == closed
  }

  lemma ClosedBefore(actions: seq<Action>, n: nat, i: nat, closed: Stream)
    requires n < |actions| && IsClosed(actions, n + 1, i, closed)
    ensures (IsClosed(actions, n, i, closed) && !IsOn(actions[n], i)) || ClosesAt(actions, n, i, closed)
  {
    var s := Run(actions, n).value;
    OpenAreRunning(actions, n);
    if i < |s.streams| && s.streams[i].phase.Closed? {
      ClosedStays(s, actions[n], i);
    }
  }

  lemma NoneIsClosed(actions: seq<Action>, i: nat, closed: Stream)
    ensures !IsClosed(actions, 0, i, closed)
  {
  }

  /** The action that closed a stream is the last one on it. */
  lemma {:induction false} ClosedAt(actions: seq<Action>, n: nat, i: nat, closed: Stream) returns (m: nat)
    requires n <= |actions| && IsClosed(actions, n, i, closed)
    ensures m < n && ClosesAt(actions, m, i, closed)
    ensures forall k :: m < k < n ==> !IsOn(actions[k], i)
  {
    if n == 0 {
      NoneIsClosed(actions, i, closed);
    }
    ClosedBefore(actions, n - 1, i, closed);
    m := n - 1;
    if !ClosesAt(actions, n - 1, i, closed) {
      m := ClosedAt(actions, n - 1, i, closed);
    }
  }

  /** What an outcome says of the step that closed the stream, of the events before it, and of an abort before it. */
  predicate EndsAs(outcome: Outcome, step: Step, events: seq<Event>, aborted: bool) {
    var last := events != [] && IsLast(events[|events| - 1]);
    match outcome
    case Normal => step == Ends && last
    case Broken => step == NoBody || (step == Fails && !aborted) || (step == Ends && !last)
    case Cancelled => step == Fails && aborted
    case Refused => step == NotOpened
    case Left => step == Leave
  }

  /** A stream that a step closes ends as the step, the last event and the abort have it, and in no other way. */
  lemma StepEnds(s: Stream, step: Step, closed: Stream, other: Outcome)
    requires Sound(s) && !s.phase.Closed? && After(s, step) == Some(closed) && closed.phase.Closed?
    ensures closed.delivered == s.delivered
    ensures EndsAs(other, step, s.delivered, s.aborted) <==> closed.phase == Closed(other)
  {
  }

  /** Over all runs, a closed stream had one last action on it, and its outcome is told by that action, the
      last event that arrived on it and whether it had been aborted before: it is normal exactly if the reader
      came to its end after `done` or `error`, aborted exactly if the reader threw after an abort, and broken
      exactly if the response had no body, the reader threw without an abort, or it came to its end too soon. */
  lemma EndsNormallyIff(actions: seq<Action>, n: nat, i: nat) returns (m: nat, step: Step)
    requires n <= |actions| && Run(actions, n).Some? && i < |Run(actions, n).value.streams|
    requires Run(actions, n).value.streams[i].phase.Closed?
    ensures m < n && actions[m] == Do(i, step) && EventsOn(actions, m, i) == EventsOn(actions, n, i)
    ensures forall k :: m < k < n ==> !IsOn(actions[k], i)
    ensures forall outcome :: EndsAs(outcome, step, EventsOn(actions, n, i), AbortedOn(actions, m, i))
                         <==> Run(actions, n).value.streams[i].phase == Closed(outcome)
  {
    var closed := Run(actions, n).value.streams[i];
    m := ClosedAt(actions, n, i, closed);
    step := actions[m].step;
    var s := Run(actions, m).value.streams[i];
    OpenAreRunning(actions, m);
    StreamsAreTold(actions, m, i);
    StreamsAreTold(actions, n, i);
    forall outcome
      ensures s.delivered == closed.delivered
      ensures EndsAs(outcome, step, s.delivered, s.aborted) <==> closed.phase == Closed(outcome) {
      StepEnds(s, step, closed, outcome);
    }
  }

  /** A run of one stream: it opens, something happens, and it closes. */
  lemma FourActions(actions: seq<Action>, third: Stream, step: Step, last: Stream)
    requires |actions| == 4 && actions[0] == Open && actions[1] == Do(0, Opened) && actions[3] == Do(0, step)
    requires Next(State([Stream(Reading, false, [], false)], {0}), actions[2]) == Some(State([third], {0}))
    requires After(third, step) == Some(last) && last.phase.Closed?
    ensures Run(actions, 4) == Some(State([last], {}))
  {
    assert Run(actions, 0) == Some(START);
    assert Next(START, Open).value == State([NEW], {0});
    assert Run(actions, 1) == Some(State([NEW], {0}));
    assert [NEW][0 := NEW.(phase := Reading)] == [Stream(Reading, false, [], false)];
    assert Next(State([NEW], {0}), Do(0, Opened)) == Some(State([Stream(Reading, false, [], false)], {0}));
    assert Run(actions, 3) == Some(State([third], {0}));
    assert [third][0 := last] == [last] && {0} - {0} == {};
  }

  /** So the last event alone does not decide: a connection that fails after `done` is a broken stream. */
  lemma FailureAfterDone(actions: seq<Action>)
    requires actions == [Open, Do(0, Opened), Do(0, Arrives(Done)), Do(0, Fails)]
    ensures Run(actions, 4) == Some(State([Stream(Closed(Broken), false, [Done], true)], {}))
  {
    var reading, third := Stream(Reading, false, [], false), Stream(Reading, false, [Done], true);
    assert [] + [Done] == [Done];
    assert After(reading, Arrives(Done)) == Some(third);
    assert [reading][0 := third] == [third];
    FourActions(actions, third, Fails, third.(phase := Closed(Broken)));
  }

  /** And an aborted stream whose connection closes without an error is broken, not aborted. */
  lemma {:induction false} AbortedThenEnds(actions: seq<Action>)
    requires actions == [Open, Do(0, Opened), CloseAll, Do(0, Ends)]
    ensures Run(actions, 4) == Some(State([Stream(Closed(Broken), true, [], false)], {}))
  {
    var reading, third := Stream(Reading, false, [], false), Stream(Reading, true, [], false);
    assert AbortAll([reading], {0}, 1) == [third];
    FourActions(actions, third, Ends, third.(phase := Closed(Broken)));
  }

  // ----- one stream, as it is written -----

  /** How the reader of the events stops after the last one; or the consumer leaves after so many. */
  datatype Stop = AtEnd | Failing | LeavesAfter(count: nat)

  /** One stream that has opened: what it delivers, and how it ends. `aborted` is the controller when it ends. */
  method ReadStream(events: seq<Event>, stop: Stop, aborted: bool) returns (delivered: seq<Event>, outcome: Outcome)
    ensures delivered == if stop.LeavesAfter? && 0 < stop.count <= |events| then events[..stop.count] else events
    ensures outcome == if stop.LeavesAfter? && 0 < stop.count <= |events| then Left
                       else if stop == Failing then (if aborted then Cancelled else Broken)
                       else if events != [] && IsLast(events[|events| - 1]) then Normal else Broken
  {
    delivered := [];
    var finished := false;
    for n := 0 to |events|
      invariant delivered == events[..n]
      invariant finished <==> n > 0 && IsLast(events[n - 1])
      invariant stop.LeavesAfter? ==> stop.count == 0 || n < stop.count
    {
      var event := events[n];
      finished := IsLast(event);
      delivered := delivered + [event];
      if stop == LeavesAfter(n + 1) {
        return delivered, Left;
      }
    }
    if stop == Failing {
      return delivered, if aborted then Cancelled else Broken;
    }
    outcome := if finished then Normal else Broken;
  }

  lemma {:induction false} DeliveringRuns(events: seq<Event>, n: nat, s: Stream)
    requires n <= |events| && s.phase == Reading && Sound(s)
    ensures var r := Deliver(s, events, n);
            r.phase == Reading && r.aborted == s.aborted && r.delivered == s.delivered + events[..n] && Sound(r)
  {
    if n > 0 {
      DeliveringRuns(events, n - 1, s);
      assert events[..n] == events[..n - 1] + [events[n - 1]];
    }
  }

  /** The method and the state machine agree on how a stream ends that the reader closes. */
  lemma {:induction false} MethodIsMachine(events: seq<Event>, aborted: bool)
    ensures var s := Deliver(Stream(Reading, aborted, [], false), events, |events|);
            && s.delivered == events
            && After(s, Ends) == Some(s.(phase := Closed(if events != [] && IsLast(events[|events| - 1]) then Normal else Broken)))
            && After(s, Fails) == Some(s.(phase := Closed(if aborted then Cancelled else Broken)))
  {
    DeliveringRuns(events, |events|, Stream(Reading, aborted, [], false));
    assert [] + events[..|events|] == events;
  }

  function Deliver(s: Stream, events: seq<Event>, n: nat): Stream
    requires n <= |events|
  {
    if n == 0 then s
    else
      var before := Deliver(s, events, n - 1);
      if before.phase == Reading then After(before, Arrives(events[n - 1])).value else before
  }
}
