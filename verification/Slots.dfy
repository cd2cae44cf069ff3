/** The compile endpoint: a fixed number of slots, one worker process in a slot, and requests that run
    side by side with time limits, aborted connections and crashing workers. A state machine over the
    awaits of the handler. */
module Slots {
  import opened Common

  datatype Process = NotStarted | Alive | Exited(code: int) | Killed

  /** How running the worker ends: the code of a failed one, an answer (perhaps `null`), or an exception. */
  datatype RunResult = BadExit(code: int) | Answer(present: bool) | Cancelled | Failed

  datatype Outcome =
    | Unavailable | Invalid | Dropped | Busy
    | Compiled | TimedOut | Aborted | SdkMissing | Internal

  /** Where the handler of a request is. */
  datatype Phase =
    | Arrived
    | Valid
    | Acquired
    | Writing
    | Waiting
    | Draining
    | Leaving(result: RunResult)
    | Returned(result: RunResult)
    | Releasing(outcome: Outcome)
    | Done(outcome: Outcome)

  /** A request: its handler, its process, whether the client has gone, whether its time is up, and whether
      killing its process threw. */
  datatype Request = Request(phase: Phase, process: Process, aborted: bool, limited: bool, unkilled: bool)

  /** The free slots of the semaphore and all requests so far. */
  datatype State = State(free: nat, requests: seq<Request>)

  const NEW: Request := Request(Arrived, NotStarted, false, false, false)

  /** The exit code for an SDK that no longer matches the manifest. */
  const SDK_MISSING := 2

  /** The token of the worker: the time limit, linked to the connection. */
  predicate Cancelling(r: Request) { r.aborted || r.limited }

  /** What the handler answers to a result. */
  function OutcomeOf(result: RunResult, aborted: bool): Outcome {
    match result
    case Answer(present) => if present then Compiled else Internal
    case BadExit(code) => if code == SDK_MISSING then SdkMissing else Internal
    case Cancelled => if aborted then Aborted else TimedOut
    case Failed => Internal
  }

  // ----- one step of one request -----

  /** The handler goes on. */
  ghost predicate Handles(r: Request, r': Request, free: nat, free': nat) {
    && r'.aborted == r.aborted && r'.limited == r.limited
    && r'.unkilled == (r.unkilled || (r.phase.Leaving? && r.process == Alive && r'.phase.Returned?))
    && match r.phase
       case Arrived =>
         && r'.process == r.process && free' == free
         && (r'.phase in {Done(Unavailable), Done(Invalid), Valid} || (r'.phase == Done(Dropped)))
       case Valid =>
         && r'.process == r.process
         && if free > 0 then r'.phase == Acquired && free' == free - 1 else r'.phase == Done(Busy) && free' == free
       case Acquired =>
         && free' == free
         && ((r'.phase == Writing && r'.process == Alive) || (r'.phase == Returned(Failed) && r'.process == r.process))
       case Writing =>
         && r'.process == r.process && free' == free
         && (r'.phase in {Waiting, Leaving(Failed)} || (Cancelling(r) && r'.phase == Leaving(Cancelled)))
       case Waiting =>
         && r'.process == r.process && free' == free
         && ((r.process.Exited? && r'.phase == Draining) || (Cancelling(r) && r'.phase == Leaving(Cancelled)))
       case Draining =>
         && r'.process == r.process && free' == free && r.process.Exited?
         && ((if r.process.code != 0 then r'.phase == Leaving(BadExit(r.process.code))
              else r'.phase in {Leaving(Answer(true)), Leaving(Answer(false))})
             || r'.phase == Leaving(Failed) || (Cancelling(r) && r'.phase == Leaving(Cancelled)))
       case Leaving(result) =>
         && free' == free
         && if r.process == Alive
            then (r'.process == Killed && r'.phase == r.phase)
              || (r'.process in {Alive, Killed} && r'.phase == Returned(Failed))
            else r'.process == r.process && r'.phase == Returned(result)
       case Returned(result) =>
         && r'.process == r.process && free' == free && r'.phase == Releasing(OutcomeOf(result, r.aborted))
       case Releasing(outcome) =>
         && r'.process == r.process && free' == free + 1 && r'.phase == Done(outcome)
       case Done(_) => false
  }

  /** The time limit is set while the worker runs. */
  predicate HasLimit(p: Phase) {
    p.Acquired? || p.Writing? || p.Waiting? || p.Draining? || p.Leaving? || p.Returned?
  }

  /** Something happens around it: the client goes, the time is up, the process ends by itself. */
  ghost predicate Happens(r: Request, r': Request) {
    || (!r.aborted && !r.phase.Done? && r' == r.(aborted := true))
    || (!r.limited && HasLimit(r.phase) && r' == r.(limited := true))
    || (r.process == Alive && r'.process.Exited? && r' == r.(process := r'.process))
  }

  ghost predicate Moves(r: Request, r': Request, free: nat, free': nat) {
    Handles(r, r', free, free') || (free' == free && Happens(r, r'))
  }

  // ----- runs -----

  ghost predicate StepOf(s: State, s': State, i: nat) {
    && i < |s.requests| == |s'.requests| && s'.requests == s.requests[i := s'.requests[i]]
    && Moves(s.requests[i], s'.requests[i], s.free, s'.free)
  }

  /** A request comes, or one goes on. */
  ghost predicate Step(s: State, s': State) {
    s' == s.(requests := s.requests + [NEW]) || exists i :: StepOf(s, s', i)
  }

  ghost predicate IsRun(run: seq<State>, max: nat) {
    && |run| > 0 && run[0] == State(max, [])
    && forall k {:trigger run[k]} :: 0 < k < |run| ==> Step(run[k - 1], run[k])
  }

  // ----- what every step keeps -----

  predicate HoldsSlot(r: Request) {
    !r.phase.Arrived? && !r.phase.Valid? && !r.phase.Done?
  }

  function Holders(requests: seq<Request>, n: nat): nat
    requires n <= |requests|
  {
    if n == 0 then 0 else Holders(requests, n - 1) + if HoldsSlot(requests[n - 1]) then 1 else 0
  }

  function Alives(requests: seq<Request>, n: nat): nat
    requires n <= |requests|
  {
    if n == 0 then 0 else Alives(requests, n - 1) + if requests[n - 1].process == Alive then 1 else 0
  }

  /** A result says what happened. */
  predicate ResultIsTrue(result: RunResult, r: Request) {
    match result
    case BadExit(code) => r.process == Exited(code) && code != 0
    case Answer(_) => r.process == Exited(0)
    case Cancelled => Cancelling(r)
    case Failed => true
  }

  /** An outcome says what happened. */
  predicate OutcomeIsTrue(outcome: Outcome, r: Request) {
    match outcome
    case Compiled => r.process == Exited(0)
    case SdkMissing => r.process == Exited(SDK_MISSING)
    case TimedOut => r.limited
    case Aborted => r.aborted
    case Internal => true
    case Unavailable => r.process == NotStarted
    case Invalid => r.process == NotStarted
    case Dropped => r.process == NotStarted
    case Busy => r.process == NotStarted
  }

  /** What is true of a request at every moment. */
  predicate Sound(r: Request) {
    && (r.unkilled ==> r.phase in {Returned(Failed), Releasing(Internal), Done(Internal)})
    && match r.phase
       case Arrived => r.process == NotStarted && !r.limited
       case Valid => r.process == NotStarted && !r.limited
       case Acquired => r.process == NotStarted
       case Writing => r.process == Alive || r.process.Exited?
       case Waiting => r.process == Alive || r.process.Exited?
       case Draining => r.process.Exited?
       case Leaving(result) => r.process != NotStarted && ResultIsTrue(result, r)
       case Returned(result) => (r.process != Alive || r.unkilled) && ResultIsTrue(result, r)
       case Releasing(outcome) => (r.process != Alive || r.unkilled) && OutcomeIsTrue(outcome, r)
       case Done(outcome) => (r.process != Alive || r.unkilled) && OutcomeIsTrue(outcome, r)
  }

  ghost predicate Inv(s: State, max: nat) {
    s.free + Holders(s.requests, |s.requests|) == max && forall i :: 0 <= i < |s.requests| ==> Sound(s.requests[i])
  }

  lemma MoveKeepsSound(r: Request, r': Request, free: nat, free': nat)
    requires Sound(r) && Moves(r, r', free, free')
    ensures Sound(r')
  {
  }

  /** A slot is taken exactly when a request starts to hold one, and given back exactly when it stops. */
  lemma MoveCountsSlots(r: Request, r': Request, free: nat, free': nat)
    requires Moves(r, r', free, free')
    ensures free + (if HoldsSlot(r) then 1 else 0) == free' + (if HoldsSlot(r') then 1 else 0)
  {
  }

  lemma {:induction false} HoldersUpdate(requests: seq<Request>, i: nat, r': Request, n: nat)
    requires n <= |requests| && i < |requests|
    ensures Holders(requests[i := r'], n)
         == Holders(requests, n) + if i < n then (if HoldsSlot(r') then 1 else 0) - (if HoldsSlot(requests[i]) then 1 else 0) else 0
  {
    if n > 0 {
      HoldersUpdate(requests, i, r', n - 1);
    }
  }

  lemma {:induction false} HoldersPrefix(requests: seq<Request>, r: Request, n: nat)
    requires n <= |requests|
    ensures Holders(requests + [r], n) == Holders(requests, n)
  {
    if n > 0 {
      HoldersPrefix(requests, r, n - 1);
    }
  }

  lemma StepKeepsInv(s: State, s': State, max: nat)
    requires Inv(s, max) && Step(s, s')
    ensures Inv(s', max)
  {
    if s' == s.(requests := s.requests + [NEW]) {
      HoldersPrefix(s.requests, NEW, |s.requests|);
    } else {
      var i: nat :| StepOf(s, s', i);
      MoveKeepsSound(s.requests[i], s'.requests[i], s.free, s'.free);
      MoveCountsSlots(s.requests[i], s'.requests[i], s.free, s'.free);
      HoldersUpdate(s.requests, i, s'.requests[i], |s.requests|);
    }
  }

  /** In every state of every run. */
  lemma {:induction false} RunKeepsInv(run: seq<State>, max: nat, k: nat)
    requires IsRun(run, max) && k < |run|
    ensures Inv(run[k], max)
  {
    if k > 0 {
      RunKeepsInv(run, max, k - 1);
      StepKeepsInv(run[k - 1], run[k], max);
    }
  }

  /** A process that lives although its request holds no slot. */
  predicate IsStray(r: Request) { r.process == Alive && !HoldsSlot(r) }

  function Strays(requests: seq<Request>, n: nat): nat
    requires n <= |requests|
  {
    if n == 0 then 0 else Strays(requests, n - 1) + if IsStray(requests[n - 1]) then 1 else 0
  }

  /** Killing a process never threw. */
  predicate AllKilled(requests: seq<Request>) {
    forall i :: 0 <= i < |requests| ==> !requests[i].unkilled
  }

  /** A process lives in a slot, unless killing it threw: otherwise it is dead before its slot is free again. */
  lemma {:induction false} AlivesHold(requests: seq<Request>, n: nat)
    requires n <= |requests| && forall i :: 0 <= i < |requests| ==> Sound(requests[i])
    ensures Alives(requests, n) <= Holders(requests, n) + Strays(requests, n)
    ensures AllKilled(requests) ==> Strays(requests, n) == 0
  {
    if n > 0 {
      AlivesHold(requests, n - 1);
    }
  }

  /** Slots are neither lost nor made. Where no kill has thrown there are never more worker processes than
      slots; each one that survived its kill outside a slot adds one at most. */
  lemma SlotsAreKept(run: seq<State>, max: nat, k: nat)
    requires IsRun(run, max) && k < |run|
    ensures run[k].free + Holders(run[k].requests, |run[k].requests|) == max
    ensures Alives(run[k].requests, |run[k].requests|) <= max + Strays(run[k].requests, |run[k].requests|)
    ensures AllKilled(run[k].requests) ==> Alives(run[k].requests, |run[k].requests|) <= max
    ensures forall i :: 0 <= i < |run[k].requests| && IsStray(run[k].requests[i]) ==>
      run[k].requests[i].unkilled && run[k].requests[i].phase == Done(Internal)
  {
    RunKeepsInv(run, max, k);
    AlivesHold(run[k].requests, |run[k].requests|);
  }

  // ----- kills that throw -----

  ghost predicate Reachable(s: State, max: nat) {
    exists run :: IsRun(run, max) && run[|run| - 1] == s
  }

  lemma ReachNext(s: State, s': State, max: nat)
    requires Reachable(s, max) && Step(s, s')
    ensures Reachable(s', max)
  {
    var run :| IsRun(run, max) && run[|run| - 1] == s;
    var longer := run + [s'];
    forall k | 0 < k < |longer| ensures Step(longer[k - 1], longer[k]) {
      if k < |run| {
        assert Step(run[k - 1], run[k]);
      }
    }
    assert IsRun(longer, max);
  }

  /** The last request goes on. */
  lemma LastMoves(requests: seq<Request>, r: Request, r': Request, free: nat, free': nat, max: nat)
    requires Reachable(State(free, requests + [r]), max) && Moves(r, r', free, free')
    ensures Reachable(State(free', requests + [r']), max)
  {
    var s, s' := State(free, requests + [r]), State(free', requests + [r']);
    assert s'.requests == s.requests[|requests| := r'];
    assert StepOf(s, s', |requests|);
    ReachNext(s, s', max);
  }

  /** The way of a request whose time is up and whose process survives being killed. */
  function Course(k: nat): Request
    requires k <= 8
  {
    match k
    case 0 => NEW
    case 1 => NEW.(phase := Valid)
    case 2 => NEW.(phase := Acquired)
    case 3 => Request(Writing, Alive, false, false, false)
    case 4 => Request(Writing, Alive, false, true, false)
    case 5 => Request(Leaving(Cancelled), Alive, false, true, false)
    case 6 => Request(Returned(Failed), Alive, false, true, true)
    case 7 => Request(Releasing(Internal), Alive, false, true, true)
    case 8 => Request(Done(Internal), Alive, false, true, true)
  }

  /** The free slots meanwhile. */
  function FreeAt(k: nat, free: nat): nat
    requires free > 0
  {
    if 2 <= k <= 7 then free - 1 else free
  }

  lemma CourseMoves(k: nat, free: nat)
    requires k < 8 && free > 0
    ensures Moves(Course(k), Course(k + 1), FreeAt(k, free), FreeAt(k + 1, free))
  {
  }

  lemma {:induction false} CourseIsRun(requests: seq<Request>, k: nat, free: nat, max: nat)
    requires Reachable(State(free, requests), max) && free > 0 && k <= 8
    ensures Reachable(State(FreeAt(k, free), requests + [Course(k)]), max)
  {
    if k == 0 {
      ReachNext(State(free, requests), State(free, requests + [NEW]), max);
    } else {
      CourseIsRun(requests, k - 1, free, max);
      CourseMoves(k - 1, free);
      LastMoves(requests, Course(k - 1), Course(k), FreeAt(k - 1, free), FreeAt(k, free), max);
    }
  }

  lemma AlivesMore(requests: seq<Request>, r: Request)
    requires r.process == Alive
    ensures Alives(requests + [r], |requests| + 1) == Alives(requests, |requests|) + 1
  {
    AlivesPrefix(requests, r, |requests|);
  }

  lemma Beginning(max: nat)
    ensures Reachable(State(max, []), max)
  {
    assert IsRun([State(max, [])], max);
  }

  /** With kills that throw there is no bound: all slots are free again, and any number of processes live. */
  lemma {:induction false} NoBoundWithStrays(max: nat, n: nat) returns (s: State)
    requires max > 0
    ensures Reachable(s, max) && s.free == max && |s.requests| == n && Alives(s.requests, n) == n
  {
    Beginning(max);
    s := State(max, []);
    if n > 0 {
      s := NoBoundWithStrays(max, n - 1);
      CourseIsRun(s.requests, 8, max, max);
      AlivesMore(s.requests, Course(8));
      s := State(max, s.requests + [Course(8)]);
    }
  }

  lemma {:induction false} AlivesPrefix(requests: seq<Request>, r: Request, n: nat)
    requires n <= |requests|
    ensures Alives(requests + [r], n) == Alives(requests, n)
  {
    if n > 0 {
      AlivesPrefix(requests, r, n - 1);
    }
  }

  /** Releasing never overfills the semaphore. */
  lemma ReleaseFits(s: State, max: nat, i: nat)
    requires Inv(s, max) && i < |s.requests| && s.requests[i].phase.Releasing?
    ensures s.free < max
  {
    HolderCounts(s.requests, i, |s.requests|);
  }

  lemma {:induction false} HolderCounts(requests: seq<Request>, i: nat, n: nat)
    requires i < n <= |requests| && HoldsSlot(requests[i])
    ensures Holders(requests, n) > 0
    decreases n
  {
    if i < n - 1 {
      HolderCounts(requests, i, n - 1);
    }
  }

  /** A valid request is turned away exactly if all slots are held. */
  lemma BusyIffFull(s: State, s': State, max: nat, i: nat)
    requires Inv(s, max) && StepOf(s, s', i) && s.requests[i].phase == Valid && s'.requests[i].phase != Valid
    ensures s'.requests[i].phase == Done(Busy) <==> Holders(s.requests, |s.requests|) == max
  {
  }

  /** An outcome is final. */
  lemma {:induction false} OutcomeStays(run: seq<State>, max: nat, j: nat, k: nat, i: nat)
    requires IsRun(run, max) && j <= k < |run| && i < |run[j].requests| && run[j].requests[i].phase.Done?
    ensures i < |run[k].requests| && run[k].requests[i].phase == run[j].requests[i].phase
    decreases k
  {
    if j < k {
      OutcomeStays(run, max, j, k - 1, i);
      var s, s' := run[k - 1], run[k];
      assert Step(s, s');
      if s' != s.(requests := s.requests + [NEW]) {
        var m: nat :| StepOf(s, s', m);
        DoneStays(s, s', m, i);
      }
    }
  }

  lemma DoneStays(s: State, s': State, m: nat, i: nat)
    requires StepOf(s, s', m) && i < |s.requests| && s.requests[i].phase.Done?
    ensures s'.requests[i].phase == s.requests[i].phase
  {
    assert s'.requests[i] == if i == m then s'.requests[m] else s.requests[i];
  }

  // ----- every request comes to an end -----

  function PhaseRank(p: Phase): nat {
    match p
    case Arrived => 9 case Valid => 8 case Acquired => 7 case Writing => 6 case Waiting => 5 case Draining => 4
    case Leaving(_) => 3 case Returned(_) => 2 case Releasing(_) => 1 case Done(_) => 0
  }

  function Rank(r: Request): nat {
    PhaseRank(r.phase) + (match r.process case NotStarted => 2 case Alive => 1 case _ => 0)
    + (if r.aborted then 0 else 1) + if r.limited then 0 else 1
  }

  function Ranks(requests: seq<Request>, n: nat): nat
    requires n <= |requests|
  {
    if n == 0 then 0 else Ranks(requests, n - 1) + Rank(requests[n - 1])
  }

  lemma MoveLowersRank(r: Request, r': Request, free: nat, free': nat)
    requires Sound(r) && Moves(r, r', free, free')
    ensures Rank(r') < Rank(r)
  {
  }

  lemma {:induction false} RanksUpdate(requests: seq<Request>, i: nat, r': Request, n: nat)
    requires n <= |requests| && i < |requests|
    ensures Ranks(requests[i := r'], n) == Ranks(requests, n) + if i < n then Rank(r') - Rank(requests[i]) else 0
  {
    if n > 0 {
      RanksUpdate(requests, i, r', n - 1);
    }
  }

  lemma {:induction false} RanksPrefix(requests: seq<Request>, r: Request, n: nat)
    requires n <= |requests|
    ensures Ranks(requests + [r], n) == Ranks(requests, n)
  {
    if n > 0 {
      RanksPrefix(requests, r, n - 1);
    }
  }

  /** A run with `n` requests has at most 14 steps for each of them, including its arrival. */
  lemma {:induction false} RunsAreShort(run: seq<State>, max: nat, k: nat)
    requires IsRun(run, max) && k < |run|
    ensures k + Ranks(run[k].requests, |run[k].requests|) <= 14 * |run[k].requests|
  {
    if k > 0 {
      RunsAreShort(run, max, k - 1);
      var s, s' := run[k - 1], run[k];
      assert Step(s, s');
      if s' == s.(requests := s.requests + [NEW]) {
        RanksPrefix(s.requests, NEW, |s.requests|);
      } else {
        var i: nat :| StepOf(s, s', i);
        RunKeepsInv(run, max, k - 1);
        MoveLowersRank(s.requests[i], s'.requests[i], s.free, s'.free);
        RanksUpdate(s.requests, i, s'.requests[i], |s.requests|);
      }
    }
  }

  /** A request that is not done can always go on: a hung process does not stop it, since its time runs out. */
  lemma CanMove(r: Request, free: nat) returns (r': Request, free': nat)
    requires Sound(r) && !r.phase.Done?
    ensures Moves(r, r', free, free')
  {
    free' := free;
    match r.phase {
      case Arrived => r' := r.(phase := Valid);
      case Valid =>
        if free > 0 {
          r', free' := r.(phase := Acquired), free - 1;
        } else {
          r' := r.(phase := Done(Busy));
        }
      case Acquired => r' := r.(phase := Writing, process := Alive);
      case Writing => r' := r.(phase := Waiting);
      case Waiting =>
        if Cancelling(r) {
          r' := r.(phase := Leaving(Cancelled));
        } else {
          r' := r.(limited := true);
        }
      case Draining => r' := r.(phase := Leaving(Failed));
      case Leaving(result) => r' := if r.process == Alive then r.(process := Killed) else r.(phase := Returned(result));
      case Returned(result) => r' := r.(phase := Releasing(OutcomeOf(result, r.aborted)));
      case Releasing(outcome) => r', free' := r.(phase := Done(outcome)), free + 1;
    }
  }

  /** So where no request can go on, every one has its outcome, every slot is free, and every process is dead
      whose kill did not throw. */
  lemma EveryRunEnds(s: State, max: nat)
    requires Inv(s, max)
    requires !exists s', i: nat :: StepOf(s, s', i) && !s.requests[i].phase.Done?
    ensures forall i :: 0 <= i < |s.requests| ==>
      s.requests[i].phase.Done? && (s.requests[i].process != Alive || s.requests[i].unkilled)
    ensures s.free == max
  {
    forall i | 0 <= i < |s.requests|
      ensures s.requests[i].phase.Done? && (s.requests[i].process != Alive || s.requests[i].unkilled) {
      if !s.requests[i].phase.Done? {
        var r', free' := CanMove(s.requests[i], s.free);
        assert StepOf(s, State(free', s.requests[i := r']), i);
      }
    }
    NoneHold(s.requests, |s.requests|);
  }

  lemma {:induction false} NoneHold(requests: seq<Request>, n: nat)
    requires n <= |requests| && forall i :: 0 <= i < |requests| ==> requests[i].phase.Done?
    ensures Holders(requests, n) == 0
  {
    if n > 0 {
      NoneHold(requests, n - 1);
    }
  }

  /** The outcome of a run of the worker: compiled exactly after an answer that is not null, and so on; all that is
      left is an internal error. */
  predicate Follows(outcome: Outcome, result: RunResult, aborted: bool) {
    && (outcome == Compiled <==> result == Answer(true))
    && (outcome == SdkMissing <==> result == BadExit(2))
    && (outcome == Aborted <==> result == Cancelled && aborted)
    && (outcome == TimedOut <==> result == Cancelled && !aborted)
    && (outcome == Internal <==> || result == Failed || result == Answer(false) || (result.BadExit? && result.code != 2))
  }

  /** The request was turned away before it had a slot, or its outcome follows from what its worker gave at step `j`. */
  ghost predicate Explained(run: seq<State>, outcome: Outcome, process: Process, j: nat, k: nat, i: nat) {
    || (outcome in {Unavailable, Invalid, Dropped, Busy} && process == NotStarted)
    || (&& j < k < |run| && i < |run[j].requests| && run[j].requests[i].phase.Returned?
        && Follows(outcome, run[j].requests[i].phase.result, run[j].requests[i].aborted))
  }

  function Given(p: Phase): Option<Outcome> {
    match p case Releasing(outcome) => Some(outcome) case Done(outcome) => Some(outcome) case _ => None
  }

  /** A step that gives an outcome. */
  lemma StepGives(s: State, s': State, i: nat, outcome: Outcome)
    requires Step(s, s') && i < |s'.requests| && Given(s'.requests[i].phase) == Some(outcome)
    requires i < |s.requests| ==> Sound(s.requests[i])
    ensures i < |s.requests|
    ensures var r, r' := s.requests[i], s'.requests[i];
            || Given(r.phase) == Some(outcome)
            || (outcome in {Unavailable, Invalid, Dropped, Busy} && r'.process == NotStarted)
            || (r.phase.Returned? && Follows(outcome, r.phase.result, r.aborted))
    ensures Given(s.requests[i].phase) == Some(outcome) && s.requests[i].process == NotStarted ==> s'.requests[i].process == NotStarted
  {
    if s' == s.(requests := s.requests + [NEW]) {
    } else {
      var m: nat :| StepOf(s, s', m);
      assert s'.requests[i] == if i == m then s'.requests[m] else s.requests[i];
    }
  }

  lemma {:induction false} OutcomeFollows(run: seq<State>, max: nat, k: nat, i: nat, outcome: Outcome) returns (j: nat)
    requires IsRun(run, max) && k < |run| && i < |run[k].requests| && Given(run[k].requests[i].phase) == Some(outcome)
    ensures Explained(run, outcome, run[k].requests[i].process, j, k, i)
  {
    RunKeepsInv(run, max, k - 1);
    var s, s' := run[k - 1], run[k];
    assert Step(s, s');
    StepGives(s, s', i, outcome);
    j := k - 1;
    if Given(s.requests[i].phase) == Some(outcome) {
      j := OutcomeFollows(run, max, k - 1, i, outcome);
    }
  }

  /** What an outcome tells about the process, the clock and the client, and from which result of the worker it
      followed, if the request came to have one. */
  lemma OutcomesAreTrue(run: seq<State>, max: nat, k: nat, i: nat) returns (j: nat)
    requires IsRun(run, max) && k < |run| && i < |run[k].requests| && run[k].requests[i].phase.Done?
    ensures var r := run[k].requests[i];
            && OutcomeIsTrue(r.phase.outcome, r)
            && (r.process == Alive ==> r.unkilled) && (r.unkilled ==> r.phase.outcome == Internal)
            && (r.process == Killed ==> r.phase.outcome in {TimedOut, Aborted, Internal})
    ensures Explained(run, run[k].requests[i].phase.outcome, run[k].requests[i].process, j, k, i)
  {
    RunKeepsInv(run, max, k);
    j := OutcomeFollows(run, max, k, i, run[k].requests[i].phase.outcome);
  }
}
