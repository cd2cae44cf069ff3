/** The handler of one compile request as it is written, with its `try` and `finally`: whatever its awaits
    give, it walks the state machine of the endpoint. */
module Handler {
  import opened Common
  import opened Pieces
  import opened Slots

  // ----- reading the body -----

  /** Copies what the reads give, up to a limit: all of it, or no more than the limit and no success. */
  method CopyLimited(chunks: seq<seq<byte>>, limit: nat) returns (ok: bool, target: seq<byte>)
    ensures ok <==> |Concat(chunks, |chunks|)| <= limit
    ensures ok ==> target == Concat(chunks, |chunks|)
    ensures !ok ==> exists n :: 0 <= n < |chunks| && target == Concat(chunks, n) && |target| <= limit < |Concat(chunks, n + 1)|
  {
    target := [];
    var total := 0;
    for n := 0 to |chunks|
      invariant target == Concat(chunks, n) && total == |target| <= limit
    {
      var chunk := chunks[n];
      total := total + |chunk|;
      if total > limit {
        ConcatGrows(chunks, n + 1, |chunks|);
        return false, target;
      }
      target := target + chunk;
    }
    ok := true;
  }

  lemma {:induction false} ConcatGrows(chunks: seq<seq<byte>>, m: nat, n: nat)
    requires m <= n <= |chunks|
    ensures |Concat(chunks, m)| <= |Concat(chunks, n)|
    decreases n
  {
    if m < n {
      ConcatGrows(chunks, m, n - 1);
    }
  }

  // ----- one request -----

  /** How an await ends: it completes, the token cancels it (the client has gone, or the time is up), or it fails. */
  datatype Await = Completes | Cancels(byClient: bool) | Breaks

  /** Killing a process: it dies, or an exception is thrown, whether or not it died. */
  datatype Kill = Dies | Throws(dies: bool)

  /** What a request meets after it is found valid: whether the process starts, its awaits, its exit code, its
      answer (none that can be read, or one that may be `null`), how a kill ends, and whether the client goes
      before the catch. */
  datatype Fate = Fate(starts: bool, writing: Await, exiting: Await, code: int, copying: Await, answer: Option<bool>,
                       kill: Kill, goes: bool)

  class Semaphore {
    var free: nat

    /** `Wait(0)`. */
    method TryTake() returns (taken: bool)
      modifies this
      ensures taken == (old(free) > 0) && free == if taken then old(free) - 1 else old(free)
    {
      taken := free > 0;
      if taken {
        free := free - 1;
      }
    }

    method Release()
      modifies this
      ensures free == old(free) + 1
    {
      free := free + 1;
    }
  }

  class Worker {
    var process: Process
  }

  /** A request and the free slots at one moment. */
  datatype Moment = Moment(request: Request, free: nat)

  /** Up to moment `n`, each is a move of the state machine from the one before. */
  ghost predicate Walks(path: seq<Moment>, n: nat)
    requires n < |path|
  {
    n == 0
    || (Walks(path, n - 1) && Moves(path[n - 1].request, path[n].request, path[n - 1].free, path[n].free))
  }

  /** A walk from `first` to `last`. */
  ghost predicate IsWalk(path: seq<Moment>, first: Moment, last: Moment) {
    |path| > 0 && path[0] == first && path[|path| - 1] == last && Walks(path, |path| - 1)
  }

  lemma WalksStill(path: seq<Moment>, more: Moment, n: nat)
    requires n < |path| && Walks(path, n)
    ensures Walks(path + [more], n)
  {
    if n > 0 {
      WalksStill(path, more, n - 1);
    }
  }

  /** One more move. */
  lemma {:induction false} Walk(path: seq<Moment>, first: Moment, last: Moment, next: Moment) returns (longer: seq<Moment>)
    requires IsWalk(path, first, last) && Moves(last.request, next.request, last.free, next.free)
    ensures IsWalk(longer, first, next)
  {
    longer := path + [next];
    WalksStill(path, next, |path| - 1);
  }

  /** The machine gets from one moment to another. */
  ghost predicate Reaches(first: Moment, last: Moment) {
    exists path :: IsWalk(path, first, last)
  }

  lemma Stay(m: Moment)
    ensures Reaches(m, m)
  {
    assert IsWalk([m], m, m);
  }

  lemma Step(first: Moment, last: Moment, next: Moment)
    requires Reaches(first, last) && Moves(last.request, next.request, last.free, next.free)
    ensures Reaches(first, next)
  {
    var path :| IsWalk(path, first, last);
    var longer := Walk(path, first, last, next);
  }

  lemma Reach(first: Moment, second: Moment, third: Moment)
    requires Reaches(first, second) && Reaches(second, third)
    ensures Reaches(first, third)
  {
    var path :| IsWalk(path, second, third);
    ReachAlong(first, second, path, |path| - 1);
  }

  lemma {:induction false} ReachAlong(first: Moment, second: Moment, path: seq<Moment>, n: nat)
    requires Reaches(first, second) && n < |path| && path[0] == second && Walks(path, n)
    ensures Reaches(first, path[n])
  {
    if n > 0 {
      ReachAlong(first, second, path, n - 1);
      Step(first, path[n - 1], path[n]);
    }
  }

  /** The token fires, and the await throws. */
  lemma Cancel(first: Moment, m: Moment, byClient: bool)
    requires Reaches(first, m) && !m.request.aborted && !m.request.limited && !m.request.unkilled
    requires m.request.phase == Writing || m.request.phase == Waiting || (m.request.phase == Draining && m.request.process.Exited?)
    ensures Reaches(first, Moment(Request(Leaving(Cancelled), m.request.process, byClient, !byClient, false), m.free))
  {
    var r := m.request;
    var fired := if byClient then r.(aborted := true) else r.(limited := true);
    Step(first, m, Moment(fired, m.free));
    Step(first, Moment(fired, m.free), Moment(fired.(phase := Leaving(Cancelled)), m.free));
  }

  /** How writing to the process, waiting for it and reading its answer end. */
  function ResultOf(fate: Fate): RunResult {
    if fate.writing.Cancels? then Cancelled
    else if fate.writing == Breaks then Failed
    else if fate.exiting.Cancels? then Cancelled
    else if fate.copying.Cancels? then Cancelled
    else if fate.copying == Breaks then Failed
    else if fate.code != 0 then BadExit(fate.code)
    else if fate.answer.Some? then Answer(fate.answer.value)
    else Failed
  }

  /** Whether the process has ended by itself when they end. */
  predicate Ended(fate: Fate) {
    fate.writing == Completes && fate.exiting == Completes
  }

  /** The await whose cancellation ends it. */
  predicate ByClient(fate: Fate) {
    if fate.writing.Cancels? then fate.writing.byClient
    else if fate.writing == Breaks then false
    else if fate.exiting.Cancels? then fate.exiting.byClient
    else fate.copying.Cancels? && fate.copying.byClient
  }

  function Leaves(fate: Fate): Request {
    Request(Leaving(ResultOf(fate)), if Ended(fate) then Exited(fate.code) else Alive,
            ByClient(fate), ResultOf(fate) == Cancelled && !ByClient(fate), false)
  }

  /** The machine can end so. */
  lemma MachineLeaves(fate: Fate, free: nat)
    requires fate.exiting != Breaks
    ensures Reaches(Moment(Request(Writing, Alive, false, false, false), free), Moment(Leaves(fate), free))
  {
    var first := Moment(Request(Writing, Alive, false, false, false), free);
    Stay(first);
    if fate.writing.Cancels? {
      Cancel(first, first, fate.writing.byClient);
    } else if fate.writing == Breaks {
      Step(first, first, Moment(Leaves(fate), free));
    } else {
      var waiting := Moment(Request(Waiting, Alive, false, false, false), free);
      Step(first, first, waiting);
      if fate.exiting.Cancels? {
        Cancel(first, waiting, fate.exiting.byClient);
      } else {
        MachineDrains(first, fate, free);
      }
    }
  }

  lemma MachineDrains(first: Moment, fate: Fate, free: nat)
    requires fate.writing == fate.exiting == Completes
    requires Reaches(first, Moment(Request(Waiting, Alive, false, false, false), free))
    ensures Reaches(first, Moment(Leaves(fate), free))
  {
    var waiting := Moment(Request(Waiting, Alive, false, false, false), free);
    var exited := Moment(Request(Waiting, Exited(fate.code), false, false, false), free);
    var draining := Moment(Request(Draining, Exited(fate.code), false, false, false), free);
    Step(first, waiting, exited);
    Step(first, exited, draining);
    if fate.copying.Cancels? {
      Cancel(first, draining, fate.copying.byClient);
    } else {
      Step(first, draining, Moment(Leaves(fate), free));
    }
  }

  /** Feeds the process, waits for it and reads its answer. */
  method Converse(w: Worker, fate: Fate) returns (result: RunResult)
    requires w.process == Alive && fate.exiting != Breaks
    modifies w
    ensures result == ResultOf(fate) && w.process == if Ended(fate) then Exited(fate.code) else Alive
  {
    if fate.writing.Cancels? {
      return Cancelled;
    }
    if fate.writing == Breaks {
      return Failed;
    }
    if fate.exiting.Cancels? {
      return Cancelled;
    }
    w.process := Exited(fate.code);
    if fate.copying.Cancels? {
      return Cancelled;
    }
    if fate.copying == Breaks {
      return Failed;
    }
    if fate.code != 0 {
      return BadExit(fate.code);
    }
    result := if fate.answer.Some? then Answer(fate.answer.value) else Failed;
  }

  /** The process survives: it is killed, and the kill throws. */
  predicate Survives(fate: Fate) {
    fate.starts && !Ended(fate) && fate.kill == Throws(false)
  }

  /** A run of the worker: what it gives, and what has become of its process. */
  function Ran(fate: Fate): Request {
    if !fate.starts then Request(Returned(Failed), NotStarted, false, false, false)
    else
      var r := Leaves(fate);
      if Ended(fate) then r.(phase := Returned(ResultOf(fate)))
      else if fate.kill == Dies then r.(phase := Returned(ResultOf(fate)), process := Killed)
      else r.(phase := Returned(Failed), process := if fate.kill.dies then Killed else Alive, unkilled := true)
  }

  lemma MachineRuns(fate: Fate, free: nat)
    requires fate.exiting != Breaks
    ensures Reaches(Moment(Request(Acquired, NotStarted, false, false, false), free), Moment(Ran(fate), free))
  {
    var first := Moment(Request(Acquired, NotStarted, false, false, false), free);
    Stay(first);
    if !fate.starts {
      Step(first, first, Moment(Ran(fate), free));
    } else {
      var writing := Moment(Request(Writing, Alive, false, false, false), free);
      Step(first, first, writing);
      MachineLeaves(fate, free);
      Reach(first, writing, Moment(Leaves(fate), free));
      var leaving := Leaves(fate);
      if !Ended(fate) && fate.kill == Dies {
        Step(first, Moment(leaving, free), Moment(leaving.(process := Killed), free));
        leaving := leaving.(process := Killed);
      }
      Step(first, Moment(leaving, free), Moment(Ran(fate), free));
    }
  }

  /** Runs the worker. However it ends, its process is dead, unless killing it throws and fails. */
  method RunAsync(w: Worker, fate: Fate) returns (result: RunResult)
    requires w.process == NotStarted && fate.exiting != Breaks
    modifies w
    ensures Ran(fate).phase == Returned(result) && w.process == Ran(fate).process && (w.process == Alive <==> Survives(fate))
  {
    if !fate.starts {
      return Failed;
    }
    w.process := Alive;
    result := Converse(w, fate);
    if w.process == Alive {
      if fate.kill != Throws(false) {
        w.process := Killed;
      }
      if fate.kill.Throws? {
        result := Failed;
      }
    }
  }

  /** How a request with a slot ends: the client may also go between the worker's end and the catch. */
  function Handled(fate: Fate): Request {
    var gone := Ran(fate).aborted || fate.goes;
    Ran(fate).(phase := Done(OutcomeOf(Ran(fate).phase.result, gone)), aborted := gone)
  }

  /** The walk of a request through the machine: it takes a slot, and gives it back. */
  lemma MachineHandles(fate: Fate, free: nat)
    requires fate.exiting != Breaks && free > 0
    ensures Reaches(Moment(Request(Valid, NotStarted, false, false, false), free), Moment(Handled(fate), free))
    ensures Sound(Handled(fate))
  {
    var first := Moment(Request(Valid, NotStarted, false, false, false), free);
    var acquired := Moment(Request(Acquired, NotStarted, false, false, false), free - 1);
    Stay(first);
    Step(first, first, acquired);
    MachineRuns(fate, free - 1);
    var ran := Ran(fate);
    Reach(first, acquired, Moment(ran, free - 1));
    if fate.goes && !ran.aborted {
      Step(first, Moment(ran, free - 1), Moment(ran.(aborted := true), free - 1));
      ran := ran.(aborted := true);
    }
    var releasing := ran.(phase := Releasing(OutcomeOf(ran.phase.result, ran.aborted)));
    Step(first, Moment(ran, free - 1), Moment(releasing, free - 1));
    Step(first, Moment(releasing, free - 1), Moment(Handled(fate), free));
    SoundAfter(first, Moment(Handled(fate), free));
  }

  lemma SoundAfter(first: Moment, last: Moment)
    requires Reaches(first, last) && Sound(first.request)
    ensures Sound(last.request)
  {
    var path :| IsWalk(path, first, last);
    SoundAlong(path, |path| - 1);
  }

  lemma {:induction false} SoundAlong(path: seq<Moment>, n: nat)
    requires n < |path| && Walks(path, n) && Sound(path[0].request)
    ensures Sound(path[n].request)
  {
    if n > 0 {
      SoundAlong(path, n - 1);
      MoveKeepsSound(path[n - 1].request, path[n].request, path[n - 1].free, path[n].free);
    }
  }

  /** The first await that does not complete ends in this way. */
  predicate StopsWith(fate: Fate, how: Await) {
    how != Completes
    && (fate.writing == how
        || (fate.writing == Completes && (fate.exiting == how || (fate.exiting == Completes && fate.copying == how))))
  }

  /** No exception comes from killing the process: it has ended by itself, or it dies. */
  predicate IsCleared(fate: Fate) {
    (fate.writing == Completes && fate.exiting == Completes) || fate.kill == Dies
  }

  /** All awaits complete. */
  predicate RunsThrough(fate: Fate) {
    fate.writing == Completes && fate.exiting == Completes && fate.copying == Completes
  }

  /** Handles a valid request: it walks the machine to its outcome, gives its slot back, and leaves
      a process exactly if killing it throws and fails. */
  method HandleAsync(slots: Semaphore, w: Worker, fate: Fate) returns (outcome: Outcome)
    requires fate.exiting != Breaks && w.process == NotStarted
    modifies slots, w
    ensures slots.free == old(slots.free) && (w.process == Alive <==> old(slots.free) > 0 && Survives(fate))
    ensures outcome == Busy <==> old(slots.free) == 0
    ensures outcome == Compiled <==>
      old(slots.free) > 0 && fate.starts && RunsThrough(fate) && fate.code == 0 && fate.answer == Some(true)
    ensures outcome == SdkMissing <==> old(slots.free) > 0 && fate.starts && RunsThrough(fate) && fate.code == 2
    ensures outcome == TimedOut <==>
      old(slots.free) > 0 && fate.starts && StopsWith(fate, Cancels(false)) && IsCleared(fate) && !fate.goes
    ensures outcome == Aborted <==>
      && old(slots.free) > 0 && fate.starts && IsCleared(fate)
      && (StopsWith(fate, Cancels(true)) || (StopsWith(fate, Cancels(false)) && fate.goes))
    ensures outcome in {Busy, Compiled, SdkMissing, TimedOut, Aborted, Internal}
    ensures old(slots.free) == 0 ==> outcome == Busy && w.process == NotStarted
    ensures old(slots.free) > 0 ==> Handled(fate).phase == Done(outcome) && Handled(fate).process == w.process
    ensures old(slots.free) > 0 ==>
      Reaches(Moment(Request(Valid, NotStarted, false, false, false), slots.free), Moment(Handled(fate), slots.free))
  {
    var taken := slots.TryTake();
    if !taken {
      return Busy;
    }
    var result := RunAsync(w, fate);
    match result {
      case Answer(present) => outcome := if present then Compiled else Internal;
      case BadExit(code) => outcome := if code == SDK_MISSING then SdkMissing else Internal;
      case Cancelled => outcome := if !(ByClient(fate) || fate.goes) then TimedOut else Aborted;
      case Failed => outcome := Internal;
    }
    slots.Release();
    MachineHandles(fate, slots.free);
  }
}
