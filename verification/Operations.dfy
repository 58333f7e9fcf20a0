// ConcurrentOperation: start, completion and cancellation of one operation, and
// how cancellation spreads through a graph of dependencies over whole runs.
module Operations {
  import opened Wrappers

  // The state of one operation. The last three parts are history: whether it
  // was started, whether main ran, and whether it was cancelled when it
  // finished.
  datatype Op = Op(executing: bool, finished: bool, cancelled: bool, error: Option<nat>,
                   started: bool, ranMain: bool, stopped: bool)

  const IDLE := Op(false, false, false, None, false, false, false)

  function Completed(op: Op): Op {
    op.(executing := false, finished := true, stopped := if op.finished then op.stopped else op.cancelled)
  }

  function Cancelled(op: Op): Op {
    op.(cancelled := true)
  }

  function Failed(op: Op, error: nat): Op {
    Completed(Cancelled(op.(error := Some(error))))
  }

  function Started(op: Op, dependencyCancelled: bool): Op {
    var begun := op.(executing := true, started := true);
    if op.cancelled || dependencyCancelled
    then Completed(Cancelled(begun))
    else begun.(ranMain := true)
  }

  class ConcurrentOperation {
    const dependencies: seq<ConcurrentOperation>
    var isCancelled: bool
    var isExecuting: bool
    var isFinished: bool
    var error: Option<nat>
    ghost var started: bool
    ghost var ranMain: bool
    ghost var stopped: bool

    constructor (dependencies: seq<ConcurrentOperation>)
      ensures State() == IDLE && this.dependencies == dependencies
    {
      this.dependencies := dependencies;
      isCancelled, isExecuting, isFinished, error := false, false, false, None;
      started, ranMain, stopped := false, false, false;
    }

    ghost function State(): Op
      reads this
    {
      Op(isExecuting, isFinished, isCancelled, error, started, ranMain, stopped)
    }

    method Start()
      modifies this
      ensures State() == Started(old(State()), exists d :: d in dependencies && old(d.isCancelled))
      ensures if old(isCancelled) || exists d :: d in dependencies && old(d.isCancelled)
              then isCancelled && isFinished && !isExecuting && ranMain == old(ranMain)
              else ranMain && isExecuting && !isCancelled && isFinished == old(isFinished)
      ensures error == old(error)
    {
      isExecuting := true;
      started := true;
      var dependencyCancelled := HasCancelledDependency();
      if isCancelled || dependencyCancelled {
        Cancel();
        CompleteOperation();
        return;
      }
      Run();
    }

    // main() of a subclass: it ends by one of the completing calls, later.
    method Run()
      modifies this
      ensures State() == old(State()).(ranMain := true)
    {
      ranMain := true;
    }

    method Cancel()
      modifies this
      ensures State() == Cancelled(old(State()))
      ensures isCancelled && isExecuting == old(isExecuting) && isFinished == old(isFinished)
    {
      isCancelled := true;
    }

    method CompleteOperation()
      modifies this
      ensures State() == Completed(old(State()))
      ensures isFinished && !isExecuting && isCancelled == old(isCancelled) && error == old(error)
    {
      stopped := if isFinished then stopped else isCancelled;
      isExecuting := false;
      isFinished := true;
    }

    method CompleteWithError(error: nat)
      modifies this
      ensures State() == Failed(old(State()), error)
      ensures this.error == Some(error) && isCancelled && isFinished && !isExecuting
    {
      this.error := Some(error);
      CancelAndCompleteOperation();
    }

    method CancelAndCompleteOperation()
      modifies this
      ensures State() == Completed(Cancelled(old(State())))
      ensures isCancelled && isFinished && !isExecuting && error == old(error)
    {
      Cancel();
      CompleteOperation();
    }

    method HasCancelledDependency() returns (found: bool)
      ensures found <==> exists d :: d in dependencies && d.isCancelled
    {
      for i := 0 to |dependencies|
        invariant forall k | 0 <= k < i :: !dependencies[k].isCancelled
      {
        if dependencies[i].isCancelled {
          return true;
        }
      }
      found := false;
    }
  }

  // ----- Runs of a whole graph -----

  // What the queue and the users of the operations can call.
  datatype Event =
    | Start(i: nat)
    | Complete(i: nat)
    | CompleteWithError(i: nat, error: nat)
    | CancelAndComplete(i: nat)
    | Cancel(i: nat)

  // deps[i] are the direct dependencies of operation i.
  predicate GraphOk(deps: seq<seq<nat>>) {
    forall i, k | 0 <= i < |deps| && 0 <= k < |deps[i]| :: deps[i][k] < |deps|
  }

  // The queue starts an operation once, after its dependencies have finished;
  // a bare completeOperation is the end of a main that ran.
  predicate Enabled(deps: seq<seq<nat>>, ops: seq<Op>, e: Event)
    requires GraphOk(deps) && |ops| == |deps|
  {
    e.i < |ops| &&
    match e
    case Start(i) => !ops[i].started && forall k | 0 <= k < |deps[i]| :: ops[deps[i][k]].finished
    case Complete(i) => ops[i].ranMain
    case _ => true
  }

  predicate DependencyCancelled(deps: seq<seq<nat>>, ops: seq<Op>, i: nat)
    requires GraphOk(deps) && |ops| == |deps| && i < |ops|
  {
    exists k :: 0 <= k < |deps[i]| && ops[deps[i][k]].cancelled
  }

  function After(deps: seq<seq<nat>>, ops: seq<Op>, e: Event): Op
    requires GraphOk(deps) && |ops| == |deps| && e.i < |ops|
  {
    var op := ops[e.i];
    match e
    case Start(i) => Started(op, DependencyCancelled(deps, ops, i))
    case Complete(_) => Completed(op)
    case CompleteWithError(_, error) => Failed(op, error)
    case CancelAndComplete(_) => Completed(Cancelled(op))
    case Cancel(_) => Cancelled(op)
  }

  // An event that cannot happen is passed over.
  function Step(deps: seq<seq<nat>>, ops: seq<Op>, e: Event): (ops': seq<Op>)
    requires GraphOk(deps) && |ops| == |deps|
    ensures |ops'| == |ops|
  {
    if Enabled(deps, ops, e) then ops[e.i := After(deps, ops, e)] else ops
  }

  function RunFrom(deps: seq<seq<nat>>, ops: seq<Op>, events: seq<Event>): (ops': seq<Op>)
    requires GraphOk(deps) && |ops| == |deps|
    ensures |ops'| == |ops|
    decreases |events|
  {
    if events == [] then ops else RunFrom(deps, Step(deps, ops, events[0]), events[1..])
  }

  function AllIdle(n: nat): seq<Op> {
    seq(n, _ => IDLE)
  }

  // ----- What every reachable state keeps -----

  ghost predicate OpOk(op: Op) {
    && !(op.executing && op.finished)
    && (op.stopped ==> op.finished && op.cancelled)
    && (op.ranMain ==> op.started)
    && (op.finished && !op.ranMain ==> op.stopped)
    && (op.started && !op.ranMain ==> op.finished)
    && (op.executing ==> op.ranMain)
    && (op.started && !op.executing ==> op.finished)
    && (op.error.Some? ==> op.cancelled && op.finished)
  }

  ghost predicate Safe(deps: seq<seq<nat>>, ops: seq<Op>)
    requires GraphOk(deps)
  {
    && |ops| == |deps|
    && (forall i | 0 <= i < |ops| :: OpOk(ops[i]))
    && (forall i, k | 0 <= i < |ops| && ops[i].started && 0 <= k < |deps[i]| :: ops[deps[i][k]].finished)
    && (forall i, k | 0 <= i < |ops| && ops[i].ranMain && 0 <= k < |deps[i]| :: !ops[deps[i][k]].stopped)
  }

  lemma {:induction false} StepSafe(deps: seq<seq<nat>>, ops: seq<Op>, e: Event)
    requires GraphOk(deps) && Safe(deps, ops)
    ensures Safe(deps, Step(deps, ops, e))
    ensures forall i | 0 <= i < |ops| :: Kept(ops[i], Step(deps, ops, e)[i])
  {
  }

  // What no later event takes back.
  ghost predicate Kept(before: Op, after: Op) {
    && (before.finished ==> after.finished && after.stopped == before.stopped)
    && (before.cancelled ==> after.cancelled)
    && (before.ranMain ==> after.ranMain)
    && (before.started ==> after.started && after.ranMain == before.ranMain)
  }

  // In every run, no operation is ever executing and finished at once, and
  // what has finished, was cancelled or ran stays so.
  lemma {:induction false} RunSafe(deps: seq<seq<nat>>, ops: seq<Op>, events: seq<Event>)
    requires GraphOk(deps) && Safe(deps, ops)
    ensures Safe(deps, RunFrom(deps, ops, events))
    ensures forall i | 0 <= i < |ops| :: Kept(ops[i], RunFrom(deps, ops, events)[i])
    decreases |events|
  {
    if events != [] {
      StepSafe(deps, ops, events[0]);
      RunSafe(deps, Step(deps, ops, events[0]), events[1..]);
    }
  }

  lemma {:induction false} IdleSafe(deps: seq<seq<nat>>)
    requires GraphOk(deps)
    ensures Safe(deps, AllIdle(|deps|))
  {
  }

  // A chain of dependencies: each operation depends on the one before it.
  ghost predicate DependsAlong(deps: seq<seq<nat>>, path: seq<nat>) {
    && |path| > 0
    && (forall k | 0 <= k < |path| :: path[k] < |deps|)
    && (forall k | 0 < k < |path| :: path[k - 1] in deps[path[k]])
  }

  // If an operation was cancelled when it finished, every transitive dependent
  // that has started is cancelled and finished without having run main,
  // although only direct dependencies are inspected.
  lemma {:induction false} CancellationSpreads(deps: seq<seq<nat>>, ops: seq<Op>, path: seq<nat>)
    requires GraphOk(deps) && Safe(deps, ops) && DependsAlong(deps, path) && |path| > 1
    requires ops[path[0]].stopped
    ensures var last := ops[path[|path| - 1]];
            && (last.started ==> last.cancelled && last.finished && !last.ranMain && !last.executing)
            && (last.finished ==> last.stopped)
    decreases |path|
  {
    var n := |path| - 1;
    var before, last := path[n - 1], path[n];
    if n > 1 {
      CancellationSpreads(deps, ops, path[..n]);
    }
    var k :| 0 <= k < |deps[last]| && deps[last][k] == before;
    if ops[last].started {
      assert ops[deps[last][k]].finished;
    }
  }

  lemma {:induction false} CancellationSpreadsInEveryRun(deps: seq<seq<nat>>, events: seq<Event>, path: seq<nat>)
    requires GraphOk(deps) && DependsAlong(deps, path) && |path| > 1
    requires RunFrom(deps, AllIdle(|deps|), events)[path[0]].stopped
    ensures var last := RunFrom(deps, AllIdle(|deps|), events)[path[|path| - 1]];
            last.started ==> last.cancelled && last.finished && !last.ranMain && !last.executing
  {
    IdleSafe(deps);
    RunSafe(deps, AllIdle(|deps|), events);
    CancellationSpreads(deps, RunFrom(deps, AllIdle(|deps|), events), path);
  }

  // ----- What is not cancelled runs -----

  // Started in its turn, an operation runs main exactly if neither it nor a
  // direct dependency is cancelled.
  lemma {:induction false} StartRunsMain(deps: seq<seq<nat>>, ops: seq<Op>, i: nat)
    requires GraphOk(deps) && Safe(deps, ops) && i < |ops| && Enabled(deps, ops, Start(i))
    ensures var op := Step(deps, ops, Start(i))[i];
            if ops[i].cancelled || exists d :: d in deps[i] && ops[d].cancelled
            then op.cancelled && op.finished && !op.executing && !op.ranMain
            else op.ranMain && op.executing && !op.cancelled && (op.finished <==> ops[i].finished)
  {
  }

  // The events that cancel their operation.
  predicate Cancels(e: Event) {
    e.CompleteWithError? || e.CancelAndComplete? || e.Cancel?
  }

  // path leads to i from an operation that was cancelled before, or by an event.
  ghost predicate CancelReaches(deps: seq<seq<nat>>, ops: seq<Op>, events: seq<Event>, i: nat, path: seq<nat>)
    requires GraphOk(deps) && |ops| == |deps|
  {
    && DependsAlong(deps, path) && path[|path| - 1] == i
    && (ops[path[0]].cancelled || exists k :: 0 <= k < |events| && Cancels(events[k]) && events[k].i == path[0])
  }

  lemma {:induction false} CancelledFrom(deps: seq<seq<nat>>, ops: seq<Op>, events: seq<Event>, i: nat)
    returns (path: seq<nat>)
    requires GraphOk(deps) && |ops| == |deps| && i < |deps| && RunFrom(deps, ops, events)[i].cancelled
    ensures CancelReaches(deps, ops, events, i, path)
    decreases |events|
  {
    if events == [] {
      path := [i];
    } else {
      var e, next := events[0], Step(deps, ops, events[0]);
      path := CancelledFrom(deps, next, events[1..], i);
      if k :| 0 <= k < |events[1..]| && Cancels(events[1..][k]) && events[1..][k].i == path[0] {
        assert events[k + 1] == events[1..][k];
      } else if !ops[path[0]].cancelled && !(Cancels(e) && e.i == path[0]) {
        var k :| 0 <= k < |deps[path[0]]| && ops[deps[path[0]][k]].cancelled;
        path := [deps[path[0]][k]] + path;
      }
    }
  }

  // In a run from idle an operation is cancelled only if an event cancelled it or
  // an operation it depends on, directly or not.
  lemma {:induction false} CancelledOnlyBy(deps: seq<seq<nat>>, events: seq<Event>, i: nat)
    requires GraphOk(deps) && i < |deps| && RunFrom(deps, AllIdle(|deps|), events)[i].cancelled
    ensures exists path, k :: DependsAlong(deps, path) && path[|path| - 1] == i
                           && 0 <= k < |events| && Cancels(events[k]) && events[k].i == path[0]
  {
    var path := CancelledFrom(deps, AllIdle(|deps|), events, i);
    var k :| 0 <= k < |events| && Cancels(events[k]) && events[k].i == path[0];
  }

  // So without such events every operation that has started has run main.
  lemma {:induction false} UndisturbedRuns(deps: seq<seq<nat>>, events: seq<Event>, i: nat)
    requires GraphOk(deps) && i < |deps| && forall k | 0 <= k < |events| :: !Cancels(events[k])
    ensures var op := RunFrom(deps, AllIdle(|deps|), events)[i];
            !op.cancelled && (op.started ==> op.ranMain)
  {
    IdleSafe(deps);
    RunSafe(deps, AllIdle(|deps|), events);
    if RunFrom(deps, AllIdle(|deps|), events)[i].cancelled {
      CancelledOnlyBy(deps, events, i);
    }
  }

  // A bare completeOperation before the start breaks both: started afterwards,
  // the operation runs main while it counts as finished, exactly if neither it
  // nor a dependency has been cancelled.
  lemma {:induction false} CompletedTooEarly(op: Op, dependencyCancelled: bool)
    requires OpOk(op) && !op.started
    ensures var after := Started(Completed(op), dependencyCancelled);
            after.executing && after.finished <==> !op.cancelled && !dependencyCancelled
  {
  }

  // ----- The objects follow the machine -----

  ghost predicate Represents(objects: seq<ConcurrentOperation>, deps: seq<seq<nat>>, ops: seq<Op>)
    reads objects
  {
    && |objects| == |deps| == |ops| && GraphOk(deps)
    && (forall i, j | 0 <= i < j < |objects| :: objects[i] != objects[j])
    && (forall i | 0 <= i < |objects| :: objects[i].State() == ops[i])
    && (forall i | 0 <= i < |objects| :: |objects[i].dependencies| == |deps[i]|)
    && (forall i, k | 0 <= i < |objects| && 0 <= k < |deps[i]| :: objects[i].dependencies[k] == objects[deps[i][k]])
  }

  method Perform(objects: seq<ConcurrentOperation>, e: Event, ghost deps: seq<seq<nat>>, ghost ops: seq<Op>)
    requires Represents(objects, deps, ops) && Enabled(deps, ops, e)
    modifies objects
    ensures Represents(objects, deps, Step(deps, ops, e))
  {
    var o := objects[e.i];
    match e {
      case Start(i) =>
        assert DependencyCancelled(deps, ops, i) <==> exists d :: d in o.dependencies && d.isCancelled;
        o.Start();
      case Complete(_) => o.CompleteOperation();
      case CompleteWithError(_, error) => o.CompleteWithError(error);
      case CancelAndComplete(_) => o.CancelAndCompleteOperation();
      case Cancel(_) => o.Cancel();
    }
  }
}
