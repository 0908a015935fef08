/**
 * The dummy operation runner and runner factory of the operation-executor
 * test support. A runner records every task, packet and operation it runs,
 * points `currentTask` at an operation while it runs and clears it afterwards
 * whatever happens, and catches the Exceptions an operation throws. The factory makes
 * partition runners, generic runners and at most one ad-hoc runner.
 */
module OperationRunners {
  import opened Wrappers
  import opened DummyOperations

  /** The partition id the factory gives its single ad-hoc runner. */
  const AdHocPartitionId: int := -2

  /** A `Runnable`: its identity and whether its `run()` throws. */
  datatype Task = Task(id: nat, throws: bool)

  /** A packet as handed over by the network layer; its bytes are not inspected here. */
  datatype Packet = Packet(id: nat)

  /** The deserializer `serializationService.toObject`: an operation, or the error it throws. */
  type Decoder = Packet -> Result<Operation, Error>

  /** A runner: its partition id, what it has been given to run, and the task it is running. */
  datatype Runner = Runner(
    partitionId: int,
    packets: seq<Packet>,
    operations: seq<Operation>,
    tasks: seq<Task>,
    currentTask: Option<Operation>)

  /** The state of a runner after a call, and what the call threw to its caller. */
  datatype Ran = Ran(runner: Runner, thrown: Option<Error>)

  /** `new DummyOperationRunner(partitionId)`. */
  function NewRunner(partitionId: int): (r: Runner)
    ensures r.partitionId == partitionId && r.currentTask == None
    ensures r.packets == [] && r.operations == [] && r.tasks == []
  {
    Runner(partitionId, [], [], [], None)
  }

  /** The part of `run(Operation)` before the `try`: record the operation and make it current. */
  function BeginOperation(r: Runner, op: Operation): Runner {
    r.(operations := r.operations + [op], currentTask := Some(op))
  }

  /**
   * `run(Operation)`: records the operation, makes it current, runs it with
   * `effect` as what its `run()` did, and clears `currentTask` in `finally`.
   * An Exception from the operation is caught and printed, never rethrown; a
   * java.lang.Error passes the `catch` and reaches the caller after `finally`.
   */
  function RunOperation(r: Runner, op: Operation, effect: Option<Error>): (ran: Ran)
    ensures ran.thrown.Some? <==> effect.Some? && effect.value.Fatal?
    ensures ran.thrown.Some? ==> ran.thrown == effect
    ensures ran.runner.currentTask == None
    ensures ran.runner.operations == r.operations + [op]
    ensures ran.runner.tasks == r.tasks && ran.runner.packets == r.packets
    ensures ran.runner.partitionId == r.partitionId
  {
    var running := BeginOperation(r, op);
    // while op.run() executes, running.currentTask == Some(op)
    match effect
    case Some(Fatal(id)) => Ran(running.(currentTask := None), Some(Fatal(id)))  // not caught
    case Some(_) => Ran(running.(currentTask := None), None)                     // caught and printed
    case None => Ran(running.(currentTask := None), None)
  }

  /** While an operation runs, it is the runner's current task. */
  lemma CurrentTaskWhileRunning(r: Runner, op: Operation)
    ensures BeginOperation(r, op).currentTask == Some(op)
    ensures BeginOperation(r, op).operations[|r.operations|] == op
  {
  }

  /**
   * Whether the operation returns or throws an Exception, the runner ends in
   * the same state and nothing reaches the caller; a java.lang.Error changes
   * only what reaches the caller, not the runner's state.
   */
  lemma RunOperationSwallowsFailures(r: Runner, op: Operation, e1: Option<Error>, e2: Option<Error>)
    ensures RunOperation(r, op, e1).runner == RunOperation(r, op, e2).runner
    ensures !(e1.Some? && e1.value.Fatal?) ==> RunOperation(r, op, e1) == RunOperation(r, op, None)
    ensures !(e1.Some? && e1.value.Fatal?) ==> RunOperation(r, op, e1).thrown == None
  {
  }

  /**
   * A runner swallows what `DummyOperation.run()` throws: the
   * IllegalArgumentException of a negative sleep never reaches the caller,
   * and the runner ends as if the operation had returned.
   */
  lemma DummyRunIsSwallowed(r: Runner, op: Operation, interrupted: bool)
    ensures DummyRun(op, interrupted).thrown.Some? <==> op.durationMs < 0
    ensures RunOperation(r, op, DummyRun(op, interrupted).thrown).thrown == None
    ensures RunOperation(r, op, DummyRun(op, interrupted).thrown) == RunOperation(r, op, None)
  {
  }

  /**
   * `run(Runnable)`: records the task and runs it. Nothing is caught here:
   * what the task throws reaches the caller, after the task was recorded.
   */
  function RunTask(r: Runner, task: Task): (ran: Ran)
    ensures ran.runner.tasks == r.tasks + [task]
    ensures ran.thrown.Some? <==> task.throws
    ensures ran.thrown.Some? ==> ran.thrown.value == TaskFailure(task.id)
    ensures ran.runner.operations == r.operations && ran.runner.packets == r.packets
    ensures ran.runner.currentTask == r.currentTask && ran.runner.partitionId == r.partitionId
  {
    var recorded := r.(tasks := r.tasks + [task]);
    Ran(recorded, if task.throws then Some(TaskFailure(task.id)) else None)
  }

  /**
   * `run(Packet)`: records the packet, deserializes it and runs the operation.
   * A failing deserialization reaches the caller and no operation runs.
   */
  function RunPacket(r: Runner, packet: Packet, decode: Decoder, effect: Option<Error>): (ran: Ran)
    ensures ran.runner.packets == r.packets + [packet]
    ensures decode(packet).Success? ==>
              && ran.runner.operations == r.operations + [decode(packet).value]
              && ran.thrown == RunOperation(r, decode(packet).value, effect).thrown
    ensures decode(packet).Failure? ==>
              && ran.runner.operations == r.operations
              && ran.thrown == Some(decode(packet).error)
    ensures ran.runner.tasks == r.tasks && ran.runner.partitionId == r.partitionId
    ensures decode(packet).Success? || r.currentTask == None ==> ran.runner.currentTask == None
  {
    var recorded := r.(packets := r.packets + [packet]);
    match decode(packet)
    case Failure(e) => Ran(recorded, Some(e))
    case Success(op) => RunOperation(recorded, op, effect)
  }

  /** One call a runner serves: a task, an operation with what its `run()` did, or a packet. */
  datatype Call =
    | RunsTask(task: Task)
    | RunsOperation(op: Operation, effect: Option<Error>)
    | RunsPacket(packet: Packet, effect: Option<Error>)

  function Serve(r: Runner, call: Call, decode: Decoder): Ran {
    match call
    case RunsTask(t) => RunTask(r, t)
    case RunsOperation(op, e) => RunOperation(r, op, e)
    case RunsPacket(p, e) => RunPacket(r, p, decode, e)
  }

  /** Serving calls one after another; the runner goes on after a call that threw. */
  function ServeAll(r: Runner, calls: seq<Call>, decode: Decoder): Runner
    decreases |calls|
  {
    if |calls| == 0 then r
    else ServeAll(Serve(r, calls[0], decode).runner, calls[1..], decode)
  }

  /** The operations that `calls` hand to `run(Operation)`, in order. */
  function OperationsRun(calls: seq<Call>, decode: Decoder): seq<Operation>
    decreases |calls|
  {
    if |calls| == 0 then []
    else
      var here := match calls[0]
        case RunsTask(_) => []
        case RunsOperation(op, _) => [op]
        case RunsPacket(p, _) => if decode(p).Success? then [decode(p).value] else [];
      here + OperationsRun(calls[1..], decode)
  }

  /**
   * A runner never leaves a dangling current task: starting idle, it is idle
   * after any sequence of calls, whatever the operations and tasks threw; and
   * it has recorded exactly the operations that were run.
   */
  lemma {:induction false} ServeAllLeavesNoCurrentTask(r: Runner, calls: seq<Call>, decode: Decoder)
    requires r.currentTask == None
    ensures ServeAll(r, calls, decode).currentTask == None
    ensures ServeAll(r, calls, decode).operations == r.operations + OperationsRun(calls, decode)
    ensures ServeAll(r, calls, decode).partitionId == r.partitionId
    decreases |calls|
  {
    if |calls| > 0 {
      var next := Serve(r, calls[0], decode).runner;
      ServeAllLeavesNoCurrentTask(next, calls[1..], decode);
      var here := next.operations[|r.operations|..];
      assert next.operations == r.operations + here;
      assert OperationsRun(calls, decode) == here + OperationsRun(calls[1..], decode);
      assert (r.operations + here) + OperationsRun(calls[1..], decode)
          == r.operations + (here + OperationsRun(calls[1..], decode));
    }
  }

  // ---------------------------------------------------------------------------
  // The runner factory.

  datatype Factory = Factory(partitionRunners: seq<Runner>, genericRunners: seq<Runner>, adHoc: Option<Runner>)

  /** Why a factory call failed. */
  datatype FactoryError = IllegalState(message: string)

  /** A new factory: no runners yet, so it trivially keeps the factory invariant. */
  function NewFactory(): (f: Factory)
    ensures FactoryWf(f) && f.adHoc.None?
    ensures |f.partitionRunners| == 0 && |f.genericRunners| == 0
  {
    Factory([], [], None)
  }

  /** `createPartitionRunner(partitionId)`: a fresh runner for that partition, appended to the partition list. */
  function CreatePartitionRunner(f: Factory, partitionId: int): (r: (Factory, Runner))
    ensures r.1 == NewRunner(partitionId)
    ensures r.0.partitionRunners == f.partitionRunners + [r.1]
    ensures r.0.genericRunners == f.genericRunners && r.0.adHoc == f.adHoc
  {
    var runner := NewRunner(partitionId);
    (f.(partitionRunners := f.partitionRunners + [runner]), runner)
  }

  /** `createGenericRunner()`: a fresh generic runner, appended to the generic list. */
  function CreateGenericRunner(f: Factory): (r: (Factory, Runner))
    ensures r.1 == NewRunner(GenericPartitionId)
    ensures r.0.genericRunners == f.genericRunners + [r.1]
    ensures r.0.partitionRunners == f.partitionRunners && r.0.adHoc == f.adHoc
  {
    var runner := NewRunner(GenericPartitionId);
    (f.(genericRunners := f.genericRunners + [runner]), runner)
  }

  /** `createAdHocRunner()`: succeeds once; a second call throws IllegalStateException. */
  function CreateAdHocRunner(f: Factory): (r: Result<(Factory, Runner), FactoryError>)
    ensures r.Failure? <==> f.adHoc.Some?
    ensures r.Success? ==>
              && r.value.1 == NewRunner(AdHocPartitionId)
              && r.value.0 == f.(adHoc := Some(r.value.1))
  {
    if f.adHoc.Some? then Failure(IllegalState("adHocHandler should only be created once"))
    else
      var runner := NewRunner(AdHocPartitionId);
      Success((f.(adHoc := Some(runner)), runner))
  }

  /** The second ad-hoc creation fails and the first runner stays in place. */
  lemma AdHocRunnerOnlyOnce(f: Factory)
    requires f.adHoc == None
    ensures var first := CreateAdHocRunner(f);
            && first.Success?
            && CreateAdHocRunner(first.value.0).Failure?
            && first.value.0.adHoc == Some(first.value.1)
            && first.value.1.partitionId == AdHocPartitionId
  {
  }

  /** A factory request. */
  datatype Request = PartitionRunnerFor(partitionId: int) | GenericRunner | AdHocRunner

  /** Serving one request; a failed ad-hoc request leaves the factory as it was. */
  function Step(f: Factory, request: Request): Factory {
    match request
    case PartitionRunnerFor(p) => CreatePartitionRunner(f, p).0
    case GenericRunner => CreateGenericRunner(f).0
    case AdHocRunner =>
      match CreateAdHocRunner(f)
      case Success((g, _)) => g
      case Failure(_) => f
  }

  /** Serving requests in order. */
  function CreateAll(f: Factory, requests: seq<Request>): Factory
    decreases |requests|
  {
    if |requests| == 0 then f else CreateAll(Step(f, requests[0]), requests[1..])
  }

  /** The partition ids of the partition runners requested, in order. */
  function RequestedPartitions(requests: seq<Request>): seq<int>
    decreases |requests|
  {
    if |requests| == 0 then []
    else
      (if requests[0].PartitionRunnerFor? then [requests[0].partitionId] else [])
      + RequestedPartitions(requests[1..])
  }

  /** Fresh runners for the given partition ids, in order. */
  function FreshRunners(partitionIds: seq<int>): seq<Runner>
    decreases |partitionIds|
  {
    if |partitionIds| == 0 then []
    else [NewRunner(partitionIds[0])] + FreshRunners(partitionIds[1..])
  }

  function CountGeneric(requests: seq<Request>): nat
    decreases |requests|
  {
    if |requests| == 0 then 0
    else (if requests[0] == GenericRunner then 1 else 0) + CountGeneric(requests[1..])
  }

  /**
   * The generic runners and the ad-hoc runner carry the partition ids the
   * factory gives them, which running work on them never changes.
   */
  predicate FactoryWf(f: Factory) {
    && (forall i :: 0 <= i < |f.genericRunners| ==> f.genericRunners[i].partitionId == GenericPartitionId)
    && (f.adHoc.Some? ==> f.adHoc.value.partitionId == AdHocPartitionId)
  }

  /**
   * After any sequence of requests the factory holds one fresh runner per
   * partition request, with that partition id and in request order, after
   * the runners it already had.
   */
  lemma {:induction false} CreateAllPartitionRunners(f: Factory, requests: seq<Request>)
    ensures CreateAll(f, requests).partitionRunners
            == f.partitionRunners + FreshRunners(RequestedPartitions(requests))
    decreases |requests|
  {
    if |requests| > 0 {
      var next := Step(f, requests[0]);
      CreateAllPartitionRunners(next, requests[1..]);
      var rest := FreshRunners(RequestedPartitions(requests[1..]));
      if requests[0].PartitionRunnerFor? {
        var p := requests[0].partitionId;
        assert RequestedPartitions(requests) == [p] + RequestedPartitions(requests[1..]);
        assert FreshRunners([p] + RequestedPartitions(requests[1..])) == [NewRunner(p)] + rest;
        assert next.partitionRunners + rest == f.partitionRunners + ([NewRunner(p)] + rest);
      } else {
        assert RequestedPartitions(requests) == RequestedPartitions(requests[1..]);
      }
    }
  }

  /**
   * After any sequence of requests the generic list holds one generic runner
   * per generic request more than before, every one with the generic partition
   * id, created fresh and after the runners it already had; and there is an
   * ad-hoc runner exactly when one was requested or already present, the
   * first one staying in place.
   */
  lemma {:induction false} CreateAllGenericAndAdHoc(f: Factory, requests: seq<Request>)
    requires FactoryWf(f)
    ensures var g := CreateAll(f, requests);
            && FactoryWf(g)
            && |g.genericRunners| == |f.genericRunners| + CountGeneric(requests)
            && g.genericRunners[..|f.genericRunners|] == f.genericRunners
            && (forall i :: |f.genericRunners| <= i < |g.genericRunners| ==>
                  g.genericRunners[i] == NewRunner(GenericPartitionId))
            && (g.adHoc.Some? <==> f.adHoc.Some? || AdHocRunner in requests)
            && (f.adHoc.Some? ==> g.adHoc == f.adHoc)
    decreases |requests|
  {
    if |requests| > 0 {
      var next := Step(f, requests[0]);
      assert FactoryWf(next);
      CreateAllGenericAndAdHoc(next, requests[1..]);
      assert AdHocRunner in requests <==> requests[0] == AdHocRunner || AdHocRunner in requests[1..];
    }
  }
}
