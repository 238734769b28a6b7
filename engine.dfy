/**
 * `WorkerThread`: runs a batch of operations one after the other, counts
 * successes and failures, emits log, progress and completion events, and
 * stops early when cancelled. `RunSpec` is the run as a function of the
 * batch, the environment and the worker's state before the run; the method
 * `WorkerThread.Run` is proved to compute it.
 */
module Engine {
  import opened Types
  import Text
  import Dispatch

  const CheckMark: string := "\U{2713}"
  const CrossMark: string := "\U{2717}"

  /** `operation.get('name', 'Unknown operation')`. */
  function NameOf(op: Operation): string
  {
    if op.name.Some? then op.name.value else "Unknown operation"
  }

  /**
   * `int((k / n) * 100)`, taken on exact fractions: the whole percentage
   * reached after `k` of `n` operations, rounded down.
   */
  function Percent(k: nat, n: nat): nat
    requires 0 < n
  {
    (100 * k) / n
  }

  /** The percentage is the largest whole number `p` with `p * n <= 100 * k`. */
  lemma PercentIsFloor(k: nat, n: nat)
    requires 0 < n
    ensures Percent(k, n) * n <= 100 * k < (Percent(k, n) + 1) * n
  {
  }

  /** The worker's state as far as a run can see and change it. */
  datatype RunState = RunState(events: seq<Event>, successes: nat, failures: nat, cancelled: bool)

  function StartLog(total: nat): Event
  {
    Log("Starting execution of " + Text.Decimal(total) + " operation(s)...", Info)
  }

  const EmptyLog: Event := Log("No operations to execute", Warning)
  const CancelLog: Event := Log("Operation cancelled by user", Warning)

  /** The log line for how an operation ended. */
  function OutcomeLog(name: string, a: Dispatch.Attempt): Event
  {
    if a.success then Log(CheckMark + " " + name + " completed successfully", Success)
    else Log(CrossMark + " " + name + " failed: " + Dispatch.DisplayError(a.errorMsg), Error)
  }

  /** How the loop dispatches operation `idx`: its outcome. */
  type Performer = (Operation, nat) -> Dispatch.Attempt

  /** The dispatch `run` performs: the handlers of `Dispatch`, answered by `env`. */
  function Dispatcher(env: Environment): Performer
  {
    (op: Operation, idx: nat) => Dispatch.Perform(op, idx, env)
  }

  /** The three events of operation `idx` of `total` that ended as `a`: executing, how it ended, progress. */
  function OpEvents(op: Operation, idx: nat, total: nat, a: Dispatch.Attempt): seq<Event>
    requires idx < total
  {
    [Log("Executing: " + NameOf(op), Info),
     OutcomeLog(NameOf(op), a),
     Progress(Percent(idx + 1, total))]
  }

  /** Dispatching operation `i`: its events are appended and exactly one counter goes up. */
  function Step(ops: seq<Operation>, perform: Performer, i: nat, st: RunState): RunState
    requires i < |ops|
  {
    var a := perform(ops[i], i);
    RunState(st.events + OpEvents(ops[i], i, |ops|, a),
             st.successes + (if a.success then 1 else 0),
             st.failures + (if a.success then 0 else 1),
             st.cancelled)
  }

  /**
   * The loop from operation `i` on: before each operation the cancellation
   * flag is checked (`cancel(i)`: a `cancel()` from the interface thread has
   * set it by then); once set, a warning is logged and the loop stops.
   */
  function Loop(ops: seq<Operation>, cancel: nat -> bool, perform: Performer, i: nat, st: RunState): RunState
    requires i <= |ops|
    decreases |ops| - i
  {
    if i == |ops| then st
    else if st.cancelled || cancel(i) then
      st.(cancelled := true, events := st.events + [CancelLog])
    else Loop(ops, cancel, perform, i + 1, Step(ops, perform, i, st))
  }

  /** The summary block and the completion event. */
  function SummaryEvents(total: nat, successes: nat, failures: nat): seq<Event>
  {
    [Log("", Info),
     Log("=== Execution Summary ===", Info),
     Log("Total operations: " + Text.Decimal(total), Info),
     Log(CheckMark + " Successful: " + Text.Decimal(successes), Success),
     if failures > 0 then Log(CrossMark + " Failed: " + Text.Decimal(failures), Error)
     else Log(CrossMark + " Failed: 0", Info),
     Finished(failures == 0)]
  }

  /** A whole run from state `st`, for any cancellation timing and dispatch. */
  function RunWith(ops: seq<Operation>, cancel: nat -> bool, perform: Performer, st: RunState): RunState
  {
    if |ops| == 0 then st.(events := st.events + [EmptyLog, Finished(true)])
    else
      var fin := Loop(ops, cancel, perform, 0, st.(events := st.events + [StartLog(|ops|)]));
      fin.(events := fin.events + SummaryEvents(|ops|, fin.successes, fin.failures))
  }

  /** A whole run from state `st` in environment `env`. */
  function RunSpec(ops: seq<Operation>, env: Environment, st: RunState): RunState
  {
    RunWith(ops, env.cancelRequested, Dispatcher(env), st)
  }

  class WorkerThread {
    const operations: seq<Operation>
    var cancelled: bool
    var successCount: nat
    var failureCount: nat
    /** Everything emitted on the three signals, in emission order. */
    var events: seq<Event>

    function State(): RunState
      reads this
    {
      RunState(events, successCount, failureCount, cancelled)
    }

    constructor (operations: seq<Operation>)
      ensures this.operations == operations
      ensures State() == RunState([], 0, 0, false)
    {
      this.operations := operations;
      cancelled := false;
      successCount := 0;
      failureCount := 0;
      events := [];
    }

    /** `cancel`: only the flag changes; the run sees it at its next check. */
    method Cancel()
      modifies this
      ensures State() == old(State()).(cancelled := true)
    {
      cancelled := true;
    }

    /** `run`: executes the batch in order. */
    method Run(env: Environment)
      modifies this
      ensures State() == RunSpec(operations, env, old(State()))
    {
      var total := |operations|;
      if total == 0 {
        events := events + [EmptyLog, Finished(true)];
        return;
      }
      events := events + [StartLog(total)];
      ghost var start := State();
      var idx := 0;
      while idx < total
        invariant 0 <= idx <= total
        invariant Loop(operations, env.cancelRequested, Dispatcher(env), idx, State())
                   == Loop(operations, env.cancelRequested, Dispatcher(env), 0, start)
        decreases total - idx
      {
        ghost var before := State();
        if env.cancelRequested(idx) {
          // the interface thread has called cancel() by now
          cancelled := true;
        }
        if cancelled {
          events := events + [CancelLog];
          assert State() == Loop(operations, env.cancelRequested, Dispatcher(env), idx, before);
          break;
        }
        ExecuteOne(idx, env);
        idx := idx + 1;
      }
      assert State() == Loop(operations, env.cancelRequested, Dispatcher(env), 0, start);
      EmitSummary(total);
    }

    /** The body of the loop for operation `idx`, once the flag is found clear. */
    method ExecuteOne(idx: nat, env: Environment)
      requires idx < |operations|
      modifies this
      ensures State() == Step(operations, Dispatcher(env), idx, old(State()))
    {
      var total := |operations|;
      var op := operations[idx];
      var name := NameOf(op);
      events := events + [Log("Executing: " + name, Info)];
      var attempt := Dispatch.Perform(op, idx, env);
      if attempt.success {
        successCount := successCount + 1;
        events := events + [Log(CheckMark + " " + name + " completed successfully", Success)];
      } else {
        failureCount := failureCount + 1;
        var display := Dispatch.DisplayError(attempt.errorMsg);
        events := events + [Log(CrossMark + " " + name + " failed: " + display, Error)];
      }
      events := events + [Progress(Percent(idx + 1, total))];
    }

    /** The summary block and `finished_signal`. */
    method EmitSummary(total: nat)
      modifies this
      ensures State() == old(State()).(events := old(events) + SummaryEvents(total, successCount, failureCount))
    {
      events := events + [Log("", Info), Log("=== Execution Summary ===", Info),
                          Log("Total operations: " + Text.Decimal(total), Info),
                          Log(CheckMark + " Successful: " + Text.Decimal(successCount), Success)];
      if failureCount > 0 {
        events := events + [Log(CrossMark + " Failed: " + Text.Decimal(failureCount), Error)];
      } else {
        events := events + [Log(CrossMark + " Failed: 0", Info)];
      }
      var overallSuccess := failureCount == 0;
      events := events + [Finished(overallSuccess)];
    }
  }
}
