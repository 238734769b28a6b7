/**
 * What a run guarantees, stated over `Engine.RunWith` for any cancellation
 * timing and any dispatch (so over `Engine.RunSpec` in every environment):
 * every dispatched operation is counted once, overall success means no
 * failure, the run stops at the first check that finds the cancellation flag
 * set and never looks at the operations after it, and progress climbs to 100.
 */
module EngineProperties {
  import opened Wrappers
  import opened Types
  import Dispatch
  import SystemOperations
  import opened Engine

  /**
   * The index of the first check, from `i` on, that finds the flag set (the
   * flag starting as `cancelled`); `n` when every check finds it clear.
   */
  function StopIndex(n: nat, cancel: nat -> bool, i: nat, cancelled: bool): (k: nat)
    requires i <= n
    ensures i <= k <= n
    ensures k > i ==> !cancelled
    ensures forall j :: i <= j < k ==> !cancel(j)
    ensures k < n ==> cancelled || cancel(k)
    decreases n - i
  {
    if i == n then n
    else if cancelled || cancel(i) then i
    else StopIndex(n, cancel, i + 1, false)
  }

  /** How many operations a run dispatches. */
  function Processed(ops: seq<Operation>, cancel: nat -> bool, cancelled: bool): (k: nat)
    ensures k <= |ops|
  {
    if |ops| == 0 then 0 else StopIndex(|ops|, cancel, 0, cancelled)
  }

  /** The events of operations `i` to `k - 1`, in batch order. */
  function Trace(ops: seq<Operation>, perform: Performer, i: nat, k: nat): seq<Event>
    requires i <= k <= |ops|
    decreases k - i
  {
    if i == k then [] else OpEvents(ops[i], i, |ops|, perform(ops[i], i)) + Trace(ops, perform, i + 1, k)
  }

  /** How many of operations `i` to `k - 1` succeed. */
  function Successes(ops: seq<Operation>, perform: Performer, i: nat, k: nat): (s: nat)
    requires i <= k <= |ops|
    ensures s <= k - i
    decreases k - i
  {
    if i == k then 0
    else (if perform(ops[i], i).success then 1 else 0) + Successes(ops, perform, i + 1, k)
  }

  /** The cancellation warning a loop stopping at `k` of `n` ends with. */
  function CancelTail(k: nat, n: nat): seq<Event>
  {
    if k < n then [CancelLog] else []
  }

  lemma {:induction false} LoopEvents(ops: seq<Operation>, cancel: nat -> bool, perform: Performer, i: nat, st: RunState)
    requires i <= |ops|
    ensures var k := StopIndex(|ops|, cancel, i, st.cancelled);
      Loop(ops, cancel, perform, i, st).events == st.events + Trace(ops, perform, i, k) + CancelTail(k, |ops|)
    decreases |ops| - i
  {
    if i < |ops| && !(st.cancelled || cancel(i)) {
      var st' := Step(ops, perform, i, st);
      LoopEvents(ops, cancel, perform, i + 1, st');
      var k := StopIndex(|ops|, cancel, i + 1, false);
      var e := OpEvents(ops[i], i, |ops|, perform(ops[i], i));
      assert Loop(ops, cancel, perform, i, st) == Loop(ops, cancel, perform, i + 1, st');
      assert st'.events == st.events + e;
      assert Trace(ops, perform, i, k) == e + Trace(ops, perform, i + 1, k);
      assert st.events + e + Trace(ops, perform, i + 1, k) == st.events + (e + Trace(ops, perform, i + 1, k));
    }
  }

  lemma {:induction false} LoopCounts(ops: seq<Operation>, cancel: nat -> bool, perform: Performer, i: nat, st: RunState)
    requires i <= |ops|
    ensures var k := StopIndex(|ops|, cancel, i, st.cancelled);
      var r := Loop(ops, cancel, perform, i, st);
      && r.successes == st.successes + Successes(ops, perform, i, k)
      && r.failures == st.failures + ((k - i) - Successes(ops, perform, i, k))
      && r.cancelled == (st.cancelled || k < |ops|)
    decreases |ops| - i
  {
    if i < |ops| && !(st.cancelled || cancel(i)) {
      LoopCounts(ops, cancel, perform, i + 1, Step(ops, perform, i, st));
    }
  }

  /** A non-empty run counts the dispatched operations' outcomes and is marked cancelled exactly when it stopped early. */
  lemma RunCounts(ops: seq<Operation>, cancel: nat -> bool, perform: Performer, st: RunState)
    requires |ops| > 0
    ensures var k := Processed(ops, cancel, st.cancelled);
      var s := Successes(ops, perform, 0, k);
      var r := RunWith(ops, cancel, perform, st);
      && r.successes == st.successes + s
      && r.failures == st.failures + (k - s)
      && r.cancelled == (st.cancelled || k < |ops|)
  {
    LoopCounts(ops, cancel, perform, 0, st.(events := st.events + [StartLog(|ops|)]));
  }

  /** What a non-empty run logs between the previous events and the summary. */
  function Body(ops: seq<Operation>, perform: Performer, k: nat): seq<Event>
    requires 0 < |ops| && k <= |ops|
  {
    [StartLog(|ops|)] + Trace(ops, perform, 0, k) + CancelTail(k, |ops|)
  }

  /** A non-empty run logs: start line, the dispatched operations' events, the cancellation warning if any, the summary. */
  lemma RunEvents(ops: seq<Operation>, cancel: nat -> bool, perform: Performer, st: RunState)
    requires |ops| > 0
    ensures var r := RunWith(ops, cancel, perform, st);
      r.events == st.events + Body(ops, perform, Processed(ops, cancel, st.cancelled)) + SummaryEvents(|ops|, r.successes, r.failures)
  {
    var st0 := st.(events := st.events + [StartLog(|ops|)]);
    LoopEvents(ops, cancel, perform, 0, st0);
    var k := Processed(ops, cancel, st.cancelled);
    SeqAssoc(st.events, [StartLog(|ops|)], Trace(ops, perform, 0, k), CancelTail(k, |ops|));
  }

  lemma SeqAssoc(a: seq<Event>, b: seq<Event>, c: seq<Event>, d: seq<Event>)
    ensures a + b + c + d == a + (b + c + d)
  {
  }

  /** The summary block: six events, none of them progress, the completion event last and only there. */
  lemma SummaryShape(total: nat, successes: nat, failures: nat)
    ensures var s := SummaryEvents(total, successes, failures);
      && |s| == 6 && s[5] == Finished(failures == 0)
      && (forall e :: e in s[..5] ==> !e.Finished?)
      && (forall e :: e in s ==> !e.Progress?)
  {
  }

  /** Events appended after `pre`: a body without completion, then a block that completes only at its end. */
  lemma ClosedBy(pre: seq<Event>, body: seq<Event>, last: seq<Event>)
    requires |last| > 0 && last[|last| - 1].Finished?
    requires forall e :: e in body ==> !e.Finished?
    requires forall e :: e in last[..|last| - 1] ==> !e.Finished?
    ensures var evs := pre + body + last;
      && |evs| > |pre| && evs[..|pre|] == pre && evs[|evs| - 1] == last[|last| - 1]
      && forall e :: e in evs[|pre|..|evs| - 1] ==> !e.Finished?
  {
    var evs := pre + body + last;
    assert evs[|pre|..|evs| - 1] == body + last[..|last| - 1];
  }

  lemma {:induction false} TraceLength(ops: seq<Operation>, perform: Performer, i: nat, k: nat)
    requires i <= k <= |ops|
    ensures |Trace(ops, perform, i, k)| == 3 * (k - i)
    decreases k - i
  {
    if i < k {
      TraceLength(ops, perform, i + 1, k);
    }
  }

  lemma {:induction false} TraceHasNoCompletion(ops: seq<Operation>, perform: Performer, i: nat, k: nat)
    requires i <= k <= |ops|
    ensures forall e :: e in Trace(ops, perform, i, k) ==> !e.Finished?
    decreases k - i
  {
    if i < k {
      TraceHasNoCompletion(ops, perform, i + 1, k);
      var e := OpEvents(ops[i], i, |ops|, perform(ops[i], i));
      assert Trace(ops, perform, i, k) == e + Trace(ops, perform, i + 1, k);
      assert forall x :: x in e ==> !x.Finished?;
    }
  }

  lemma {:induction false} AllSucceeded(ops: seq<Operation>, perform: Performer, i: nat, k: nat)
    requires i <= k <= |ops|
    ensures Successes(ops, perform, i, k) == k - i <==> forall j :: i <= j < k ==> perform(ops[j], j).success
    decreases k - i
  {
    if i < k {
      AllSucceeded(ops, perform, i + 1, k);
    }
  }

  /** Every dispatched operation adds exactly one to one of the two counters; nothing else is counted. */
  lemma RunCountsEachOnce(ops: seq<Operation>, cancel: nat -> bool, perform: Performer, st: RunState)
    ensures var r := RunWith(ops, cancel, perform, st);
      && r.successes >= st.successes && r.failures >= st.failures
      && (r.successes - st.successes) + (r.failures - st.failures) == Processed(ops, cancel, st.cancelled)
  {
    if |ops| > 0 {
      RunCounts(ops, cancel, perform, st);
    }
  }

  /**
   * A run only appends to the events, and appends exactly one completion
   * event, the last one; it reports success exactly when the failure counter
   * is zero (an empty batch reports success whatever the counters hold).
   */
  lemma RunCompletion(ops: seq<Operation>, cancel: nat -> bool, perform: Performer, st: RunState)
    ensures var r := RunWith(ops, cancel, perform, st);
      && |r.events| > |st.events| && r.events[..|st.events|] == st.events
      && r.events[|r.events| - 1] == Finished(|ops| == 0 || r.failures == 0)
      && forall e :: e in r.events[|st.events|..|r.events| - 1] ==> !e.Finished?
  {
    var r := RunWith(ops, cancel, perform, st);
    if |ops| > 0 {
      RunEvents(ops, cancel, perform, st);
      var k := Processed(ops, cancel, st.cancelled);
      TraceHasNoCompletion(ops, perform, 0, k);
      SummaryShape(|ops|, r.successes, r.failures);
      ClosedBy(st.events, Body(ops, perform, k), SummaryEvents(|ops|, r.successes, r.failures));
    } else {
      ClosedBy(st.events, [EmptyLog], [Finished(true)]);
    }
  }

  /**
   * A non-empty run reports overall success exactly when the worker had no
   * earlier failure and every operation it dispatched succeeded.
   */
  lemma OverallSuccessIff(ops: seq<Operation>, cancel: nat -> bool, perform: Performer, st: RunState)
    requires |ops| > 0
    ensures var r := RunWith(ops, cancel, perform, st);
      var k := Processed(ops, cancel, st.cancelled);
      |r.events| > 0 &&
      r.events[|r.events| - 1] == Finished(st.failures == 0 && forall j :: 0 <= j < k ==> perform(ops[j], j).success)
  {
    RunCounts(ops, cancel, perform, st);
    RunEvents(ops, cancel, perform, st);
    AllSucceeded(ops, perform, 0, Processed(ops, cancel, st.cancelled));
  }

  /** An empty batch: one warning, then completion with success; no progress, nothing counted, the flag not consulted. */
  lemma EmptyBatch(ops: seq<Operation>, env: Environment, st: RunState)
    requires |ops| == 0
    ensures RunSpec(ops, env, st) == st.(events := st.events + [Log("No operations to execute", Warning), Finished(true)])
  {
  }

  /**
   * A run that ends before every operation was dispatched ends because a
   * check found the flag set; the cancellation warning follows the last
   * dispatched operation's events and the summary follows it.
   */
  lemma CancelledRunShape(ops: seq<Operation>, cancel: nat -> bool, perform: Performer, st: RunState)
    requires Processed(ops, cancel, st.cancelled) < |ops|
    ensures var k := Processed(ops, cancel, st.cancelled);
      var r := RunWith(ops, cancel, perform, st);
      && (st.cancelled || cancel(k))
      && r.cancelled
      && |r.events| == |st.events| + 3 * k + 8
      && r.events[|st.events| + 1 + 3 * k] == Log("Operation cancelled by user", Warning)
      && r.events[|st.events| + 3 * k + 2..] == SummaryEvents(|ops|, r.successes, r.failures)
  {
    var k := Processed(ops, cancel, st.cancelled);
    var r := RunWith(ops, cancel, perform, st);
    RunCounts(ops, cancel, perform, st);
    RunEvents(ops, cancel, perform, st);
    CancelledBody(ops, perform, k);
    SummaryShape(|ops|, r.successes, r.failures);
    Sections(st.events, Body(ops, perform, k), SummaryEvents(|ops|, r.successes, r.failures));
  }

  /** The body of a run stopped at `k`: `3 * k + 2` events, the cancellation warning last. */
  lemma CancelledBody(ops: seq<Operation>, perform: Performer, k: nat)
    requires k < |ops|
    ensures var b := Body(ops, perform, k); |b| == 3 * k + 2 && b[|b| - 1] == CancelLog
  {
    TraceLength(ops, perform, 0, k);
  }

  lemma Sections(a: seq<Event>, b: seq<Event>, c: seq<Event>)
    requires |b| > 0
    ensures var s := a + b + c;
      && |s| == |a| + |b| + |c| && s[|a| + |b| - 1] == b[|b| - 1] && s[|a| + |b|..] == c
  {
    var s := a + b + c;
    assert s[|a| + |b|..] == c;
  }


  lemma {:induction false} TraceAgrees(ops: seq<Operation>, ops': seq<Operation>, perform: Performer, perform': Performer,
                                       i: nat, k: nat)
    requires i <= k <= |ops| == |ops'|
    requires forall j :: i <= j < k ==> ops'[j] == ops[j] && perform'(ops[j], j) == perform(ops[j], j)
    ensures Trace(ops', perform', i, k) == Trace(ops, perform, i, k)
    decreases k - i
  {
    if i < k {
      TraceAgrees(ops, ops', perform, perform', i + 1, k);
      assert OpEvents(ops'[i], i, |ops'|, perform'(ops'[i], i)) == OpEvents(ops[i], i, |ops|, perform(ops[i], i));
    }
  }

  lemma {:induction false} SuccessesAgree(ops: seq<Operation>, ops': seq<Operation>, perform: Performer, perform': Performer,
                                          i: nat, k: nat)
    requires i <= k <= |ops| == |ops'|
    requires forall j :: i <= j < k ==> ops'[j] == ops[j] && perform'(ops[j], j) == perform(ops[j], j)
    ensures Successes(ops', perform', i, k) == Successes(ops, perform, i, k)
    decreases k - i
  {
    if i < k {
      SuccessesAgree(ops, ops', perform, perform', i + 1, k);
    }
  }

  /**
   * No operation at or after the stop index is dispatched: changing those
   * operations, or how they would end, changes nothing in the run.
   */
  lemma LaterOperationsNeverDispatched(ops: seq<Operation>, ops': seq<Operation>, cancel: nat -> bool,
                                       perform: Performer, perform': Performer, st: RunState)
    requires |ops'| == |ops|
    requires forall j :: 0 <= j < Processed(ops, cancel, st.cancelled) ==>
               ops'[j] == ops[j] && perform'(ops[j], j) == perform(ops[j], j)
    ensures RunWith(ops', cancel, perform', st) == RunWith(ops, cancel, perform, st)
  {
    if |ops| > 0 {
      var k := Processed(ops, cancel, st.cancelled);
      TraceAgrees(ops, ops', perform, perform', 0, k);
      SuccessesAgree(ops, ops', perform, perform', 0, k);
      RunCounts(ops, cancel, perform, st);
      RunCounts(ops', cancel, perform', st);
      RunEvents(ops, cancel, perform, st);
      RunEvents(ops', cancel, perform', st);
    }
  }

  /** Without cancellation every operation is dispatched, whatever the earlier ones ended as. */
  lemma UncancelledRunDispatchesAll(ops: seq<Operation>, cancel: nat -> bool, perform: Performer, st: RunState)
    requires !st.cancelled && forall j: nat :: j < |ops| ==> !cancel(j)
    ensures Processed(ops, cancel, st.cancelled) == |ops|
    ensures !RunWith(ops, cancel, perform, st).cancelled
  {
    if |ops| > 0 {
      RunCounts(ops, cancel, perform, st);
    }
  }

  /** Three operations, nobody cancelling: the first and last succeed, the second fails with `msg`. */
  lemma OneFailureInThree(ops: seq<Operation>, cancel: nat -> bool, perform: Performer, st: RunState, msg: string)
    requires |ops| == 3 && !st.cancelled && st.failures == 0
    requires forall j: nat :: j < 3 ==> !cancel(j)
    requires perform(ops[0], 0).success && perform(ops[2], 2).success
    requires perform(ops[1], 1) == Dispatch.Attempt(false, msg)
    ensures var r := RunWith(ops, cancel, perform, st);
      && r.successes == st.successes + 2 && r.failures == 1
      && |r.events| == |st.events| + 16
      && r.events[|st.events| + 5] == OutcomeLog(NameOf(ops[1]), Dispatch.Attempt(false, msg))
      && r.events[|r.events| - 1] == Finished(false)
  {
    UncancelledRunDispatchesAll(ops, cancel, perform, st);
    RunCounts(ops, cancel, perform, st);
    RunEvents(ops, cancel, perform, st);
    assert Successes(ops, perform, 0, 3) == 2;
    TraceLength(ops, perform, 0, 3);
    var r := RunWith(ops, cancel, perform, st);
    SummaryShape(3, r.successes, r.failures);
    var tr := Trace(ops, perform, 0, 3);
    assert tr[4] == OpEvents(ops[1], 1, 3, perform(ops[1], 1))[1];
  }

  /**
   * A batch of three whose second operation is a registry write without a
   * value name, the other two succeeding and nobody cancelling: two
   * successes, one failure logged with the validation message, and an
   * unsuccessful completion.
   */
  lemma MissingValueNameScenario(ops: seq<Operation>, env: Environment, st: RunState)
    requires |ops| == 3 && !st.cancelled && st.failures == 0
    requires forall j: nat :: j < 3 ==> !env.cancelRequested(j)
    requires Dispatch.Perform(ops[0], 0, env).success && Dispatch.Perform(ops[2], 2, env).success
    requires ops[1].tag == Some("registry") && ops[1].valueName.None?
    ensures var r := RunSpec(ops, env, st);
      && r.successes == st.successes + 2 && r.failures == 1
      && |r.events| == |st.events| + 16
      && r.events[|st.events| + 5] == OutcomeLog(NameOf(ops[1]), Dispatch.Attempt(false, "Registry key path or value name is missing"))
      && r.events[|r.events| - 1] == Finished(false)
  {
    Dispatch.RejectedNeedsNoHandler(ops[1], 1, env, env);
    assert Dispatch.Handle(ops[1]) == Dispatch.Reject("Registry key path or value name is missing");
    OneFailureInThree(ops, env.cancelRequested, Dispatcher(env), st, "Registry key path or value name is missing");
  }

  /** The percentages carried by the progress events, in order. */
  function Progresses(evs: seq<Event>): seq<int>
  {
    if evs == [] then [] else (if evs[0].Progress? then [evs[0].percent] else []) + Progresses(evs[1..])
  }

  lemma {:induction false} ProgressesAppend(a: seq<Event>, b: seq<Event>)
    ensures Progresses(a + b) == Progresses(a) + Progresses(b)
  {
    if a != [] {
      assert (a + b)[1..] == a[1..] + b;
      ProgressesAppend(a[1..], b);
    } else {
      assert a + b == b;
    }
  }

  lemma {:induction false} NoProgress(evs: seq<Event>)
    requires forall e :: e in evs ==> !e.Progress?
    ensures Progresses(evs) == []
  {
    if evs != [] {
      NoProgress(evs[1..]);
    }
  }

  lemma OpEventsProgress(op: Operation, idx: nat, total: nat, a: Dispatch.Attempt)
    requires idx < total
    ensures Progresses(OpEvents(op, idx, total, a)) == [Percent(idx + 1, total)]
  {
    var e := OpEvents(op, idx, total, a);
    ProgressesAppend(e[..2], [e[2]]);
    NoProgress(e[..2]);
    assert e == e[..2] + [e[2]];
  }

  lemma {:induction false} TraceProgress(ops: seq<Operation>, perform: Performer, i: nat, k: nat)
    requires i <= k <= |ops|
    ensures Progresses(Trace(ops, perform, i, k)) == PercentsFrom(i, k, |ops|)
    decreases k - i
  {
    if i < k {
      TraceProgress(ops, perform, i + 1, k);
      var e := OpEvents(ops[i], i, |ops|, perform(ops[i], i));
      OpEventsProgress(ops[i], i, |ops|, perform(ops[i], i));
      ProgressesAppend(e, Trace(ops, perform, i + 1, k));
    }
  }

  lemma MulMonotone(x: nat, y: nat, n: nat)
    requires x <= y
    ensures x * n <= y * n
  {
  }

  lemma PercentMonotone(a: nat, b: nat, n: nat)
    requires 0 < n && a <= b
    ensures Percent(a, n) <= Percent(b, n)
  {
    var pa, pb := Percent(a, n), Percent(b, n);
    PercentIsFloor(a, n);
    PercentIsFloor(b, n);
    if pa > pb {
      MulMonotone(pb + 1, pa, n);
    }
  }

  lemma PercentBounds(k: nat, n: nat)
    requires 0 < n && k <= n
    ensures Percent(k, n) <= 100
    ensures k == n ==> Percent(k, n) == 100
  {
    var p := Percent(k, n);
    PercentIsFloor(k, n);
    if p > 100 {
      MulMonotone(101, p, n);
    }
    if k == n && p < 100 {
      MulMonotone(p + 1, 100, n);
    }
  }

  /** The percentages reported after each of the first `k` of `n` operations. */
  function PercentsFrom(i: nat, k: nat, n: nat): seq<int>
    requires i <= k <= n
    decreases k - i
  {
    if i == k then [] else [Percent(i + 1, n)] + PercentsFrom(i + 1, k, n)
  }

  lemma {:induction false} PercentsFromAt(i: nat, k: nat, n: nat)
    requires i <= k <= n
    ensures |PercentsFrom(i, k, n)| == k - i
    ensures forall j :: 0 <= j < k - i ==> PercentsFrom(i, k, n)[j] == Percent(i + j + 1, n)
    decreases k - i
  {
    if i < k {
      PercentsFromAt(i + 1, k, n);
    }
  }

  function Percents(k: nat, n: nat): seq<int>
    requires k <= n
  {
    PercentsFrom(0, k, n)
  }

  /** Never decreasing, at most 100, and 100 once every operation is done. */
  lemma PercentsClimbTo100(k: nat, n: nat)
    requires k <= n
    ensures var p := Percents(k, n);
      && |p| == k
      && (forall j :: 0 <= j < k ==> p[j] == Percent(j + 1, n) && 0 <= p[j] <= 100)
      && (forall a, b :: 0 <= a <= b < k ==> p[a] <= p[b])
      && (k == n > 0 ==> p[k - 1] == 100)
  {
    var p := Percents(k, n);
    PercentsFromAt(0, k, n);
    forall j | 0 <= j < k
      ensures p[j] <= 100
    {
      PercentBounds(j + 1, n);
    }
    forall a, b | 0 <= a <= b < k
      ensures p[a] <= p[b]
    {
      PercentMonotone(a + 1, b + 1, n);
    }
    if k == n > 0 {
      PercentBounds(k, n);
    }
  }

  lemma BodyProgress(ops: seq<Operation>, perform: Performer, k: nat)
    requires 0 < |ops| && k <= |ops|
    ensures Progresses(Body(ops, perform, k)) == Percents(k, |ops|)
  {
    var tr := Trace(ops, perform, 0, k);
    var tail := CancelTail(k, |ops|);
    ProgressesAppend([StartLog(|ops|)] + tr, tail);
    ProgressesAppend([StartLog(|ops|)], tr);
    NoProgress(tail);
    NoProgress([StartLog(|ops|)]);
    TraceProgress(ops, perform, 0, k);
  }

  /**
   * The progress events a run appends: one per dispatched operation, the
   * `j`-th (from 0) equal to floor(100 * (j + 1) / n), so never decreasing,
   * at most 100, and 100 after the last operation of a run that was not
   * cancelled (`PercentsClimbTo100`).
   */
  lemma RunProgress(ops: seq<Operation>, cancel: nat -> bool, perform: Performer, st: RunState)
    ensures var k := Processed(ops, cancel, st.cancelled);
      Progresses(RunWith(ops, cancel, perform, st).events) == Progresses(st.events) + Percents(k, |ops|)
  {
    var r := RunWith(ops, cancel, perform, st);
    var k := Processed(ops, cancel, st.cancelled);
    if |ops| == 0 {
      ProgressesAppend(st.events, [EmptyLog, Finished(true)]);
      NoProgress([EmptyLog, Finished(true)]);
    } else {
      RunEvents(ops, cancel, perform, st);
      var sum := SummaryEvents(|ops|, r.successes, r.failures);
      SummaryShape(|ops|, r.successes, r.failures);
      ProgressesAppend(st.events + Body(ops, perform, k), sum);
      ProgressesAppend(st.events, Body(ops, perform, k));
      NoProgress(sum);
      BodyProgress(ops, perform, k);
    }
  }

  /** A handler's result depends on the environment only through its answers for that operation's index. */
  lemma PerformIsLocal(op: Operation, j: nat, env: Environment, env': Environment)
    requires env'.resolve == env.resolve
    requires forall p :: env'.fileExists(j, p) == env.fileExists(j, p)
    requires forall r :: env'.process(j, r) == env.process(j, r)
    requires forall w :: env'.registry(j, w) == env.registry(j, w)
    ensures Dispatch.Perform(op, j, env') == Dispatch.Perform(op, j, env)
  {
    match Dispatch.Handle(op)
    case Reject(_) =>
    case WingetCall(verb, id) =>
      assert SystemOperations.RunWinget(verb, id, j, env') == SystemOperations.RunWinget(verb, id, j, env);
    case PowerShellCall(command) =>
      assert SystemOperations.RunPowerShell(command, false, j, env') == SystemOperations.RunPowerShell(command, false, j, env);
    case RegistryCall(keyPath, valueName, value, hive) =>
      assert SystemOperations.SetRegistryValue(keyPath, valueName, value, hive, j, env')
          == SystemOperations.SetRegistryValue(keyPath, valueName, value, hive, j, env);
    case ExecutableCall(exePath, args, asAdmin) =>
      assert SystemOperations.RunExecutable(exePath, args, asAdmin, j, env')
          == SystemOperations.RunExecutable(exePath, args, asAdmin, j, env);
    case InstallerCall(path, kind) =>
      assert SystemOperations.RunInstaller(path, kind, j, env') == SystemOperations.RunInstaller(path, kind, j, env);
    case ToolCall(path, kind) =>
      assert SystemOperations.RunTool(path, kind, j, env') == SystemOperations.RunTool(path, kind, j, env);
  }

  /**
   * In a real environment: what the system would answer for operations at or
   * after the stop index, and those operations themselves, never matter.
   */
  lemma LaterAnswersNeverAsked(ops: seq<Operation>, ops': seq<Operation>, env: Environment, env': Environment, st: RunState)
    requires |ops'| == |ops|
    requires env'.cancelRequested == env.cancelRequested
    requires env'.resolve == env.resolve
    requires forall j: nat :: j < Processed(ops, env.cancelRequested, st.cancelled) ==> ops'[j] == ops[j]
    requires forall j: nat, p :: j < Processed(ops, env.cancelRequested, st.cancelled) ==> env'.fileExists(j, p) == env.fileExists(j, p)
    requires forall j: nat, r :: j < Processed(ops, env.cancelRequested, st.cancelled) ==> env'.process(j, r) == env.process(j, r)
    requires forall j: nat, w :: j < Processed(ops, env.cancelRequested, st.cancelled) ==> env'.registry(j, w) == env.registry(j, w)
    ensures RunSpec(ops', env', st) == RunSpec(ops, env, st)
  {
    var k := Processed(ops, env.cancelRequested, st.cancelled);
    forall j | 0 <= j < k
      ensures Dispatcher(env')(ops[j], j) == Dispatcher(env)(ops[j], j)
    {
      PerformIsLocal(ops[j], j, env, env');
    }
    LaterOperationsNeverDispatched(ops, ops', env.cancelRequested, Dispatcher(env), Dispatcher(env'), st);
  }
}
