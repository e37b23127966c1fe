/** The bounded worker pool: a dispatcher, an unbuffered channel, and workers that stop at the first failure. */
module InFlight {

  datatype Result = Nil | CallFailed | Cancelled

  datatype Dispatcher =
    | Sending          // offering the next index, or about to close the channel
    | Closed           // waiting for every worker
    | Returned(r: Result)

  datatype Worker =
    | Receiving        // waiting on the channel
    | Running(i: nat)  // inside a call
    | Failed           // its call failed and is recorded; the context is not yet cancelled
    | Exited

  datatype State = State(
    n: nat,
    dispatcher: Dispatcher,
    next: nat,                  // the next index to offer
    workers: seq<Worker>,
    cancelled: bool,
    stopped: bool,
    errs: nat,
    calls: seq<nat>,            // the indices called, in the order the calls began
    results: map<nat, bool>)    // whether each finished call succeeded

  /** At least one worker and never more than there are indices. */
  function Clamp(n: nat, limit: int): (l: nat)
    requires n > 0
    ensures 1 <= l <= n && (1 <= limit <= n ==> l == limit)
  {
    if limit < 1 then 1 else if limit > n then n else limit
  }

  function Start(n: nat, limit: int): State
    requires n > 0
  {
    State(n, Sending, 0, seq(Clamp(n, limit), _ => Receiving), false, false, 0, [], map[])
  }

  datatype Step =
    | Send(w: nat)
    | StopOnCancel
    | Close
    | Succeed(w: nat)
    | Fail(w: nat)
    | CancelBy(w: nat)
    | Exit(w: nat)
    | Return
    | CallerCancels

  predicate AllExited(s: State) { forall w :: 0 <= w < |s.workers| ==> s.workers[w] == Exited }

  predicate AllTrue(results: map<nat, bool>) { forall i <- results :: results[i] }

  predicate Enabled(s: State, step: Step) {
    match step
    case Send(w) => s.dispatcher == Sending && s.next < s.n && w < |s.workers| && s.workers[w] == Receiving
    case StopOnCancel => s.dispatcher == Sending && s.next < s.n && s.cancelled
    case Close => s.dispatcher == Sending && s.next == s.n
    case Succeed(w) => w < |s.workers| && s.workers[w].Running?
    case Fail(w) => w < |s.workers| && s.workers[w].Running?
    case CancelBy(w) => w < |s.workers| && s.workers[w] == Failed
    case Exit(w) => w < |s.workers| && s.workers[w] == Receiving && s.dispatcher != Sending
    case Return => s.dispatcher == Closed && AllExited(s)
    case CallerCancels => !s.cancelled && !s.dispatcher.Returned?
  }

  function ResultOf(s: State): Result {
    if s.errs > 0 then CallFailed else if s.stopped then Cancelled else Nil
  }

  function Apply(s: State, step: Step): State
    requires Enabled(s, step)
  {
    match step
    case Send(w) =>
      s.(next := s.next + 1, workers := s.workers[w := Running(s.next)], calls := s.calls + [s.next])
    case StopOnCancel => s.(dispatcher := Closed, stopped := true)
    case Close => s.(dispatcher := Closed)
    case Succeed(w) => s.(workers := s.workers[w := Receiving], results := s.results[s.workers[w].i := true])
    case Fail(w) =>
      s.(workers := s.workers[w := Failed], results := s.results[s.workers[w].i := false], errs := s.errs + 1)
    case CancelBy(w) => s.(workers := s.workers[w := Exited], cancelled := true)
    case Exit(w) => s.(workers := s.workers[w := Exited])
    case Return => s.(dispatcher := Returned(ResultOf(s)))
    case CallerCancels => s.(cancelled := true)
  }

  predicate RunTo(s: State, steps: seq<Step>, end: State)
    decreases |steps|
  {
    if steps == [] then end == s
    else Enabled(s, steps[0]) && RunTo(Apply(s, steps[0]), steps[1..], end)
  }

  // ---------- what every interleaving keeps ----------

  function UpTo(n: nat): seq<nat> { seq(n, i requires 0 <= i < n => i) }

  predicate InCall(s: State, i: nat) { exists w :: 0 <= w < |s.workers| && s.workers[w] == Running(i) }

  ghost predicate CallsOk(s: State) {
    && s.calls == UpTo(s.next) && s.next <= s.n
    && (forall i <- s.results :: i < s.next)
    && (forall i {:trigger InCall(s, i)} | 0 <= i < s.next :: i in s.results || InCall(s, i))
    && (forall w :: 0 <= w < |s.workers| && s.workers[w].Running? ==>
          s.workers[w].i < s.next && s.workers[w].i !in s.results)
    && (forall v, w :: 0 <= v < w < |s.workers| && s.workers[v].Running? && s.workers[w].Running? ==>
          s.workers[v].i != s.workers[w].i)
  }

  ghost predicate EndOk(s: State) {
    && (s.errs == 0 <==> AllTrue(s.results))
    && (s.stopped ==> s.next < s.n && s.dispatcher != Sending)
    && (s.dispatcher != Sending && !s.stopped ==> s.next == s.n)
    && (s.dispatcher == Sending && !s.cancelled ==> forall w :: 0 <= w < |s.workers| ==> s.workers[w] != Exited)
    && (s.dispatcher.Returned? ==> s.dispatcher.r == ResultOf(s) && AllExited(s))
  }

  ghost predicate Inv(s: State) { CallsOk(s) && EndOk(s) && |s.workers| > 0 }

  lemma StartOk(n: nat, limit: int)
    requires n > 0
    ensures Inv(Start(n, limit))
  {
  }

  lemma SendKeeps(s: State, w: nat)
    requires Inv(s) && Enabled(s, Send(w))
    ensures Inv(Apply(s, Send(w)))
  {
    var next := Apply(s, Send(w));
    forall i | 0 <= i < next.next ensures i in next.results || InCall(next, i) {
      if i == s.next {
        assert next.workers[w] == Running(i);
      } else if i !in s.results {
        assert InCall(s, i);
        var v :| 0 <= v < |s.workers| && s.workers[v] == Running(i);
        assert next.workers[v] == Running(i);
      }
    }
    assert UpTo(next.next) == UpTo(s.next) + [s.next];
  }

  /** A call that finishes leaves the calls still running exactly as they were. */
  lemma FinishKeeps(s: State, w: nat, ok: bool, becomes: Worker)
    requires Inv(s) && w < |s.workers| && s.workers[w].Running? && (becomes == Receiving || becomes == Failed)
    ensures CallsOk(s.(workers := s.workers[w := becomes], results := s.results[s.workers[w].i := ok]))
  {
    var done := s.workers[w].i;
    var next := s.(workers := s.workers[w := becomes], results := s.results[done := ok]);
    forall i | 0 <= i < next.next ensures i in next.results || InCall(next, i) {
      if i !in s.results && i != done {
        assert InCall(s, i);
        var v :| 0 <= v < |s.workers| && s.workers[v] == Running(i);
        assert next.workers[v] == Running(i);
      }
    }
  }

  lemma ResultsKept(results: map<nat, bool>, i: nat, ok: bool)
    requires i !in results
    ensures AllTrue(results[i := ok]) <==> ok && AllTrue(results)
  {
    var after := results[i := ok];
    assert after[i] == ok && i in after;
    assert forall j <- results :: j in after && after[j] == results[j];
  }

  /** A worker outside any call may stop without disturbing one. */
  lemma LeaveKeeps(s: State, w: nat)
    requires Inv(s) && w < |s.workers| && !s.workers[w].Running?
    ensures CallsOk(s.(workers := s.workers[w := Exited]))
  {
    var next := s.(workers := s.workers[w := Exited]);
    forall i | 0 <= i < next.next ensures i in next.results || InCall(next, i) {
      if i !in s.results {
        assert InCall(s, i);
        var v :| 0 <= v < |s.workers| && s.workers[v] == Running(i);
        assert next.workers[v] == Running(i);
      }
    }
  }

  lemma SameCalls(s: State, next: State)
    requires CallsOk(s)
    requires next.workers == s.workers && next.results == s.results && next.calls == s.calls
    requires next.next == s.next && next.n == s.n
    ensures CallsOk(next)
  {
    forall i | 0 <= i < next.next ensures i in next.results || InCall(next, i) {
      assert i in s.results || InCall(s, i);
    }
  }

  lemma StepKeeps(s: State, step: Step)
    requires Inv(s) && Enabled(s, step)
    ensures Inv(Apply(s, step))
  {
    match step
    case Send(w) => SendKeeps(s, w);
    case Succeed(w) =>
      FinishKeeps(s, w, true, Receiving);
      ResultsKept(s.results, s.workers[w].i, true);
    case Fail(w) =>
      FinishKeeps(s, w, false, Failed);
      ResultsKept(s.results, s.workers[w].i, false);
      SameCalls(s.(workers := s.workers[w := Failed], results := s.results[s.workers[w].i := false]), Apply(s, step));
    case CancelBy(w) =>
      LeaveKeeps(s, w);
      SameCalls(s.(workers := s.workers[w := Exited]), Apply(s, step));
    case Exit(w) => LeaveKeeps(s, w);
    case StopOnCancel => SameCalls(s, Apply(s, step));
    case Close => SameCalls(s, Apply(s, step));
    case Return => SameCalls(s, Apply(s, step));
    case CallerCancels => SameCalls(s, Apply(s, step));
  }

  lemma {:induction false} RunKeeps(s: State, steps: seq<Step>, end: State)
    requires Inv(s) && RunTo(s, steps, end)
    ensures Inv(end) && end.n == s.n && |end.workers| == |s.workers|
    decreases |steps|
  {
    if steps != [] {
      StepKeeps(s, steps[0]);
      RunKeeps(Apply(s, steps[0]), steps[1..], end);
    }
  }

  /** Every index below `n`, and no other, has been called and has come back. */
  predicate Finished(results: map<nat, bool>, n: nat) {
    (forall i <- results :: i < n) && forall i: nat :: i < n ==> i in results
  }

  /**
   * It returns nil exactly when every index was called, once each, and every call succeeded; whatever
   * the interleaving, calls begin in index order and no index is called twice.
   */
  lemma NilMeansEveryCallSucceeded(n: nat, limit: int, steps: seq<Step>, end: State)
    requires n > 0 && RunTo(Start(n, limit), steps, end)
    ensures end.calls == UpTo(|end.calls|) && |end.calls| <= n
    ensures end.dispatcher.Returned? ==>
      (end.dispatcher.r == Nil <==> end.calls == UpTo(n) && AllTrue(end.results) && Finished(end.results, n))
  {
    StartOk(n, limit);
    RunKeeps(Start(n, limit), steps, end);
    if end.dispatcher.Returned? {
      AllCameBack(end);
      assert |UpTo(end.next)| == end.next && |UpTo(n)| == n;
    }
  }

  lemma AllCameBack(s: State)
    requires CallsOk(s) && AllExited(s)
    ensures Finished(s.results, s.next)
  {
    forall i: nat | i < s.next ensures i in s.results {
      assert i in s.results || InCall(s, i);
    }
  }

  // ---------- what it returns, and why ----------

  /** The indices whose calls came back with an error. */
  function FailedIn(results: map<nat, bool>): set<nat> { set i <- results | !results[i] }

  /** Every failed call left one error; the pool was cancelled by one of them or by its caller. */
  ghost predicate Blamed(s: State, asked: bool) {
    && s.errs == |FailedIn(s.results)|
    && ((exists w :: 0 <= w < |s.workers| && s.workers[w] == Failed) ==> s.errs > 0)
    && (s.cancelled ==> asked || s.errs > 0) && (s.stopped ==> s.cancelled)
  }

  lemma OneMoreResult(results: map<nat, bool>, i: nat, ok: bool)
    requires i !in results
    ensures FailedIn(results[i := ok]) == FailedIn(results) + if ok then {} else {i}
    ensures |FailedIn(results[i := ok])| == |FailedIn(results)| + if ok then 0 else 1
  {
    var after := results[i := ok];
    assert forall j <- results :: j in after && after[j] == results[j];
    assert FailedIn(after) == FailedIn(results) + if ok then {} else {i};
  }

  lemma StepBlames(s: State, step: Step, asked: bool)
    requires CallsOk(s) && Enabled(s, step) && Blamed(s, asked)
    ensures Blamed(Apply(s, step), asked || step.CallerCancels?)
  {
    if step.Succeed? || step.Fail? {
      OneMoreResult(s.results, s.workers[step.w].i, step.Succeed?);
    }
  }

  lemma {:induction false} RunBlames(s: State, steps: seq<Step>, end: State, asked: bool)
    requires Inv(s) && RunTo(s, steps, end) && Blamed(s, asked)
    ensures Blamed(end, asked || CallerCancels in steps)
    decreases |steps|
  {
    if steps != [] {
      StepKeeps(s, steps[0]);
      StepBlames(s, steps[0], asked);
      RunBlames(Apply(s, steps[0]), steps[1..], end, asked || steps[0].CallerCancels?);
    }
  }

  /**
   * It reports every call that failed, one error for each, and fails for no other reason but that its
   * caller cancelled: without that, and with no failed call, it returns nil.
   */
  lemma WhyItFails(n: nat, limit: int, steps: seq<Step>, end: State)
    requires n > 0 && RunTo(Start(n, limit), steps, end) && end.dispatcher.Returned?
    ensures end.errs == |FailedIn(end.results)|
    ensures end.dispatcher.r == CallFailed <==> FailedIn(end.results) != {}
    ensures end.dispatcher.r == Cancelled ==> CallerCancels in steps
    ensures end.dispatcher.r == Nil <== FailedIn(end.results) == {} && CallerCancels !in steps
  {
    StartOk(n, limit);
    RunKeeps(Start(n, limit), steps, end);
    assert FailedIn(map[]) == {};
    RunBlames(Start(n, limit), steps, end, false);
  }

  // ---------- never more than the limit ----------

  function Outstanding(workers: seq<Worker>): (k: nat)
    ensures k <= |workers|
  {
    if workers == [] then 0
    else Outstanding(workers[..|workers| - 1]) + if workers[|workers| - 1].Running? then 1 else 0
  }

  lemma {:induction false} OutstandingAt(workers: seq<Worker>, w: nat, becomes: Worker)
    requires w < |workers|
    ensures Outstanding(workers[w := becomes]) + (if workers[w].Running? then 1 else 0)
      == Outstanding(workers) + (if becomes.Running? then 1 else 0)
    decreases |workers|
  {
    var last := |workers| - 1;
    if w < last {
      OutstandingAt(workers[..last], w, becomes);
      assert workers[w := becomes][..last] == workers[..last][w := becomes];
    } else {
      assert workers[w := becomes][..last] == workers[..last];
    }
  }

  lemma {:induction false} NoneOutstanding(workers: seq<Worker>)
    requires forall w :: 0 <= w < |workers| ==> !workers[w].Running?
    ensures Outstanding(workers) == 0
    decreases |workers|
  {
    if workers != [] {
      NoneOutstanding(workers[..|workers| - 1]);
    }
  }

  /** Calls begun less calls come back: what is outstanding is what some worker is inside. */
  ghost predicate Counted(s: State) { |s.calls| == |s.results| + Outstanding(s.workers) }

  lemma StepCounts(s: State, step: Step)
    requires Inv(s) && Counted(s) && Enabled(s, step)
    ensures Counted(Apply(s, step))
  {
    match step
    case Send(w) => OutstandingAt(s.workers, w, Running(s.next));
    case Succeed(w) => OutstandingAt(s.workers, w, Receiving);
    case Fail(w) => OutstandingAt(s.workers, w, Failed);
    case CancelBy(w) => OutstandingAt(s.workers, w, Exited);
    case Exit(w) => OutstandingAt(s.workers, w, Exited);
    case _ =>
  }

  lemma {:induction false} RunCounts(s: State, steps: seq<Step>, end: State)
    requires Inv(s) && Counted(s) && RunTo(s, steps, end)
    ensures Counted(end)
    decreases |steps|
  {
    if steps != [] {
      StepCounts(s, steps[0]);
      StepKeeps(s, steps[0]);
      RunCounts(Apply(s, steps[0]), steps[1..], end);
    }
  }

  /** At no moment have more calls begun and not come back than the clamped limit allows. */
  lemma NeverMoreThanLimit(n: nat, limit: int, steps: seq<Step>, end: State)
    requires n > 0 && RunTo(Start(n, limit), steps, end)
    ensures |end.calls| - |end.results| <= Clamp(n, limit)
  {
    StartOk(n, limit);
    NoneOutstanding(Start(n, limit).workers);
    RunKeeps(Start(n, limit), steps, end);
    RunCounts(Start(n, limit), steps, end);
  }

  // ---------- it always comes to an end ----------

  /** A step of the pool itself can always be taken until it has returned, even when every worker has failed. */
  lemma NeverStuck(n: nat, limit: int, steps: seq<Step>, end: State) returns (step: Step)
    requires n > 0 && RunTo(Start(n, limit), steps, end) && !end.dispatcher.Returned?
    ensures Enabled(end, step) && step != CallerCancels
  {
    StartOk(n, limit);
    RunKeeps(Start(n, limit), steps, end);
    step := NextStep(end);
  }

  lemma NextStep(s: State) returns (step: Step)
    requires Inv(s) && !s.dispatcher.Returned?
    ensures Enabled(s, step) && step != CallerCancels
  {
    if w :| 0 <= w < |s.workers| && s.workers[w] != Exited {
      match s.workers[w]
      case Running(_) => step := Succeed(w);
      case Failed => step := CancelBy(w);
      case Receiving =>
        step := if s.dispatcher != Sending then Exit(w) else if s.next < s.n then Send(w) else Close;
    } else if s.dispatcher == Closed {
      step := Return;
    } else {
      assert s.workers[0] == Exited;
      step := if s.next < s.n then StopOnCancel else Close;
    }
  }

  function Weight(w: Worker): nat {
    match w case Running(_) => 3 case Failed => 2 case Receiving => 1 case Exited => 0
  }

  function Weights(workers: seq<Worker>): nat {
    if workers == [] then 0 else Weights(workers[..|workers| - 1]) + Weight(workers[|workers| - 1])
  }

  lemma {:induction false} WeightsAt(workers: seq<Worker>, w: nat, becomes: Worker)
    requires w < |workers|
    ensures Weights(workers[w := becomes]) + Weight(workers[w]) == Weights(workers) + Weight(becomes)
    decreases |workers|
  {
    var last := |workers| - 1;
    if w < last {
      WeightsAt(workers[..last], w, becomes);
      assert workers[w := becomes][..last] == workers[..last][w := becomes];
    } else {
      assert workers[w := becomes][..last] == workers[..last];
    }
  }

  lemma {:induction false} WeightsOfStart(k: nat)
    ensures Weights(seq(k, _ => Receiving)) == k
  {
    if k > 0 {
      var workers := seq(k, _ => Receiving);
      assert workers[..k - 1] == seq(k - 1, _ => Receiving);
      WeightsOfStart(k - 1);
    }
  }

  /** What is still to be done; every step does some of it. */
  function Remaining(s: State): nat
    requires s.next <= s.n
  {
    3 * (s.n - s.next) + Weights(s.workers)
    + (match s.dispatcher case Sending => 2 case Closed => 1 case Returned(_) => 0)
    + (if s.cancelled then 0 else 1)
  }

  lemma StepDoesSome(s: State, step: Step)
    requires Inv(s) && Enabled(s, step)
    ensures Apply(s, step).next <= Apply(s, step).n && Remaining(Apply(s, step)) < Remaining(s)
  {
    match step
    case Send(w) => WeightsAt(s.workers, w, Running(s.next));
    case Succeed(w) => WeightsAt(s.workers, w, Receiving);
    case Fail(w) => WeightsAt(s.workers, w, Failed);
    case CancelBy(w) => WeightsAt(s.workers, w, Exited);
    case Exit(w) => WeightsAt(s.workers, w, Exited);
    case _ =>
  }

  lemma {:induction false} RunIsBounded(s: State, steps: seq<Step>, end: State)
    requires Inv(s) && RunTo(s, steps, end)
    ensures end.next <= end.n && |steps| + Remaining(end) <= Remaining(s)
    decreases |steps|
  {
    if steps != [] {
      StepKeeps(s, steps[0]);
      StepDoesSome(s, steps[0]);
      RunIsBounded(Apply(s, steps[0]), steps[1..], end);
    }
  }

  /** No run is longer than this, so with a step always available every maximal run ends by returning. */
  lemma AlwaysEnds(n: nat, limit: int, steps: seq<Step>, end: State)
    requires n > 0 && RunTo(Start(n, limit), steps, end)
    ensures |steps| <= 3 * n + Clamp(n, limit) + 3
  {
    StartOk(n, limit);
    WeightsOfStart(Clamp(n, limit));
    RunIsBounded(Start(n, limit), steps, end);
  }
}
