/** Retries of queued tasks and the exception handler that stops them: src/wq/core/task.py, src/wq/core/cfg.py and
    src/wq/ql/notify.py. What RQ itself does on a failure is as the notes of task.py describe it. */
module Retries {
  import opened Sequences

  type Error = nat

  /** What a run of a task raises: a `StopTask` and its cause, or anything else. */
  datatype Raised = Stop(cause: Option<Error>) | Other(error: Error)

  datatype Status = Queued | Started | Scheduled | Failed | Finished

  /** An RQ job as kept in Redis, its place in the registries, the runs started and those that failed, and the
      exceptions raised for which the handler has not been called yet. */
  datatype Job = Job(
    intervals: seq<nat>, retriesLeft: nat, status: Status, inScheduled: bool, inFailed: bool,
    exceptions: seq<Option<Error>>, runs: nat, failures: nat, unhandled: seq<Raised>)

  /** A freshly queued task: `Retry(max=len(ts), interval=ts)`, or no retries for an empty list. */
  function Enqueued(intervals: seq<nat>): Job {
    Job(intervals, |intervals|, Queued, false, false, [], 0, 0, [])
  }

  // ---- The steps ------------------------------------------------------------------------

  function AfterStart(j: Job): Job {
    j.(status := Started, runs := j.runs + 1)
  }

  function AfterSuccess(j: Job): Job {
    j.(status := Finished)
  }

  /** RQ's own step on a failure: schedule the job again if there are retries left, else fail it. */
  function AfterFailure(j: Job, e: Raised): Job {
    var raised := j.(failures := j.failures + 1, unhandled := j.unhandled + [e]);
    if j.retriesLeft > 0 then raised.(retriesLeft := j.retriesLeft - 1, status := Scheduled, inScheduled := true)
    else raised.(status := Failed, inFailed := true)
  }

  function Recorded(e: Raised): Option<Error> {
    match e
    case Stop(cause) => cause
    case Other(error) => Some(error)
  }

  /** What `exc_handler` does with one exception. */
  function AfterHandler(j: Job, e: Raised): Job {
    var noted := j.(exceptions := j.exceptions + [Recorded(e)]);
    if e.Stop? && j.status == Scheduled then noted.(inScheduled := false, inFailed := true) else noted
  }

  /** The RQ scheduler, once the retry interval is over. */
  function AfterWait(j: Job): Job {
    j.(status := Queued, inScheduled := false)
  }

  /** The job object workers hold; the handler changes its meta data and the registries. */
  class RqJob {
    const intervals: seq<nat>
    var retriesLeft: nat
    var status: Status
    var inScheduled: bool
    var inFailed: bool
    var exceptions: seq<Option<Error>>
    ghost var runs: nat
    ghost var failures: nat
    ghost var unhandled: seq<Raised>

    ghost function State(): Job
      reads this
    {
      Job(intervals, retriesLeft, status, inScheduled, inFailed, exceptions, runs, failures, unhandled)
    }

    constructor (intervals: seq<nat>)
      ensures State() == Enqueued(intervals)
    {
      this.intervals := intervals;
      retriesLeft, status, inScheduled, inFailed, exceptions := |intervals|, Queued, false, false, [];
      runs, failures, unhandled := 0, 0, [];
    }

    method AddException(e: Option<Error>)
      modifies this
      ensures State() == old(State()).(exceptions := old(exceptions) + [e])
    {
      exceptions := exceptions + [e];
    }

    /** `exc_handler`; the result says whether further handlers are to be called. */
    method ExcHandler(e: Raised) returns (goOn: bool)
      modifies this
      ensures State() == AfterHandler(old(State()), e) && !goOn
    {
      if e.Stop? {
        AddException(e.cause);
        if status == Scheduled {
          inScheduled := false;
          inFailed := true;
        }
      } else {
        AddException(Some(e.error));
      }
      goOn := false;
    }

    method HandleJobFailure(e: Raised)
      modifies this
      ensures State() == AfterFailure(old(State()), e)
    {
      failures, unhandled := failures + 1, unhandled + [e];
      if retriesLeft > 0 {
        retriesLeft := retriesLeft - 1;
        status, inScheduled := Scheduled, true;
      } else {
        status, inFailed := Failed, true;
      }
    }

    /** A worker performs the job, with the given outcome of the run. */
    method PerformJob(outcome: Option<Raised>)
      requires status == Queued && unhandled == []
      modifies this
      ensures State() == AfterPerform(old(State()), outcome)
    {
      status, runs := Started, runs + 1;
      if outcome.None? {
        status := Finished;
      } else {
        HandleJobFailure(outcome.value);
        unhandled := [];
        var goOn := ExcHandler(outcome.value);
      }
    }
  }

  /** One whole run: the handler is called right after RQ's failure step. */
  function AfterPerform(j: Job, outcome: Option<Raised>): Job {
    if outcome.None? then AfterSuccess(AfterStart(j))
    else AfterHandler(AfterFailure(AfterStart(j), outcome.value).(unhandled := []), outcome.value)
  }

  // ---- A job performed again and again --------------------------------------------------

  /** A job is performed if it is queued or its interval can end; the outcome of the run, if it is, is given. */
  function PerformedOnce(j: Job, outcome: Option<Raised>): Job {
    var ready := if j.inScheduled then AfterWait(j) else j;
    if ready.status == Queued then AfterPerform(ready, outcome) else j
  }

  /** The job after it was performed as long as it is queued or comes back from the scheduler, the outcomes of its
      runs being the given ones. */
  function Performed(j: Job, outcomes: seq<Option<Raised>>): Job {
    if outcomes == [] then j
    else PerformedOnce(Performed(j, outcomes[..|outcomes| - 1]), outcomes[|outcomes| - 1])
  }

  predicate Retried(outcome: Option<Raised>) {
    outcome.Some? && outcome.value.Other?
  }

  /** The run that is the last one if there are enough retries: the first that succeeds or stops. */
  function LastRun(outcomes: seq<Option<Raised>>): (n: nat)
    ensures n <= |outcomes|
  {
    if outcomes == [] then 0
    else if !Retried(outcomes[0]) then 1
    else 1 + LastRun(outcomes[1..])
  }

  /** The outcomes of the runs that take place. */
  function Ran(outcomes: seq<Option<Raised>>, retries: nat): seq<Option<Raised>> {
    outcomes[..Min(LastRun(outcomes), retries + 1)]
  }

  function Noted(outcomes: seq<Option<Raised>>): seq<Option<Error>> {
    if outcomes == [] then []
    else
      var init, last := outcomes[..|outcomes| - 1], outcomes[|outcomes| - 1];
      if last.None? then Noted(init) else Noted(init) + [Recorded(last.value)]
  }

  function Min(a: nat, b: nat): nat {
    if a < b then a else b
  }

  lemma {:induction false} LastRunSnoc(init: seq<Option<Raised>>, o: Option<Raised>)
    ensures LastRun(init + [o]) == if AllRetried(init) then |init| + 1 else LastRun(init)
    ensures AllRetried(init) ==> LastRun(init) == |init|
  {
    var all := init + [o];
    if init == [] {
      assert all[0] == o && all[1..] == [];
    } else {
      assert all[0] == init[0] && all[1..] == init[1..] + [o];
      LastRunSnoc(init[1..], o);
      assert init == [init[0]] + init[1..];
    }
  }

  /** How a job stands after the runs that took place. */
  ghost predicate Stands(j: Job, intervals: seq<nat>, ran: seq<Option<Raised>>) {
    && j.intervals == intervals && j.runs == |ran| && j.unhandled == [] && j.exceptions == Noted(ran)
    && j.retriesLeft + |ran| <= |intervals| + 1
    && if ran == [] then j == Enqueued(intervals)
       else
         var last := ran[|ran| - 1];
         if last.None? then j.status == Finished && !j.inScheduled && !j.inFailed
         else if last.value.Other? && |ran| <= |intervals| then
           j.status == Scheduled && j.inScheduled && !j.inFailed && j.retriesLeft + |ran| == |intervals|
         else j.status != Queued && !j.inScheduled && j.inFailed
  }

  lemma PerformStands(j: Job, intervals: seq<nat>, ran: seq<Option<Raised>>, o: Option<Raised>)
    requires Stands(j, intervals, ran) && (ran == [] || (Retried(ran[|ran| - 1]) && |ran| <= |intervals|))
    ensures Stands(PerformedOnce(j, o), intervals, ran + [o])
  {
  }

  lemma OverStands(j: Job, intervals: seq<nat>, ran: seq<Option<Raised>>, o: Option<Raised>)
    requires Stands(j, intervals, ran) && ran != [] && !(Retried(ran[|ran| - 1]) && |ran| <= |intervals|)
    ensures PerformedOnce(j, o) == j
  {
  }

  /** The whole life of a job: it runs until a run succeeds or stops, and at most once more than it has retries; each
      failed run leaves one exception, in order; it ends in the failed registry unless its last run succeeded. */
  lemma {:induction false} LifeOfJob(intervals: seq<nat>, outcomes: seq<Option<Raised>>)
    ensures Stands(Performed(Enqueued(intervals), outcomes), intervals, Ran(outcomes, |intervals|))
  {
    if outcomes == [] {
      assert Ran(outcomes, |intervals|) == [];
    } else {
      var init, o := outcomes[..|outcomes| - 1], outcomes[|outcomes| - 1];
      LifeOfJob(intervals, init);
      assert outcomes == init + [o];
      LifeGoesOn(Performed(Enqueued(intervals), init), intervals, init, o);
    }
  }

  lemma LifeGoesOn(j: Job, intervals: seq<nat>, init: seq<Option<Raised>>, o: Option<Raised>)
    requires Stands(j, intervals, Ran(init, |intervals|))
    ensures Stands(PerformedOnce(j, o), intervals, Ran(init + [o], |intervals|))
  {
    RanSoFar(init, o, |intervals|);
    if AllRetried(init) && |init| <= |intervals| {
      PerformStands(j, intervals, Ran(init, |intervals|), o);
    } else {
      OverStands(j, intervals, Ran(init, |intervals|), o);
    }
  }

  ghost predicate AllRetried(outcomes: seq<Option<Raised>>) {
    forall x :: x in outcomes ==> Retried(x)
  }

  /** One more outcome is one more run as long as all before were retried, and changes nothing afterwards. */
  lemma RanSoFar(init: seq<Option<Raised>>, o: Option<Raised>, retries: nat)
    ensures var ran, more := Ran(init, retries), Ran(init + [o], retries);
      if AllRetried(init) && |init| <= retries
      then ran == init && more == ran + [o] && (ran != [] ==> Retried(ran[|ran| - 1]))
      else more == ran && ran != [] && !(Retried(ran[|ran| - 1]) && |ran| <= retries)
  {
    LastRunSnoc(init, o);
    LastIsNotRetried(init);
    if AllRetried(init) && |init| <= retries {
      assert (init + [o])[..|init| + 1] == init + [o];
      if init != [] { assert init[|init| - 1] in init; }
    } else {
      var n := Min(LastRun(init), retries + 1);
      assert (init + [o])[..n] == init[..n];
    }
  }

  lemma {:induction false} LastIsNotRetried(outcomes: seq<Option<Raised>>)
    ensures !AllRetried(outcomes) ==> LastRun(outcomes) > 0 && !Retried(outcomes[LastRun(outcomes) - 1])
  {
    if outcomes != [] {
      LastIsNotRetried(outcomes[1..]);
      assert outcomes == [outcomes[0]] + outcomes[1..];
    }
  }

  // ---- Any interleaving -----------------------------------------------------------------

  /** Steps by workers and the scheduler; the handler may come late. */
  datatype Action = Start | Succeed | Fail(e: Raised) | Handle(i: nat) | Wake

  function Next(j: Job, a: Action): Job {
    match a
    case Start => if j.status == Queued then AfterStart(j) else j
    case Succeed => if j.status == Started then AfterSuccess(j) else j
    case Fail(e) => if j.status == Started then AfterFailure(j, e) else j
    case Handle(i) =>
      if i < |j.unhandled|
      then AfterHandler(j, j.unhandled[i]).(unhandled := j.unhandled[..i] + j.unhandled[i + 1..]) else j
    case Wake => if j.inScheduled then AfterWait(j) else j
  }

  function Run(j: Job, actions: seq<Action>): Job {
    if actions == [] then j else Next(Run(j, actions[..|actions| - 1]), actions[|actions| - 1])
  }

  /** The steps of a whole run whose handler is called at once. */
  function PromptRun(outcome: Option<Raised>): seq<Action> {
    if outcome.None? then [Start, Succeed] else [Start, Fail(outcome.value), Handle(0)]
  }

  lemma RunTwo(j: Job, a: Action, b: Action)
    ensures Run(j, [a]) == Next(j, a) && Run(j, [a, b]) == Next(Next(j, a), b)
  {
    assert [a][..0] == [] && [a, b][..1] == [a];
    assert Run(j, [a]) == Next(j, a);
  }

  lemma RunThree(j: Job, a: Action, b: Action, c: Action)
    ensures Run(j, [a, b, c]) == Next(Next(Next(j, a), b), c)
  {
    RunTwo(j, a, b);
    assert [a, b, c][..2] == [a, b];
  }

  lemma HandledAtOnce(j: Job, e: Raised)
    requires j.status == Started && j.unhandled == []
    ensures Next(Next(j, Fail(e)), Handle(0)) == AfterHandler(AfterFailure(j, e).(unhandled := []), e)
  {
    var failed := AfterFailure(j, e);
    assert failed.unhandled == [e] && [e][..0] + [e][1..] == [];
  }

  /** Taken one after the other they are the run of a job performed alone. */
  lemma PromptIsSequential(j: Job, outcome: Option<Raised>)
    requires j.status == Queued && j.unhandled == []
    ensures Run(j, PromptRun(outcome)) == AfterPerform(j, outcome)
    ensures j.inScheduled ==> Run(j, [Wake]) == AfterWait(j)
  {
    RunTwo(j, Wake, Wake);
    RunTwo(j, Start, Succeed);
    if outcome.Some? {
      RunThree(j, Start, Fail(outcome.value), Handle(0));
      HandledAtOnce(AfterStart(j), outcome.value);
    }
  }

  ghost predicate Inv(j: Job) {
    && j.retriesLeft <= |j.intervals|
    && j.runs == |j.intervals| - j.retriesLeft + (if j.status == Queued || j.status == Scheduled then 0 else 1)
    && |j.exceptions| + |j.unhandled| == j.failures
    && (j.inScheduled ==> j.status == Scheduled && !j.inFailed)
    && (j.inFailed ==> j.status == Scheduled || j.status == Failed)
    && (j.status == Scheduled ==> j.inScheduled || j.inFailed)
    && (j.status == Failed ==> j.inFailed)
    && j.failures + (if j.status == Started || j.status == Finished then 1 else 0) == j.runs
  }

  lemma NextKeepsInv(j: Job, a: Action)
    requires Inv(j)
    ensures Inv(Next(j, a)) && Next(j, a).intervals == j.intervals
  {
  }

  lemma {:induction false} RunKeepsInv(j: Job, actions: seq<Action>)
    requires Inv(j)
    ensures Inv(Run(j, actions)) && Run(j, actions).intervals == j.intervals
  {
    if actions != [] {
      var init := actions[..|actions| - 1];
      RunKeepsInv(j, init);
      NextKeepsInv(Run(j, init), actions[|actions| - 1]);
    }
  }

  /** However late the handler comes: one run and as many more as there are intervals at most, one exception noted or
      due for each failed run, and never a place in both registries. */
  lemma RunsAreBounded(intervals: seq<nat>, actions: seq<Action>)
    ensures var j := Run(Enqueued(intervals), actions);
      && j.runs <= 1 + |intervals|
      && |j.exceptions| + |j.unhandled| == j.failures <= j.runs
      && !(j.inScheduled && j.inFailed)
      && (j.inFailed || j.status == Finished ==> forall more :: Run(j, more).runs == j.runs)
  {
    RunKeepsInv(Enqueued(intervals), actions);
    var j := Run(Enqueued(intervals), actions);
    if j.inFailed || j.status == Finished {
      forall more ensures Run(j, more).runs == j.runs { OverForGood(j, more); }
    }
  }

  lemma {:induction false} OverForGood(j: Job, actions: seq<Action>)
    requires Inv(j) && (j.inFailed || j.status == Finished)
    ensures var after := Run(j, actions);
      after.runs == j.runs && Inv(after) && (after.inFailed || after.status == Finished)
  {
    if actions != [] { OverForGood(j, actions[..|actions| - 1]); }
  }

  /** Handling a `StopTask` ends a job for good exactly when the scheduler has not put it back on the queue since,
      or its retries are used up in a run already started. */
  lemma StopIsFinal(j: Job, i: nat)
    requires Inv(j) && i < |j.unhandled| && j.unhandled[i].Stop?
    ensures (forall more :: Run(Next(j, Handle(i)), more).runs == j.runs)
       <==> j.status != Queued && !(j.status == Started && j.retriesLeft > 0)
  {
    var after := Next(j, Handle(i));
    if j.status == Queued {
      RunOne(after, Start);
    } else if j.status == Started {
      if j.retriesLeft > 0 {
        RunsOn(after);
      } else {
        forall more ensures Run(after, more).runs == j.runs { LastRunGoesOn(after, more); }
      }
    } else {
      forall more ensures Run(after, more).runs == j.runs { OverForGood(after, more); }
    }
  }

  /** It can be so: the interval ends between the failure step and the handler, and the stopped task runs again. */
  lemma StopCanBeOvertaken(intervals: seq<nat>, cause: Option<Error>)
    requires intervals != []
    ensures var j := Run(Enqueued(intervals), [Start, Fail(Stop(cause)), Wake, Handle(0), Start]);
      j.runs == 2 && j.status == Started && j.exceptions == [cause] && !j.inScheduled && !j.inFailed
  {
    var acts := [Start, Fail(Stop(cause)), Wake, Handle(0), Start];
    var j := Enqueued(intervals);
    assert acts[..4][..3] == acts[..3] && acts[..3][..2] == acts[..2] && acts[..2][..1] == [Start];
    RunOne(j, Start);
    assert Run(j, acts[..2]) == Next(Run(j, acts[..1]), acts[1]);
    assert Run(j, acts[..3]) == Next(Run(j, acts[..2]), acts[2]);
    assert Run(j, acts[..4]) == Next(Run(j, acts[..3]), acts[3]);
  }

  lemma RunOne(j: Job, a: Action)
    ensures Run(j, [a]) == Next(j, a)
  {
  }

  lemma RunsOn(j: Job)
    requires j.status == Started && j.retriesLeft > 0
    ensures exists more :: Run(j, more).runs != j.runs
  {
    var again := [Fail(Other(0)), Wake, Start];
    assert again[..2][..1] == again[..1] == [Fail(Other(0))] && again[..1][..0] == [];
    RunOne(j, again[0]);
    assert Run(j, again[..2]) == Next(Run(j, again[..1]), Wake);
    assert Run(j, again).runs == j.runs + 1;
  }

  lemma {:induction false} LastRunGoesOn(j: Job, actions: seq<Action>)
    requires Inv(j) && j.retriesLeft == 0 && j.status == Started
    ensures var after := Run(j, actions);
      && Inv(after) && after.runs == j.runs && after.retriesLeft == 0
      && (after.status == Started || after.inFailed || after.status == Finished)
  {
    if actions != [] { LastRunGoesOn(j, actions[..|actions| - 1]); }
  }

  /** A handler called before the retry interval is over comes in time. */
  lemma PromptStopIsFinal(j: Job, cause: Option<Error>, more: seq<Action>)
    requires Inv(j) && j.status == Started
    ensures var failed := Next(j, Fail(Stop(cause)));
      Run(Next(failed, Handle(|j.unhandled|)), more).runs == j.runs
  {
    var failed := Next(j, Fail(Stop(cause)));
    StopIsFinal(failed, |j.unhandled|);
    assert Run(Next(failed, Handle(|j.unhandled|)), more).runs == failed.runs;
  }

  // ---- Insert tasks and the default intervals -------------------------------------------

  /** What an insert task raises when the insert raised `e`. */
  function InsertRaises(offload: bool, canRetry: bool, e: Error): Raised {
    if !offload || canRetry then Other(e) else Stop(Some(e))
  }

  /** On the work queue an insert that cannot succeed later runs once, whatever retries are left; one that may is run
      again as long as there are retries. Both end in the failed registry, with the errors of all runs noted. */
  lemma InsertTaskLife(intervals: seq<nat>, canRetry: bool, e: Error, outcomes: seq<Option<Raised>>)
    requires |outcomes| > |intervals| && AllAre(outcomes, Some(InsertRaises(true, canRetry, e)))
    ensures var j := Performed(Enqueued(intervals), outcomes);
      && j.runs == (if canRetry then |intervals| + 1 else 1)
      && j.exceptions == seq(j.runs, i => Some(e))
      && j.inFailed && !j.inScheduled
  {
    var o := Some(InsertRaises(true, canRetry, e));
    LifeOfJob(intervals, outcomes);
    assert outcomes[0] in outcomes;
    AllRunsAlike(outcomes, o);
    var n := Min(LastRun(outcomes), |intervals| + 1);
    InsertTaskStands(Performed(Enqueued(intervals), outcomes), intervals, outcomes[..n], canRetry, e);
  }

  ghost predicate AllAre(outcomes: seq<Option<Raised>>, outcome: Option<Raised>) {
    forall i :: 0 <= i < |outcomes| ==> outcomes[i] == outcome
  }

  lemma {:induction false} AllRunsAlike(outcomes: seq<Option<Raised>>, o: Option<Raised>)
    requires AllAre(outcomes, o) && outcomes != []
    ensures LastRun(outcomes) == if Retried(o) then |outcomes| else 1
  {
    if |outcomes| > 1 { AllRunsAlike(outcomes[1..], o); }
  }

  lemma InsertTaskStands(j: Job, intervals: seq<nat>, ran: seq<Option<Raised>>, canRetry: bool, e: Error)
    requires Stands(j, intervals, ran) && AllAre(ran, Some(InsertRaises(true, canRetry, e)))
    requires |ran| == if canRetry then |intervals| + 1 else 1
    ensures j.runs == |ran| && j.exceptions == seq(|ran|, i => Some(e)) && j.inFailed && !j.inScheduled
  {
    SameNoted(ran, e);
    assert ran[|ran| - 1] == Some(InsertRaises(true, canRetry, e));
  }

  lemma {:induction false} SameNoted(outcomes: seq<Option<Raised>>, e: Error)
    requires forall i :: 0 <= i < |outcomes| ==> outcomes[i].Some? && Recorded(outcomes[i].value) == Some(e)
    ensures Noted(outcomes) == seq(|outcomes|, i => Some(e))
  {
    if outcomes != [] { SameNoted(outcomes[..|outcomes| - 1], e); }
  }

  const BASE_DELAY: nat := 20

  function Pow2(k: nat): nat {
    if k == 0 then 1 else 2 * Pow2(k - 1)
  }

  /** `[(2**k) * base_delay for k in range(0, maxRetries)]` */
  function RetryIntervals(maxRetries: nat): seq<nat> {
    if maxRetries == 0 then [] else RetryIntervals(maxRetries - 1) + [Pow2(maxRetries - 1) * BASE_DELAY]
  }

  function Sum(ts: seq<nat>): nat {
    if ts == [] then 0 else Sum(ts[..|ts| - 1]) + ts[|ts| - 1]
  }

  /** The default waits in all. */
  lemma {:induction false} DefaultWaits(n: nat)
    ensures |RetryIntervals(n)| == n && Sum(RetryIntervals(n)) == BASE_DELAY * (Pow2(n) - 1)
  {
    if n > 0 {
      DefaultWaits(n - 1);
      var ts := RetryIntervals(n);
      assert ts[..|ts| - 1] == RetryIntervals(n - 1);
    }
  }
}
