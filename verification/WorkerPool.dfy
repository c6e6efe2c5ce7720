/** The executor's pool: workers take statement indexes from an unbuffered channel, write
    each result at its own index, and stop the pool on the first error. */
module WorkerPool {
  import opened Results

  /** `Cancelling` has put its error in the channel and is about to cancel the context. */
  datatype Worker = Idle | Running(index: nat) | Cancelling | Exited

  datatype Error = QueryFailed(index: nat) | ContextDone

  /** The main goroutine: handing out jobs, or waiting for the workers with the error it
      already has, or returned. */
  datatype Main = Sending | Draining(failure: Option<Error>) | ReturnedError(error: Error) | ReturnedOk

  /** `next` jobs have been handed out; `starts` counts how often each index was started
      and `failed` holds the indexes whose query failed. */
  datatype Pool<T> = Pool(
    workers: seq<Worker>,
    main: Main,
    next: nat,
    errors: Option<Error>,
    cancelled: bool,
    results: seq<Option<T>>,
    starts: seq<nat>,
    failed: set<nat>)

  datatype Action =
    | Dispatch(w: nat)
    | CloseJobs
    | ReceiveError
    | SeeDone
    | Succeed(w: nat)
    | Fail(w: nat)
    | CancelContext(w: nat)
    | Exit(w: nat)
    | Deadline
    | Return

  function WorkerCount(maxConcurrent: int, statements: nat): nat
  {
    var limit: nat := if maxConcurrent <= 0 then 4 else maxConcurrent;
    if limit < statements then limit else statements
  }

  /** `answers` holds what each statement's query returns when it succeeds. */
  function Initially<T>(maxConcurrent: int, answers: seq<T>): Pool<T>
  {
    Pool(seq(WorkerCount(maxConcurrent, |answers|), _ => Idle), Sending, 0, None, false,
         seq(|answers|, _ => None), seq(|answers|, _ => 0), {})
  }

  predicate Is(p: Pool, w: nat, state: Worker)
  {
    w < |p.workers| && p.workers[w] == state
  }

  predicate IsRunning(p: Pool, w: nat)
  {
    w < |p.workers| && p.workers[w].Running?
  }

  predicate AllExited(p: Pool)
  {
    forall w :: 0 <= w < |p.workers| ==> p.workers[w] == Exited
  }

  predicate Enabled<T>(answers: seq<T>, p: Pool<T>, a: Action)
  {
    match a
    case Dispatch(w) => p.main == Sending && p.next < |answers| && Is(p, w, Idle)
    case CloseJobs => p.main == Sending && p.next == |answers|
    case ReceiveError => p.main == Sending && p.next < |answers| && p.errors.Some?
    case SeeDone => p.main == Sending && p.next < |answers| && p.cancelled
    case Succeed(w) => IsRunning(p, w)
    case Fail(w) => IsRunning(p, w)
    case CancelContext(w) => Is(p, w, Cancelling)
    case Exit(w) => p.main != Sending && Is(p, w, Idle)
    case Deadline => !p.cancelled
    case Return => p.main.Draining? && AllExited(p)
  }

  predicate Shaped<T>(answers: seq<T>, p: Pool<T>)
  {
    |p.results| == |p.starts| == |answers|
    && p.next <= |answers|
    && forall w :: 0 <= w < |p.workers| && p.workers[w].Running? ==> p.workers[w].index < p.next
  }

  function Conclude<T>(p: Pool<T>): Main
    requires p.main.Draining?
  {
    if p.main.failure.Some? then ReturnedError(p.main.failure.value)
    else if p.errors.Some? then ReturnedError(p.errors.value)
    else if p.cancelled then ReturnedError(ContextDone)
    else ReturnedOk
  }

  function Next<T>(answers: seq<T>, p: Pool<T>, a: Action): Pool<T>
    requires Shaped(answers, p) && Enabled(answers, p, a)
  {
    match a
    case Dispatch(w) =>
      p.(workers := p.workers[w := Running(p.next)], next := p.next + 1, starts := p.starts[p.next := p.starts[p.next] + 1])
    case CloseJobs => p.(main := Draining(None))
    case ReceiveError => p.(main := Draining(p.errors), errors := None)
    case SeeDone => p.(main := Draining(Some(ContextDone)))
    case Succeed(w) =>
      var i := p.workers[w].index;
      p.(workers := p.workers[w := Idle], results := p.results[i := Some(answers[i])])
    case Fail(w) =>
      var i := p.workers[w].index;
      if p.errors.None? then
        p.(workers := p.workers[w := Cancelling], errors := Some(QueryFailed(i)), failed := p.failed + {i})
      else p.(workers := p.workers[w := Exited], failed := p.failed + {i})
    case CancelContext(w) => p.(workers := p.workers[w := Exited], cancelled := true)
    case Exit(w) => p.(workers := p.workers[w := Exited])
    case Deadline => p.(cancelled := true)
    case Return => p.(main := Conclude(p))
  }

  // ----- invariant -----

  predicate Returned(p: Pool)
  {
    p.main.ReturnedError? || p.main.ReturnedOk?
  }

  predicate IsRun(p: Pool, i: nat)
  {
    exists w :: 0 <= w < |p.workers| && p.workers[w] == Running(i)
  }

  /** A job that was handed out is being run, has its own result, or failed; others are
      untouched. */
  predicate JobInvariant<T(==)>(answers: seq<T>, p: Pool<T>, i: nat)
    requires Shaped(answers, p) && i < |answers|
  {
    && p.starts[i] == (if i < p.next then 1 else 0)
    && (p.results[i].Some? ==> p.results[i].value == answers[i])
    && (i < p.next ==> IsRun(p, i) || p.results[i].Some? || i in p.failed)
    && (i >= p.next ==> p.results[i].None? && i !in p.failed)
  }

  predicate HasError(p: Pool)
  {
    p.errors.Some? || (p.main.Draining? && p.main.failure.Some?) || p.main.ReturnedError?
  }

  predicate MainInvariant<T>(answers: seq<T>, p: Pool<T>)
  {
    && (p.failed != {} ==> HasError(p))
    && (p.main == Draining(None) ==> p.next == |answers|)
    && (p.main.ReturnedError? || p.main.ReturnedOk? ==> AllExited(p))
    && (p.main == ReturnedOk ==> p.next == |answers| && p.failed == {})
    && (p.main == Sending ==>
          forall w :: 0 <= w < |p.workers| && p.workers[w] in {Cancelling, Exited} ==> p.failed != {})
    && (|answers| > 0 ==> |p.workers| > 0)
  }

  /** No two workers run the same job, and a job is not run again once it has an outcome. */
  predicate Exclusive<T>(answers: seq<T>, p: Pool<T>)
    requires Shaped(answers, p)
  {
    && (forall v, w :: 0 <= v < w < |p.workers| && p.workers[v].Running? && p.workers[w].Running? ==>
          p.workers[v].index != p.workers[w].index)
    && forall w :: 0 <= w < |p.workers| && p.workers[w].Running? ==>
         p.results[p.workers[w].index].None? && p.workers[w].index !in p.failed
  }

  predicate Invariant<T(==)>(answers: seq<T>, p: Pool<T>)
  {
    && Shaped(answers, p) && Exclusive(answers, p) && MainInvariant(answers, p)
    && forall i :: 0 <= i < |answers| ==> JobInvariant(answers, p, i)
  }

  lemma StepKeepsShape<T>(answers: seq<T>, p: Pool<T>, a: Action)
    requires Invariant(answers, p) && Enabled(answers, p, a)
    ensures Shaped(answers, Next(answers, p, a)) && Exclusive(answers, Next(answers, p, a))
  {
    if a.Dispatch? { assert JobInvariant(answers, p, p.next); }
  }

  lemma StepKeepsMain<T>(answers: seq<T>, p: Pool<T>, a: Action)
    requires Invariant(answers, p) && Enabled(answers, p, a)
    ensures MainInvariant(answers, Next(answers, p, a))
  {
  }

  lemma StepKeepsJob<T>(answers: seq<T>, p: Pool<T>, a: Action, i: nat)
    requires Invariant(answers, p) && Enabled(answers, p, a) && i < |answers|
    requires Shaped(answers, Next(answers, p, a))
    ensures JobInvariant(answers, Next(answers, p, a), i)
  {
    var p' := Next(answers, p, a);
    assert JobInvariant(answers, p, i);
    if IsRun(p, i) {
      var w :| 0 <= w < |p.workers| && p.workers[w] == Running(i);
      assert p'.workers[w] == Running(i) || p'.results[i].Some? || i in p'.failed;
    }
    if a.Dispatch? && i == p.next {
      assert p'.workers[a.w] == Running(i);
    }
  }

  lemma StepKeepsInvariant<T>(answers: seq<T>, p: Pool<T>, a: Action)
    requires Invariant(answers, p) && Enabled(answers, p, a)
    ensures Invariant(answers, Next(answers, p, a))
  {
    StepKeepsShape(answers, p, a);
    StepKeepsMain(answers, p, a);
    forall i | 0 <= i < |answers| ensures JobInvariant(answers, Next(answers, p, a), i) {
      StepKeepsJob(answers, p, a, i);
    }
  }

  // ----- runs -----

  /** The state after a run, if every step was enabled when it was taken. */
  function Run<T>(maxConcurrent: int, answers: seq<T>, actions: seq<Action>): Option<Pool<T>>
  {
    if actions == [] then Some(Initially(maxConcurrent, answers))
    else
      var last := |actions| - 1;
      var before := Run(maxConcurrent, answers, actions[..last]);
      if before.None? || !Shaped(answers, before.value) || !Enabled(answers, before.value, actions[last]) then None
      else Some(Next(answers, before.value, actions[last]))
  }

  lemma {:induction false} RunKeepsInvariant<T>(maxConcurrent: int, answers: seq<T>, actions: seq<Action>)
    requires Run(maxConcurrent, answers, actions).Some?
    ensures Invariant(answers, Run(maxConcurrent, answers, actions).value)
    decreases |actions|
  {
    if actions != [] {
      var last := |actions| - 1;
      RunKeepsInvariant(maxConcurrent, answers, actions[..last]);
      StepKeepsInvariant(answers, Run(maxConcurrent, answers, actions[..last]).value, actions[last]);
    }
  }

  /** Over every schedule: no statement is started twice; a pool that returns without error
      holds each statement's own result at its own index; and once any statement has
      failed the pool can only return an error. */
  lemma PoolIsCorrect<T>(maxConcurrent: int, answers: seq<T>, actions: seq<Action>)
    requires Run(maxConcurrent, answers, actions).Some?
    ensures var p := Run(maxConcurrent, answers, actions).value;
            && |p.results| == |p.starts| == |answers|
            && (forall i :: 0 <= i < |answers| ==> p.starts[i] <= 1)
            && (p.main == ReturnedOk ==> forall i :: 0 <= i < |answers| ==> p.results[i] == Some(answers[i]))
            && (p.failed != {} && Returned(p) ==> p.main.ReturnedError?)
  {
    RunKeepsInvariant(maxConcurrent, answers, actions);
    hide Run;
    var p := Run(maxConcurrent, answers, actions).value;
    forall i | 0 <= i < |answers|
      ensures p.starts[i] <= 1
      ensures p.main == ReturnedOk ==> p.results[i] == Some(answers[i])
    {
      assert JobInvariant(answers, p, i);
      if p.main == ReturnedOk {
        assert !IsRun(p, i);
      }
    }
  }

  /** A query error comes from a query that failed; the end of the context was seen. */
  predicate HasCause(p: Pool, e: Error)
  {
    match e case QueryFailed(i) => i in p.failed case ContextDone => p.cancelled
  }

  predicate ErrorsCaused(p: Pool)
  {
    && (p.errors.Some? ==> HasCause(p, p.errors.value))
    && (p.main.Draining? && p.main.failure.Some? ==> HasCause(p, p.main.failure.value))
    && (p.main.ReturnedError? ==> HasCause(p, p.main.error))
    && forall w :: 0 <= w < |p.workers| && p.workers[w] == Cancelling ==> p.failed != {}
  }

  /** In every schedule an error that is returned has its cause, queries that failed were run, the
      context only ends by its deadline or after a failure, and no more workers run than allowed. */
  lemma {:induction false} ErrorsHaveCauses<T>(maxConcurrent: int, answers: seq<T>, actions: seq<Action>)
    requires Run(maxConcurrent, answers, actions).Some?
    ensures var p := Run(maxConcurrent, answers, actions).value;
            && ErrorsCaused(p) && (forall i :: i in p.failed ==> i < p.next <= |answers|)
            && (p.cancelled ==> Deadline in actions || p.failed != {})
            && (p.failed != {} ==> exists w :: Fail(w) in actions)
            && |p.workers| <= |answers| && (maxConcurrent > 0 ==> |p.workers| <= maxConcurrent)
            && (maxConcurrent <= 0 ==> |p.workers| <= 4)
            && (|p.workers| < |answers| ==> |p.workers| == if maxConcurrent <= 0 then 4 else maxConcurrent)
    decreases |actions|
  {
    if actions != [] {
      var last := |actions| - 1;
      ErrorsHaveCauses(maxConcurrent, answers, actions[..last]);
      RunKeepsInvariant(maxConcurrent, answers, actions[..last]);
      var p := Run(maxConcurrent, answers, actions[..last]).value;
      assert actions == actions[..last] + [actions[last]];
      hide Run;
      StepHasCauses(answers, p, actions[last]);
    }
  }

  lemma StepHasCauses<T>(answers: seq<T>, p: Pool<T>, a: Action)
    requires Invariant(answers, p) && Enabled(answers, p, a) && ErrorsCaused(p)
    requires forall i :: i in p.failed ==> i < p.next <= |answers|
    ensures var q := Next(answers, p, a);
            && ErrorsCaused(q) && |q.workers| == |p.workers| && (forall i :: i in q.failed ==> i < q.next <= |answers|)
            && (q.cancelled && !p.cancelled ==> a.Deadline? || q.failed != {})
            && p.failed <= q.failed && (q.failed != p.failed ==> a.Fail?)
  {
  }

  /** The pool returns without an error exactly when there is none at hand and the context is not
      done. */
  lemma ReturnIsExact<T>(answers: seq<T>, p: Pool<T>)
    requires Shaped(answers, p) && Enabled(answers, p, Return)
    ensures var q := Next(answers, p, Return);
            && Returned(q)
            && (q.main == ReturnedOk <==> p.main.failure.None? && p.errors.None? && !p.cancelled)
            && (p.main.failure.Some? ==> q.main == ReturnedError(p.main.failure.value))
            && (p.main.failure.None? && p.errors.Some? ==> q.main == ReturnedError(p.errors.value))
  {
  }

  // ----- progress -----

  /** As long as every query returns, the pool is never stuck: some step other than a
      deadline is enabled until it has returned. */
  lemma NeverStuck<T>(answers: seq<T>, p: Pool<T>) returns (a: Action)
    requires Invariant(answers, p) && !Returned(p)
    ensures Enabled(answers, p, a) && a != Deadline
  {
    if w: nat :| w < |p.workers| && p.workers[w] != Exited {
      match p.workers[w]
      case Running(_) => a := Succeed(w);
      case Cancelling => a := CancelContext(w);
      case _ =>
        a := if p.main != Sending then Exit(w)
             else if p.next < |answers| then Dispatch(w) else CloseJobs;
    } else if p.main.Draining? {
      a := Return;
    } else if p.next == |answers| {
      a := CloseJobs;
    } else {
      assert p.workers[0] == Exited;
      a := ReceiveError;
    }
  }

  function WorkerWeight(w: Worker): nat
  {
    match w case Running(_) => 3 case Cancelling => 2 case Idle => 1 case Exited => 0
  }

  function WorkersWeight(ws: seq<Worker>): nat
  {
    if ws == [] then 0 else WorkersWeight(ws[..|ws| - 1]) + WorkerWeight(ws[|ws| - 1])
  }

  /** Bound on the steps left: jobs not handed out, what each worker may still do, and the
      remaining phases of the main goroutine. */
  function StepsLeft<T>(answers: seq<T>, p: Pool<T>): nat
    requires p.next <= |answers|
  {
    3 * (|answers| - p.next) + WorkersWeight(p.workers)
    + (if p.main == Sending then 2 else if p.main.Draining? then 1 else 0)
    + (if p.cancelled then 0 else 1)
  }

  lemma {:induction false} WorkersWeightUpdate(ws: seq<Worker>, w: nat, v: Worker)
    requires w < |ws|
    ensures WorkersWeight(ws[w := v]) == WorkersWeight(ws) - WorkerWeight(ws[w]) + WorkerWeight(v)
  {
    var last := |ws| - 1;
    if w == last {
      assert ws[w := v][..last] == ws[..last];
    } else {
      assert ws[w := v][..last] == ws[..last][w := v];
      WorkersWeightUpdate(ws[..last], w, v);
    }
  }

  lemma StepUsesWeight<T>(answers: seq<T>, p: Pool<T>, a: Action)
    requires Shaped(answers, p) && Enabled(answers, p, a)
    ensures StepsLeft(answers, Next(answers, p, a)) < StepsLeft(answers, p)
  {
    match a
    case Dispatch(w) => WorkersWeightUpdate(p.workers, w, Running(p.next));
    case Succeed(w) => WorkersWeightUpdate(p.workers, w, Idle);
    case Fail(w) => WorkersWeightUpdate(p.workers, w, if p.errors.None? then Cancelling else Exited);
    case CancelContext(w) => WorkersWeightUpdate(p.workers, w, Exited);
    case Exit(w) => WorkersWeightUpdate(p.workers, w, Exited);
    case _ =>
  }

  /** Every schedule ends after a bounded number of steps, and can only end with the pool
      returned. */
  lemma {:induction false} PoolReturns<T>(maxConcurrent: int, answers: seq<T>, actions: seq<Action>)
    requires Run(maxConcurrent, answers, actions).Some?
    ensures var p := Run(maxConcurrent, answers, actions).value;
            && p.next <= |answers|
            && |actions| + StepsLeft(answers, p) <= StepsLeft(answers, Initially(maxConcurrent, answers))
            && ((forall a :: a != Deadline ==> !Enabled(answers, p, a)) ==> Returned(p))
    decreases |actions|
  {
    RunKeepsInvariant(maxConcurrent, answers, actions);
    var p := Run(maxConcurrent, answers, actions).value;
    if !Returned(p) {
      var _ := NeverStuck(answers, p);
    }
    if actions != [] {
      var last := |actions| - 1;
      PoolReturns(maxConcurrent, answers, actions[..last]);
      StepUsesWeight(answers, Run(maxConcurrent, answers, actions[..last]).value, actions[last]);
    }
  }
}
