/** While the pool is not shutting down, work in it always comes to an end. */
module PoolProgress {
  import opened Sequences
  import opened PoolModel
  import opened PoolSafety

  // Steps the pool takes by itself. The others are calls from outside or spurious wakeups.
  predicate Internal(step: Step) {
    step.PushPost? || step.WorkerStep? || step.WaitStep?
  }

  predicate Spurious(step: Step) {
    step.WorkerSpurious? || step.WaitSpurious?
  }

  ghost predicate WithoutCalls(run: seq<Step>) {
    forall i :: 0 <= i < |run| ==> Internal(run[i]) || Spurious(run[i])
  }

  function WaitLeft(w: Waiter): nat {
    match w
    case Locking => 4
    case Reading => 3
    case Checking(_) => 2
    case Dozing => 1
    case _ => 0
  }

  // An upper bound on the internal steps to come, if nothing wakes up spuriously.
  function Measure(s: Pool): nat {
    13 * |s.queue| + (if s.token then 11 else 0) + (if s.io.ByPusher? then 13 else 0)
    + Total(WorkLeft, s.workers) + WaitLeft(s.waiter) + if s.faulted then 0 else 1
  }

  lemma PullDecreases(s: Pool, i: nat)
    requires Enabled(s, WorkerStep(i, 0)) && s.workers[i].Counted?
    ensures Measure(DoPull(s, i)) < Measure(s)
  {
    if s.queue != [] || s.nullGuard { TotalMove(WorkLeft, s.workers, i, DoPull(s, i).workers[i]); }
  }

  lemma PostDecreases(s: Pool, i: nat, wake: nat)
    requires Enabled(s, WorkerStep(i, wake)) && s.workers[i].Posting?
    ensures Measure(DoWorker(s, i, wake)) < Measure(s)
  {
    var w := Running(s.workers[i].job);
    TotalMove(WorkLeft, s.workers, i, w);
    SignalMoves(s.workers[i := w], wake);
  }

  // The steps that only move worker `i` on.
  lemma MoveDecreases(s: Pool, i: nat, w: Worker, s': Pool)
    requires i < |s.workers| && s'.workers == s.workers[i := w]
    requires s'.queue == s.queue && s'.io == s.io && s'.faulted == s.faulted
    requires WorkLeftOf(w) + (if s'.token then 11 else 0) + WaitLeft(s'.waiter)
           < WorkLeftOf(s.workers[i]) + (if s.token then 11 else 0) + WaitLeft(s.waiter)
    ensures Measure(s') < Measure(s)
  {
    TotalMove(WorkLeft, s.workers, i, w);
  }

  lemma WorkerStepDecreases(s: Pool, i: nat, wake: nat)
    requires s.keepAlive && Enabled(s, WorkerStep(i, wake))
    ensures Measure(DoWorker(s, i, wake)) < Measure(s)
  {
    var w := s.workers[i];
    if w.Posting? {
      PostDecreases(s, i, wake);
    } else if w.Counted? {
      PullDecreases(s, i);
    } else {
      MoveDecreases(s, i, DoWorker(s, i, wake).workers[i], DoWorker(s, i, wake));
    }
  }

  lemma InternalStepDecreases(s: Pool, step: Step)
    requires s.keepAlive && Enabled(s, step) && Internal(step)
    ensures Measure(Do(s, step)) < Measure(s)
  {
    match step
    case PushPost(wake) => SignalMoves(s.workers, wake);
    case WorkerStep(i, wake) => WorkerStepDecreases(s, i, wake);
    case WaitStep =>
  }

  lemma SpuriousStepCosts(s: Pool, step: Step)
    requires Enabled(s, step) && Spurious(step)
    ensures Measure(Do(s, step)) <= Measure(s) + 4
  {
    if step.WorkerSpurious? { TotalMove(WorkLeft, s.workers, step.i, AtSemaphore); }
  }

  lemma StepWithoutCall(s: Pool, step: Step)
    requires Enabled(s, step) && s.keepAlive && (Internal(step) || Spurious(step))
    ensures var t := Do(s, step);
            t.keepAlive && t.pushed == s.pushed && t.discarded == s.discarded && |t.workers| == |s.workers|
  {
    hide DoWorker, WorkerEnabled;
    if step.WorkerStep? {
      WorkerStepMoves(s, step.i, step.wake);
    } else if step.PushPost? {
      SignalMoves(s.workers, step.wake);
    }
  }

  /** A run without calls from outside is finite: its length is bounded by the measure
      of the state it starts in and the number of spurious wakeups. */
  lemma {:induction false} RunsAreBounded(s: Pool, run: seq<Step>)
    requires Inv(s) && s.keepAlive && Valid(s, run) && WithoutCalls(run)
    ensures |run| + Measure(After(s, run)) <= Measure(s) + 5 * Count(run, Spurious)
    ensures After(s, run).keepAlive && After(s, run).pushed == s.pushed && After(s, run).discarded == s.discarded
    ensures |After(s, run).workers| == |s.workers|
    decreases |run|
  {
    if run != [] {
      var step := run[0];
      StepKeepsInv(s, step);
      if Internal(step) { InternalStepDecreases(s, step); } else { SpuriousStepCosts(s, step); }
      StepWithoutCall(s, step);
      RunsAreBounded(Do(s, step), run[1..]);
    }
  }

  predicate Quiescent(s: Pool) {
    && s.queue == [] && !s.token && s.io.Free? && WaiterIdle(s)
    && forall i :: 0 <= i < |s.workers| ==> s.workers[i].Asleep?
  }

  function SomeSleeper(ws: seq<Worker>): (wake: nat)
    ensures MaySignal(ws, wake)
  {
    if ws == [] then 0 else if ws[0].Asleep? then 0 else
      assert forall i :: 0 < i < |ws| ==> ws[i] == ws[1..][i - 1];
      1 + SomeSleeper(ws[1..])
  }

  lemma AllAsleep(s: Pool)
    requires Inv(s) && s.keepAlive && s.io.Free? && |s.workers| > 0
    requires !s.waiter.Locking? && CountMutexFree(s)
    requires forall i :: 0 <= i < |s.workers| ==> s.workers[i].Asleep?
    ensures Quiescent(s)
  {
    TotalAtLeast(Sleepers, s.workers, 0);
    TotalZero(Holding, s.workers);
    TotalZero(AtTest, s.workers);
    TotalZero(Working, s.workers);
  }

  /** Until the pool is quiescent, some step of its own is enabled: no deadlock between
      io_mutex, thread_count_mutex and the semaphore, and no lost wakeup. */
  lemma NeverStuck(s: Pool) returns (step: Step)
    requires Inv(s) && s.keepAlive && !s.faulted && |s.workers| > 0 && !Quiescent(s)
    ensures Internal(step) && Enabled(s, step)
  {
    var wake := SomeSleeper(s.workers);
    if s.io.ByPusher? {
      step := PushPost(wake);
    } else if s.io.ByWorker? {
      step := WorkerStep(s.io.i, wake);
    } else if s.waiter.Locking? || !CountMutexFree(s) {
      step := WaitStep;
    } else if exists i :: 0 <= i < |s.workers| && !s.workers[i].Asleep? {
      var i: nat :| i < |s.workers| && !s.workers[i].Asleep?;
      step := WorkerStep(i, wake);
    } else {
      AllAsleep(s);
      assert false;
    }
  }

  /** Every run that goes on until no step is left ends with all jobs finished, each
      exactly once, the queue empty, the token taken and the waiter released, or else
      in the null front of an empty pull. */
  lemma RunsComplete(s: Pool, run: seq<Step>)
    requires Reachable(s) && s.keepAlive && |s.workers| > 0
    requires Valid(s, run) && WithoutCalls(run)
    requires forall step :: Internal(step) ==> !Enabled(After(s, run), step)
    ensures var t := After(s, run);
            t.faulted ||
            (Quiescent(t) && t.pulled == s.pushed && Distinct(t.finished) &&
             forall j :: j in t.finished <==> j in s.pushed)
  {
    var t := After(s, run);
    ReachableInv(s);
    RunsAreBounded(s, run);
    RunKeepsInv(s, run);
    if !t.faulted {
      if !Quiescent(t) { var step := NeverStuck(t); assert false; }
      AllDone(t);
    }
  }

  lemma AllDone(t: Pool)
    requires Inv(t) && t.keepAlive && Quiescent(t)
    ensures t.pulled == t.pushed && Distinct(t.finished)
    ensures forall j :: j in t.finished <==> j in t.pushed
  {
    assert t.pushed == t.pulled;
    forall j ensures multiset(t.finished)[j] == multiset(t.pushed)[j] <= 1 {
      PulledOnce(t, j);
      TotalZero(Holds(j), t.workers);
    }
    DuplicatesByCount(t.finished);
    forall j ensures j in t.finished <==> j in t.pushed {
      assert j in t.finished <==> multiset(t.finished)[j] > 0;
      assert j in t.pushed <==> multiset(t.pushed)[j] > 0;
    }
  }
}
