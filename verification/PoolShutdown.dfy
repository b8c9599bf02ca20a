/** thread_pool_free: what is lost, what is run, and why it comes to an end. */
module PoolShutdown {
  import opened Sequences
  import opened PoolModel
  import opened PoolSafety
  import opened PoolProgress

  // A broadcast that adds nothing while workers are still alive, or a spurious wakeup.
  predicate Idle(s: Pool, step: Step) {
    step.WorkerSpurious? || (step.StopStep? && s.stop.Broadcasting? && s.token && s.alive > 0)
  }

  function IdleSteps(s: Pool, run: seq<Step>): nat
    requires Valid(s, run)
    decreases |run|
  {
    if run == [] then 0 else (if Idle(s, run[0]) then 1 else 0) + IdleSteps(Do(s, run[0]), run[1..])
  }

  function StopLeft(s: Pool): nat {
    var n := |s.workers|;
    match s.stop
    case Stopped => 0
    case Cleaning => n + 5
    case Broadcasting => if s.alive > 0 then n + 6 else n + 8
    case _ => n + 7
  }

  // The cheap part of the measure: what one step towards the exit of a worker may add back.
  function Slack(s: Pool): nat {
    (if s.token then 0 else |s.workers| + 3) + Total(AtTest, s.workers) + 2 * |s.queue|
    + StopLeft(s) + if s.faulted then 0 else 1
  }

  function ExitMeasure(s: Pool): nat {
    (|s.workers| + 5) * Total(ExitLeft, s.workers) + Slack(s)
  }

  lemma Scaled(c: nat, a: nat, b: nat)
    requires a < b
    ensures c * a + c <= c * b
    decreases b - a
  {
    assert c * (a + 1) == c * a + c;
    if a + 1 < b { Scaled(c, a + 1, b); }
  }

  lemma CloserToExit(s: Pool, t: Pool)
    requires |t.workers| == |s.workers|
    requires Total(ExitLeft, t.workers) < Total(ExitLeft, s.workers)
    requires Slack(t) < Slack(s) + |s.workers| + 5
    ensures ExitMeasure(t) < ExitMeasure(s)
  {
    Scaled(|s.workers| + 5, Total(ExitLeft, t.workers), Total(ExitLeft, s.workers));
  }

  lemma PostTotals(s: Pool, i: nat, wake: nat)
    requires MaySignal(s.workers, wake) && i < |s.workers| && s.workers[i].Posting?
    ensures var ws := DoPost(s, i, s.workers[i].job, wake).workers;
            |ws| == |s.workers| && Total(ExitLeft, ws) < Total(ExitLeft, s.workers) &&
            Total(AtTest, ws) <= Total(AtTest, s.workers) + 1
  {
    var w := Running(s.workers[i].job);
    Move(s.workers, i, w);
    SignalMoves(s.workers[i := w], wake);
  }

  lemma PostGetsCloser(s: Pool, i: nat, wake: nat)
    requires Enabled(s, WorkerStep(i, wake)) && s.workers[i].Posting?
    ensures ExitMeasure(DoWorker(s, i, wake)) < ExitMeasure(s)
  {
    hide ExitMeasure;
    PostTotals(s, i, wake);
    CloserToExit(s, DoPost(s, i, s.workers[i].job, wake));
  }

  lemma MoveGetsCloser(s: Pool, i: nat, w: Worker, t: Pool)
    requires i < |s.workers| && t.workers == s.workers[i := w]
    requires ExitLeftOf(w) < ExitLeftOf(s.workers[i]) && !w.AtSemaphore?
    requires |t.queue| <= |s.queue| && t.faulted == s.faulted && t.stop == s.stop
    requires !s.token || t.token || s.workers[i].AtSemaphore?
    ensures ExitMeasure(t) < ExitMeasure(s)
  {
    Move(s.workers, i, w);
    CloserToExit(s, t);
  }

  lemma OwnMoveGetsCloser(s: Pool, i: nat)
    requires !s.keepAlive && i < |s.workers| && Moving(s.workers[i])
    ensures ExitMeasure(DoMove(s, i)) < ExitMeasure(s)
  {
    if s.workers[i].AtSemaphore? && !s.token {
      Move(s.workers, i, Asleep);
    } else {
      MoveGetsCloser(s, i, Next(s, s.workers[i]), DoMove(s, i));
    }
  }

  lemma PullGetsCloser(s: Pool, i: nat)
    requires i < |s.workers| && s.workers[i].Counted? && !s.faulted
    ensures ExitMeasure(DoPull(s, i)) < ExitMeasure(s)
  {
    if s.queue != [] || s.nullGuard { MoveGetsCloser(s, i, DoPull(s, i).workers[i], DoPull(s, i)); }
  }

  lemma WorkerGetsCloser(s: Pool, i: nat, wake: nat)
    requires !s.keepAlive && Enabled(s, WorkerStep(i, wake))
    ensures ExitMeasure(DoWorker(s, i, wake)) < ExitMeasure(s)
  {
    hide ExitMeasure, DoPull, DoMove;
    var w := s.workers[i];
    if w.Counted? {
      PullGetsCloser(s, i);
    } else if w.Posting? {
      PostGetsCloser(s, i, wake);
    } else if w.Leaving? {
      MoveGetsCloser(s, i, AtLoop, DoLeave(s, i));
    } else {
      OwnMoveGetsCloser(s, i);
    }
  }

  lemma BroadcastGetsCloser(s: Pool)
    requires Inv(s) && s.stop.Broadcasting?
    ensures var t := s.(stop := Testing, token := true, workers := WakeAll(s.workers));
            |t.workers| == |s.workers| &&
            if s.token && s.alive > 0 then ExitMeasure(t) <= ExitMeasure(s) + |s.workers| + 1
            else ExitMeasure(t) < ExitMeasure(s)
  {
    WakeAllMoves(s.workers);
    SleepersBound(s.workers);
    if s.alive == 0 { TotalMonotone(Sleepers, Alive, s.workers); }
  }

  lemma ClearingGetsCloser(s: Pool, wake: nat)
    requires StopEnabled(s, wake) && s.stop.Cleaning?
    ensures |DoStop(s, wake).workers| == |s.workers| && ExitMeasure(DoStop(s, wake)) < ExitMeasure(s)
  {
    hide Signal, WakeAll;
    if s.queue != [] { SignalMoves(s.workers, wake); }
  }

  lemma StopGetsCloser(s: Pool, wake: nat)
    requires Inv(s) && Enabled(s, StopStep(wake))
    ensures |DoStop(s, wake).workers| == |s.workers| && DoStop(s, wake).keepAlive == s.keepAlive
    ensures if Idle(s, StopStep(wake)) then ExitMeasure(DoStop(s, wake)) <= ExitMeasure(s) + |s.workers| + 1
            else ExitMeasure(DoStop(s, wake)) < ExitMeasure(s)
  {
    hide Inv, WakeAll, Signal;
    if s.stop.Broadcasting? {
      hide ExitMeasure;
      BroadcastGetsCloser(s);
    } else if s.stop.Cleaning? {
      hide ExitMeasure;
      ClearingGetsCloser(s, wake);
    }
  }

  lemma ShutdownStep(s: Pool, step: Step)
    requires Inv(s) && !s.keepAlive && Enabled(s, step)
    ensures !Do(s, step).keepAlive && |Do(s, step).workers| == |s.workers|
    ensures if Idle(s, step) then ExitMeasure(Do(s, step)) <= ExitMeasure(s) + |s.workers| + 1
            else ExitMeasure(Do(s, step)) < ExitMeasure(s)
  {
    hide DoWorker, DoStop;
    if step.WorkerStep? {
      WorkerStepMoves(s, step.i, step.wake);
      WorkerGetsCloser(s, step.i, step.wake);
    } else if step.StopStep? {
      StopGetsCloser(s, step.wake);
    } else if step.WorkerSpurious? {
      Move(s.workers, step.i, AtSemaphore);
    }
  }

  /** Once threads_keep_alive is cleared a run can only go on by busy broadcasting or
      spurious wakeups. */
  lemma {:induction false} ShutdownIsBounded(s: Pool, run: seq<Step>)
    requires Inv(s) && !s.keepAlive && Valid(s, run)
    ensures !After(s, run).keepAlive
    ensures |run| + ExitMeasure(After(s, run)) <= ExitMeasure(s) + (|s.workers| + 2) * IdleSteps(s, run)
    decreases |run|
  {
    hide Inv, ExitMeasure, Do, Enabled;
    if run != [] {
      ShutdownStep(s, run[0]);
      StepKeepsInv(s, run[0]);
      ShutdownIsBounded(Do(s, run[0]), run[1..]);
      var rest := IdleSteps(Do(s, run[0]), run[1..]);
      assert (|s.workers| + 2) * (1 + rest) == (|s.workers| + 2) * rest + |s.workers| + 2;
    }
  }

  lemma SomeoneTests(s: Pool, i: nat)
    requires Inv(s) && s.token && i < |s.workers| && s.workers[i].Asleep?
    ensures exists k :: 0 <= k < |s.workers| && s.workers[k].AtSemaphore?
  {
    TotalAtLeast(Sleepers, s.workers, i);
    SomeWorker(AtTest, s.workers);
  }

  lemma ShutdownNeverStuck(s: Pool) returns (step: Step)
    requires Inv(s) && !s.keepAlive && !s.faulted && !s.stop.Stopped?
    ensures Enabled(s, step) && !Idle(s, step)
    ensures step.WorkerStep? ==> !s.workers[step.i].Starting?
  {
    var wake := SomeSleeper(s.workers);
    step := StopStep(wake);
    if s.stop.Broadcasting? && s.token && s.alive > 0 {
      SomeWorker(Alive, s.workers);
      if s.io.ByWorker? {
        step := WorkerStep(s.io.i, wake);
      } else if exists i :: 0 <= i < |s.workers| && Weight(Alive, s.workers[i]) > 0 && !s.workers[i].Asleep? {
        var i: nat :| i < |s.workers| && Weight(Alive, s.workers[i]) > 0 && !s.workers[i].Asleep?;
        step := WorkerStep(i, wake);
      } else {
        var i: nat :| i < |s.workers| && Weight(Alive, s.workers[i]) > 0;
        SomeoneTests(s, i);
        assert false;
      }
    }
  }

  /** A shutdown that goes on until only busy broadcasts and spurious wakeups are left
      has stopped: every job was either run to its end, once, or thrown away, once,
      and no worker is left. */
  lemma ShutdownCompletes(s: Pool, run: seq<Step>)
    requires Reachable(s) && !s.keepAlive && Valid(s, run)
    requires var t := After(s, run); forall step :: Enabled(t, step) ==> Idle(t, step)
    ensures var t := After(s, run);
            t.faulted ||
            (t.stop.Stopped? && t.pushed == t.pulled + t.discarded &&
             (forall j :: j in t.pulled <==> j in t.finished) &&
             Distinct(t.finished) && Distinct(t.pushed) &&
             forall i :: 0 <= i < |t.workers| ==> t.workers[i].Exited?)
  {
    var t := After(s, run);
    ReachableInv(s);
    ShutdownIsBounded(s, run);
    RunKeepsInv(s, run);
    if !t.faulted {
      if !t.stop.Stopped? { var step := ShutdownNeverStuck(t); assert false; }
      forall i: nat | i < |t.workers| ensures t.workers[i].Exited? {
        assert !Enabled(t, WorkerStep(i, 0));
      }
      PulledAreFinished(t);
    }
  }

  lemma PulledAreFinished(t: Pool)
    requires Inv(t) && forall i :: 0 <= i < |t.workers| ==> PastWork(t.workers[i])
    ensures Distinct(t.finished) && forall j :: j in t.pulled <==> j in t.finished
  {
    forall j ensures multiset(t.finished)[j] == multiset(t.pulled)[j] <= 1 {
      PulledOnce(t, j);
      TotalZero(Holds(j), t.workers);
    }
    DuplicatesByCount(t.finished);
    forall j ensures j in t.pulled <==> j in t.finished {
      assert j in t.finished <==> multiset(t.finished)[j] > 0;
      assert j in t.pulled <==> multiset(t.pulled)[j] > 0;
    }
  }

  // ---- Tokens of the shutdown lead to no pull ----

  // Pulls so far, and pulls that are bound to be tried.
  function Gate(s: Pool): nat {
    |s.pulled| + Total(PastGate, s.workers)
  }

  lemma GateWorker(s: Pool, i: nat, wake: nat)
    requires !s.keepAlive && Enabled(s, WorkerStep(i, wake)) && !s.workers[i].Posting?
    ensures Gate(DoWorker(s, i, wake)) <= Gate(s)
    ensures !s.nullGuard ==> Gate(DoWorker(s, i, wake)) == Gate(s)
  {
    if !s.workers[i].Counted? || s.queue != [] || s.nullGuard {
      TotalMove(PastGate, s.workers, i, DoWorker(s, i, wake).workers[i]);
    }
  }

  lemma GatePost(s: Pool, i: nat, wake: nat)
    requires Enabled(s, WorkerStep(i, wake)) && s.workers[i].Posting?
    ensures Gate(DoWorker(s, i, wake)) == Gate(s)
  {
    var w := Running(s.workers[i].job);
    TotalMove(PastGate, s.workers, i, w);
    SignalMoves(s.workers[i := w], wake);
  }

  lemma GateStop(s: Pool, wake: nat)
    requires StopEnabled(s, wake)
    ensures Gate(DoStop(s, wake)) == Gate(s)
  {
    if s.stop.Broadcasting? {
      WakeAllMoves(s.workers);
    } else if s.stop.Cleaning? && s.queue != [] {
      SignalMoves(s.workers, wake);
    }
  }

  lemma GateStep(s: Pool, step: Step)
    requires !s.keepAlive && Enabled(s, step)
    ensures Gate(Do(s, step)) <= Gate(s)
    ensures !s.nullGuard ==> Gate(Do(s, step)) == Gate(s)
  {
    hide DoWorker, DoStop;
    if step.WorkerStep? && s.workers[step.i].Posting? {
      GatePost(s, step.i, step.wake);
    } else if step.WorkerStep? {
      GateWorker(s, step.i, step.wake);
    } else if step.WorkerSpurious? {
      TotalMove(PastGate, s.workers, step.i, AtSemaphore);
    } else if step.PushPost? {
      SignalMoves(s.workers, step.wake);
    } else if step.StopStep? {
      GateStop(s, step.wake);
    }
  }

  /** After threads_keep_alive is cleared only the workers that had already passed their
      second test of it can pull, one job each: no token taken later leads to a pull. */
  lemma {:induction false} OnlyWorkersPastTheGatePull(s: Pool, run: seq<Step>)
    requires Inv(s) && !s.keepAlive && Valid(s, run)
    ensures |After(s, run).pulled| - |s.pulled| <= Total(PastGate, s.workers) - Total(PastGate, After(s, run).workers)
    decreases |run|
  {
    if run != [] {
      ShutdownStep(s, run[0]);
      GateStep(s, run[0]);
      StepKeepsInv(s, run[0]);
      OnlyWorkersPastTheGatePull(Do(s, run[0]), run[1..]);
    }
  }

  // ---- When the queue is cleared nobody else uses the pool ----

  predicate AllRegistered(s: Pool) {
    && (forall i :: 0 <= i < |s.workers| ==> !s.workers[i].Starting?)
    && (s.stop.Cleaning? || s.stop.Stopped? ==> forall i :: 0 <= i < |s.workers| ==> s.workers[i].Exited?)
  }

  lemma RegisteredStop(s: Pool, wake: nat)
    requires Inv(s) && Enabled(s, StopStep(wake)) && AllRegistered(s)
    ensures AllRegistered(DoStop(s, wake))
  {
    if s.stop.Testing? {
      TotalZero(Alive, s.workers);
    } else if s.stop.Broadcasting? {
      WakeAllMoves(s.workers);
    }
  }

  lemma RegisteredWorker(s: Pool, i: nat, wake: nat)
    requires WorkerEnabled(s, i, wake) && AllRegistered(s)
    ensures AllRegistered(DoWorker(s, i, wake))
  {
    hide DoWorker;
    WorkerStepMoves(s, i, wake);
  }

  lemma RegisteredStep(s: Pool, step: Step)
    requires Inv(s) && !s.keepAlive && Enabled(s, step) && AllRegistered(s)
    ensures AllRegistered(Do(s, step))
  {
    hide Inv, DoStop, DoWorker;
    if step.StopStep? {
      RegisteredStop(s, step.wake);
    } else if step.WorkerStep? {
      RegisteredWorker(s, step.i, step.wake);
    } else if step.PushPost? {
      SignalMoves(s.workers, step.wake);
    }
  }

  /** If every worker had registered when the shutdown began, then all of them have left
      thread_do before job_queue_clear touches the queue. */
  lemma {:induction false} ClearedAfterLastExit(s: Pool, run: seq<Step>)
    requires Inv(s) && !s.keepAlive && Valid(s, run) && AllRegistered(s)
    ensures AllRegistered(After(s, run))
    decreases |run|
  {
    if run != [] {
      ShutdownStep(s, run[0]);
      StepKeepsInv(s, run[0]);
      RegisteredStep(s, run[0]);
      ClearedAfterLastExit(Do(s, run[0]), run[1..]);
    }
  }

  // ---- When exactly that is so ----

  // Without the NULL answer there must be a job for every worker that is bound to pull.
  predicate Survives(s: Pool) {
    !s.faulted && (s.nullGuard || |s.queue| >= Total(PastGate, s.workers))
  }

  predicate AllExited(s: Pool) {
    forall i :: 0 <= i < |s.workers| ==> s.workers[i].Exited?
  }

  lemma CleaningSurvives(s: Pool)
    requires Inv(s) && !s.faulted && (s.stop.Cleaning? || s.stop.Stopped?)
    ensures Survives(s)
  {
    TotalZero(PastGate, s.workers);
  }

  // Only a pull of the empty queue faults, and only job_queue_clear discards.
  lemma FaultsAndDiscards(s: Pool, step: Step)
    requires Inv(s) && !s.keepAlive && Enabled(s, step)
    ensures var t := Do(s, step);
            !s.faulted && t.nullGuard == s.nullGuard && t.pushed == s.pushed &&
            (s.stop.Cleaning? || t.discarded == s.discarded) &&
            (t.faulted ==> t.stop == s.stop && !s.stop.Cleaning? && !Survives(s))
  {
    hide Inv, Weight, MaySignal, Signal, WakeAll;
    if step.WorkerStep? && s.workers[step.i].Counted? {
      PullerIsPastGate(s, step.i);
    }
  }

  lemma PullerIsPastGate(s: Pool, i: nat)
    requires Inv(s) && i < |s.workers| && s.workers[i].Counted?
    ensures Total(PastGate, s.workers) > 0 && !s.stop.Cleaning?
  {
    TotalAtLeast(PastGate, s.workers, i);
  }

  lemma SurvivalStep(s: Pool, step: Step)
    requires Inv(s) && !s.keepAlive && Enabled(s, step)
    ensures Survives(Do(s, step)) <==> Survives(s)
  {
    hide Do, Inv, Enabled;
    var t := Do(s, step);
    FaultsAndDiscards(s, step);
    GateStep(s, step);
    StepKeepsInv(s, step);
    QueueLength(s);
    QueueLength(t);
    if s.stop.Cleaning? && !t.faulted {
      CleaningSurvives(s);
      CleaningGoesOn(s, step);
      CleaningSurvives(t);
    }
  }

  lemma QueueLength(s: Pool)
    requires Inv(s)
    ensures |s.pushed| == |s.pulled| + |s.discarded| + |s.queue|
    ensures Enabled(s, StopCall) ==> s.keepAlive && forall i :: 0 <= i < |s.workers| ==> !s.workers[i].Exited?
  {
  }

  lemma CleaningGoesOn(s: Pool, step: Step)
    requires Enabled(s, step) && s.stop.Cleaning?
    ensures Do(s, step).stop.Cleaning? || Do(s, step).stop.Stopped?
  {
    hide Signal, WakeAll;
  }

  // Nobody reaches the end of thread_pool_free who is bound for the null front.
  lemma {:induction false} DoomedNeverStops(s: Pool, run: seq<Step>)
    requires Inv(s) && !s.keepAlive && !Survives(s) && !s.stop.Stopped? && Valid(s, run)
    ensures !After(s, run).stop.Stopped?
    decreases |run|
  {
    hide Inv, Do, Enabled, Survives;
    if run != [] {
      var t := Do(s, run[0]);
      StepKeepsInv(s, run[0]);
      ShutdownStep(s, run[0]);
      SurvivalStep(s, run[0]);
      FaultsAndDiscards(s, run[0]);
      if t.stop.Stopped? && !t.faulted { CleaningSurvives(t); }
      DoomedNeverStops(t, run[1..]);
    }
  }

  lemma LateWorkerStays(s: Pool, step: Step, k: nat)
    requires Enabled(s, step) && k < |s.workers| && s.workers[k].Starting? && (step.WorkerStep? ==> step.i != k)
    ensures k < |Do(s, step).workers| && Do(s, step).workers[k].Starting?
  {
    hide DoWorker, WorkerEnabled;
    if step.WorkerStep? {
      WorkerStepMoves(s, step.i, step.wake);
    } else if step.PushPost? || (step.StopStep? && s.stop.Cleaning? && s.queue != []) {
      SignalMoves(s.workers, step.wake);
    } else if step.StopStep? && s.stop.Broadcasting? {
      WakeAllMoves(s.workers);
    }
  }

  /** Any worker that has not registered when threads_keep_alive is cleared can be left
      behind: some run frees the pool before that worker has taken a step. */
  lemma {:induction false} LateWorkerIsLeftBehind(s: Pool, k: nat) returns (run: seq<Step>)
    requires Inv(s) && !s.keepAlive && Survives(s) && k < |s.workers| && s.workers[k].Starting?
    ensures Valid(s, run)
    ensures var t := After(s, run); t.stop.Stopped? && k < |t.workers| && t.workers[k].Starting?
    decreases ExitMeasure(s)
  {
    hide Inv, Do, Enabled, Survives, ExitMeasure, Idle;
    if s.stop.Stopped? {
      run := [];
    } else {
      assert !s.faulted by { SurvivorsRun(s); }
      var step := ShutdownNeverStuck(s);
      ShutdownStep(s, step);
      StepKeepsInv(s, step);
      SurvivalStep(s, step);
      LateWorkerStays(s, step, k);
      var rest := LateWorkerIsLeftBehind(Do(s, step), k);
      run := [step] + rest;
      assert run[1..] == rest;
    }
  }

  lemma SurvivorsRun(s: Pool)
    requires Survives(s)
    ensures !s.faulted
  {
  }

  lemma {:induction false} SurvivalRun(s: Pool, run: seq<Step>)
    requires Inv(s) && !s.keepAlive && Valid(s, run)
    ensures Survives(After(s, run)) <==> Survives(s)
    decreases |run|
  {
    hide Inv, Do, Enabled, Survives;
    if run != [] {
      StepKeepsInv(s, run[0]);
      ShutdownStep(s, run[0]);
      SurvivalStep(s, run[0]);
      SurvivalRun(Do(s, run[0]), run[1..]);
    }
  }

  /** Which of the two ends ShutdownCompletes allows is settled when the flag is cleared:
      every shutdown that runs out has stopped exactly when, then, there was a job for
      each worker bound to pull, or a pull of the empty queue answers NULL. */
  lemma ShutdownStopsExactly(s: Pool, run: seq<Step>)
    requires Reachable(s) && !s.keepAlive && !s.faulted && Valid(s, run)
    requires var t := After(s, run); forall step :: Enabled(t, step) ==> Idle(t, step)
    ensures After(s, run).stop.Stopped? <==> Survives(s)
    ensures After(s, run).faulted <==> !Survives(s)
  {
    hide Do, Enabled, Idle, ExitMeasure;
    ReachableInv(s);
    RunKeepsInv(s, run);
    SurvivalRun(s, run);
    ShutdownCompletes(s, run);
    if s.stop.Stopped? { CleaningSurvives(s); }
    if !Survives(s) { DoomedNeverStops(s, run); } else { SurvivorsRun(After(s, run)); }
  }

  lemma {:induction false} RegisteredOrNot(ws: seq<Worker>)
    requires forall i :: 0 <= i < |ws| ==> !ws[i].Exited?
    ensures Total(Alive, ws) + Total(Unregistered, ws) == |ws|
  {
    if ws != [] { RegisteredOrNot(ws[1..]); }
  }

  /** thread_pool_free, called in any state of any run, is sure to free the pool only
      after every worker has left thread_do exactly when all workers are registered at
      that moment; or else, as written, when it never gets so far, because more workers
      are bound to pull than there are jobs. */
  lemma FreedAfterLastExitExactly(s: Pool)
    requires Reachable(s) && Enabled(s, StopCall)
    ensures (forall run :: Valid(Do(s, StopCall), run) && After(Do(s, StopCall), run).stop.Stopped? ==>
               AllExited(After(Do(s, StopCall), run)))
            <==> s.alive == |s.workers| || !Survives(s)
    ensures s.nullGuard ==> Survives(s)
  {
    hide After, Valid, ExitMeasure;
    var t := Do(s, StopCall);
    ReachableInv(s);
    StepKeepsInv(s, StopCall);
    QueueLength(s);
    RegisteredOrNot(s.workers);
    TotalZero(Unregistered, s.workers);
    if s.alive == |s.workers| {
      forall run | Valid(t, run) && After(t, run).stop.Stopped? ensures AllExited(After(t, run)) {
        ClearedAfterLastExit(t, run);
      }
    } else if !Survives(s) {
      forall run | Valid(t, run) ensures !After(t, run).stop.Stopped? { DoomedNeverStops(t, run); }
    } else {
      var k: nat :| k < |s.workers| && s.workers[k].Starting?;
      var run := LateWorkerIsLeftBehind(t, k);
      assert !After(t, run).workers[k].Exited?;
    }
  }
}
