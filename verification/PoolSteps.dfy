/** What the steps of the pool may do: who can be held up by whom, what a wait covers, and
    who wakes the waiter. */
module PoolSteps {
  import opened PoolModel
  import opened PoolSafety
  import opened PoolProgress
  import opened PoolFaults

  // ---- Nobody is held up but by a mutex ----

  /** job_queue_push needs io_mutex only: it may come whatever the waiter, the workers, the
      semaphore and the queue are at. */
  lemma PushIsFree(s: Pool, job: Job, workers: seq<Worker>, waiter: Waiter, token: bool, queue: seq<Job>)
    ensures Enabled(s, Push(job))
            <==> Enabled(s.(workers := workers, waiter := waiter, token := token, queue := queue), Push(job))
    ensures !s.faulted && s.keepAlive && s.io.Free? && job !in s.pushed ==> Enabled(s, Push(job))
  {
  }

  // Does the caller of thread_pool_wait hold thread_count_mutex?
  predicate WaiterHoldsMutex(s: Pool) {
    s.waiter.Reading? || s.waiter.Checking? || s.waiter.Dozing?
  }

  /** A worker that is about to count itself in or out can be held up by the waiter only,
      one that pulls by the owner of io_mutex only, and any other that is awake by nobody. */
  lemma WorkersAreFree(s: Pool, i: nat)
    requires Inv(s) && !s.faulted && i < |s.workers|
    ensures var w := s.workers[i]; var free := exists wake :: Enabled(s, WorkerStep(i, wake));
            if w.Starting? || w.Entering? || w.Leaving? || w.Exiting? then free <==> !WaiterHoldsMutex(s)
            else if w.Counted? then free <==> s.io.Free?
            else free <==> !w.Asleep? && !w.Exited?
  {
    var wake := SomeSleeper(s.workers);
    assert s.workers[i].Posting? ==> s.io == ByWorker(i);
    assert Enabled(s, WorkerStep(i, wake)) <==> exists k :: Enabled(s, WorkerStep(i, k)) by {
      forall k | Enabled(s, WorkerStep(i, k)) ensures Enabled(s, WorkerStep(i, wake)) {}
    }
  }

  /** The waiter is held up by nobody but itself, sleepers may wake up at any time, and the
      shutdown waits only for io_mutex. */
  lemma OthersAreFree(s: Pool, i: nat)
    requires Inv(s) && !s.faulted
    ensures WaiterHoldsMutex(s) || s.waiter.Locking? ==> Enabled(s, WaitStep)
    ensures s.waiter.Sleeping? ==> Enabled(s, WaitSpurious)
    ensures i < |s.workers| && s.workers[i].Asleep? ==> Enabled(s, WorkerSpurious(i))
    ensures s.keepAlive && (s.waiter.Absent? || s.waiter.Returned?) ==> Enabled(s, WaitCall)
    ensures s.keepAlive && (s.waiter.Absent? || s.waiter.Returned?) && !s.io.ByPusher? ==> Enabled(s, StopCall)
    ensures s.io.ByPusher? ==> exists wake :: Enabled(s, PushPost(wake))
    ensures s.stop.Testing? || s.stop.Broadcasting? || (s.stop.Cleaning? && s.io.Free?) ==>
              exists wake :: Enabled(s, StopStep(wake))
  {
    var wake := SomeSleeper(s.workers);
    assert s.io.ByPusher? ==> Enabled(s, PushPost(wake));
    assert s.stop.Testing? || s.stop.Broadcasting? || (s.stop.Cleaning? && s.io.Free?) ==> Enabled(s, StopStep(wake));
  }

  // ---- What a wait covers ----

  // A wait that covers the first n jobs, as far as it has come.
  predicate Covers(w: Waiter, n: nat) {
    match w
    case Absent => false
    case Checking(seen) => n <= seen
    case Returned(seen) => n <= seen
    case _ => true
  }

  lemma CoversStep(s: Pool, step: Step, n: nat)
    requires Enabled(s, step) && !step.WaitCall? && Covers(s.waiter, n) && n <= |s.pushed|
    ensures Covers(Do(s, step).waiter, n) && s.pushed <= Do(s, step).pushed
  {
    hide Signal, MaySignal, Next, WakeAll;
  }

  lemma {:induction false} CoversRun(s: Pool, run: seq<Step>, n: nat)
    requires Valid(s, run) && (forall i :: 0 <= i < |run| ==> !run[i].WaitCall?)
    requires Covers(s.waiter, n) && n <= |s.pushed|
    ensures Covers(After(s, run).waiter, n) && s.pushed <= After(s, run).pushed
    decreases |run|
  {
    hide Do, Enabled;
    if run != [] {
      CoversStep(s, run[0], n);
      CoversRun(Do(s, run[0]), run[1..], n);
    }
  }

  /** When thread_pool_wait returns, every job that was linked before it was called has
      finished, whatever happens in between. */
  lemma WaitCoversItsCall(s: Pool, run: seq<Step>)
    requires Reachable(s) && Enabled(s, WaitCall) && Valid(Do(s, WaitCall), run)
    requires forall i :: 0 <= i < |run| ==> !run[i].WaitCall?
    requires After(Do(s, WaitCall), run).waiter.Returned?
    ensures forall j :: j in s.pushed ==> j in After(Do(s, WaitCall), run).finished
  {
    var whole := [WaitCall] + run;
    assert whole[1..] == run;
    ReachableOn(s, whole);
    var t := After(Do(s, WaitCall), run);
    CoversRun(Do(s, WaitCall), run, |s.pushed|);
    WaitIsSound(t);
    forall j | j in s.pushed ensures j in t.finished {
      var k :| 0 <= k < |s.pushed| && s.pushed[k] == j;
      assert t.pushed[k] == j;
    }
  }

  /** And it covers no more than that: a job that is linked between its two reads is not
      waited for, wherever the pool is when that happens. */
  lemma PushBetweenReads(s: Pool, job: Job)
    requires Inv(s) && s.waiter.Checking? && s.working == 0 && Enabled(s, Push(job))
    ensures Valid(s, [Push(job), WaitStep])
    ensures var t := After(s, [Push(job), WaitStep]);
            t.waiter == Returned(s.waiter.seen) && s.waiter.seen < |t.pushed| &&
            t.pushed[|t.pushed| - 1] == job && job !in t.finished
  {
    assert [Push(job), WaitStep][1..] == [WaitStep] && [WaitStep][1..] == [];
    FinishedWerePushed(s);
  }

  lemma FinishedWerePushed(s: Pool)
    requires Inv(s)
    ensures forall j :: j in s.finished ==> j in s.pushed
  {
    forall j | j in s.finished ensures j in s.pushed {
      assert multiset(s.finished)[j] > 0;
      assert multiset(s.pulled)[j] == multiset(s.finished)[j] + Total(Holds(j), s.workers);
      assert j in s.pulled;
    }
  }

  lemma WaitBoundIsTight(nullGuard: bool) returns (run: seq<Step>)
    ensures Valid(Init(1, nullGuard), run)
    ensures var t := After(Init(1, nullGuard), run);
            t.waiter == Returned(0) && t.pushed == [0] && t.finished == []
  {
    run := [WaitCall, WaitStep, WaitStep, Push(0), WaitStep];
    assert run[1..] == [WaitStep, WaitStep, Push(0), WaitStep] && run[1..][1..] == [WaitStep, Push(0), WaitStep];
    assert run[1..][1..][1..] == [Push(0), WaitStep] && [Push(0), WaitStep][1..] == [WaitStep] && [WaitStep][1..] == [];
  }

  // ---- Who wakes the waiter ----

  /** Spurious wakeups aside, a sleeping waiter is woken exactly by the step that leaves no
      worker counted as working. */
  lemma WaiterIsWokenByTheLast(s: Pool, step: Step)
    requires Inv(s) && s.waiter.Sleeping? && Enabled(s, step) && !step.WaitSpurious?
    ensures var t := Do(s, step); !t.waiter.Sleeping? <==> s.working > 0 && t.working == 0
  {
    hide Signal, MaySignal, WakeAll;
    if step.WorkerStep? { TotalAtLeast(Working, s.workers, step.i); }
  }

  // ---- Posts ----

  /** Whoever takes a job from the queue and leaves others there posts the semaphore, at
      once or, still owning io_mutex, with its next step. */
  lemma TakerPosts(s: Pool, step: Step)
    requires Enabled(s, step)
    ensures var t := Do(s, step);
            |t.queue| < |s.queue| && t.queue != [] ==>
              if step.WorkerStep? then t.io == ByWorker(step.i) else t.token
    ensures (step.WorkerStep? && s.workers[step.i].Posting?) || step.PushPost? ==>
              Do(s, step).token && Do(s, step).io.Free?
  {
    hide Signal, MaySignal, WakeAll;
  }

  lemma StoppedStep(s: Pool, step: Step)
    requires Inv(s) && Enabled(s, step) && (s.stop.Stopped? ==> !s.token)
    ensures Do(s, step).stop.Stopped? ==> !Do(s, step).token
  {
    hide DoWorker, Signal, MaySignal, WakeAll;
    if step.WorkerStep? {
      WorkerStepMoves(s, step.i, step.wake);
      if s.stop.Stopped? { StoppedWorker(s, step.i, step.wake); }
    }
  }

  lemma StoppedWorker(s: Pool, i: nat, wake: nat)
    requires Inv(s) && s.stop.Stopped? && WorkerEnabled(s, i, wake) && !s.token
    ensures !DoWorker(s, i, wake).token
  {
    hide Signal, MaySignal, Next;
    assert PastWork(s.workers[i]);
  }

  lemma {:induction false} StoppedRun(s: Pool, run: seq<Step>)
    requires Inv(s) && Valid(s, run) && (s.stop.Stopped? ==> !s.token)
    ensures After(s, run).stop.Stopped? ==> !After(s, run).token
    decreases |run|
  {
    hide Do, Enabled, Inv;
    if run != [] {
      StepKeepsInv(s, run[0]);
      StoppedStep(s, run[0]);
      StoppedRun(Do(s, run[0]), run[1..]);
    }
  }

  /** job_queue_clear leaves no job and no token behind. */
  lemma StoppedPoolIsEmpty(s: Pool)
    requires Reachable(s) && s.stop.Stopped?
    ensures s.queue == [] && !s.token
  {
    ReachableInv(s);
    var n: nat, g, run :| PoolModel.Valid(Init(n, g), run) && After(Init(n, g), run) == s;
    InitInv(n, g);
    StoppedRun(Init(n, g), run);
  }
}
