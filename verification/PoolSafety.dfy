/** What every step of the pool keeps, and what follows for every run. */
module PoolSafety {
  import opened Sequences
  import opened QueueSpec
  import opened PoolModel

  // The stored counters agree with the workers.
  predicate CountersAgree(s: Pool) {
    && s.alive == Total(Alive, s.workers)
    && s.working == Total(Working, s.workers)
  }

  predicate IoMutexAgrees(s: Pool) {
    && (forall i :: 0 <= i < |s.workers| ==> (s.workers[i].Posting? <==> s.io == ByWorker(i)))
    && (s.io.ByWorker? ==> s.io.i < |s.workers| && s.queue != [])
  }

  // A set token is never slept through.
  predicate NoMissedPost(s: Pool) {
    s.token && Total(Sleepers, s.workers) > 0 ==> Total(AtTest, s.workers) > 0
  }

  // A queued job has a token, a worker on its way to pull, or a post about to happen.
  predicate NotStranded(s: Pool) {
    s.keepAlive && s.queue != [] ==> s.token || Total(Holding, s.workers) > 0 || !s.io.Free?
  }

  predicate WaiterAgrees(s: Pool) {
    match s.waiter
    case Absent | Locking | Reading => true
    case Dozing | Sleeping => s.queue != [] || s.working > 0
    case Checking(seen) => seen <= |s.pulled|
    case Returned(seen) => seen <= |s.pulled| && forall k :: 0 <= k < seen ==> s.pulled[k] in s.finished
  }

  // Pulled jobs leave the queue in order; each is held by one worker or has finished.
  ghost predicate JobsConserved(s: Pool) {
    && s.pushed == s.pulled + s.discarded + s.queue
    && Distinct(s.pushed)
    && Balanced(s.pulled, s.finished, s.workers)
  }

  ghost predicate Balanced(pulled: seq<Job>, finished: seq<Job>, ws: seq<Worker>) {
    forall j :: multiset(pulled)[j] == multiset(finished)[j] + Total(Holds(j), ws)
  }

  predicate PastWork(w: Worker) {
    w.Starting? || w.AtLoop? || w.Exiting? || w.Exited?
  }

  predicate StopAgrees(s: Pool) {
    && (s.keepAlive <==> s.stop.NotStopping?)
    && (s.keepAlive ==> forall i :: 0 <= i < |s.workers| ==> !s.workers[i].Exiting? && !s.workers[i].Exited?)
    && (!s.keepAlive ==> !s.io.ByPusher? && WaiterIdle(s))
    && (s.stop.Cleaning? || s.stop.Stopped? ==> forall i :: 0 <= i < |s.workers| ==> PastWork(s.workers[i]))
    && (s.discarded != [] ==> s.stop.Cleaning? || s.stop.Stopped?)
    && (s.stop.Stopped? ==> s.queue == [])
  }

  // Waking one sleeper moves it back to the semaphore's test.
  lemma SignalMoves(ws: seq<Worker>, wake: nat)
    requires MaySignal(ws, wake)
    ensures |Signal(ws, wake)| == |ws|
    ensures forall m :: Weight(m, Asleep) == Weight(m, AtSemaphore) ==> Total(m, Signal(ws, wake)) == Total(m, ws)
    ensures Total(Sleepers, Signal(ws, wake)) > 0 ==> Total(AtTest, Signal(ws, wake)) > 0
    ensures Total(WorkLeft, Signal(ws, wake)) <= Total(WorkLeft, ws) + 1
    ensures Total(AtTest, Signal(ws, wake)) == Total(AtTest, ws) + if Total(Sleepers, ws) > 0 then 1 else 0
    ensures forall i :: 0 <= i < |ws| ==>
              Signal(ws, wake)[i] == ws[i] || (ws[i].Asleep? && Signal(ws, wake)[i].AtSemaphore?)
  {
    if SomeAsleep(ws) {
      Move(ws, wake, AtSemaphore);
      TotalAtLeast(Sleepers, ws, wake);
    } else {
      TotalZero(Sleepers, ws);
    }
  }

  // A worker's step moves no other worker but one it wakes, and makes no call.
  lemma WorkerStepMoves(s: Pool, i: nat, wake: nat)
    requires WorkerEnabled(s, i, wake)
    ensures var t := DoWorker(s, i, wake);
            |t.workers| == |s.workers| && !t.workers[i].Starting? &&
            (forall k :: 0 <= k < |s.workers| && k != i ==>
               t.workers[k] == s.workers[k] || (s.workers[k].Asleep? && t.workers[k].AtSemaphore?)) &&
            t.stop == s.stop && t.keepAlive == s.keepAlive && t.pushed == s.pushed && t.discarded == s.discarded
  {
    hide DoMove, DoPost;
    if s.workers[i].Posting? {
      PostMoves(s, i, wake);
    } else if Moving(s.workers[i]) {
      OwnMove(s, i);
    }
  }

  lemma OwnMove(s: Pool, i: nat)
    requires i < |s.workers| && Moving(s.workers[i])
    ensures var t := DoMove(s, i);
            t.workers == s.workers[i := Next(s, s.workers[i])] && !Next(s, s.workers[i]).Starting? &&
            t.stop == s.stop && t.keepAlive == s.keepAlive && t.pushed == s.pushed && t.discarded == s.discarded
  {
  }

  lemma PostMoves(s: Pool, i: nat, wake: nat)
    requires WorkerEnabled(s, i, wake) && s.workers[i].Posting?
    ensures var t := DoPost(s, i, s.workers[i].job, wake); var ws := t.workers;
            t.stop == s.stop && t.keepAlive == s.keepAlive && t.pushed == s.pushed && t.discarded == s.discarded &&
            |ws| == |s.workers| && ws[i].Running? &&
            forall k :: 0 <= k < |s.workers| && k != i ==>
              ws[k] == s.workers[k] || (s.workers[k].Asleep? && ws[k].AtSemaphore?)
  {
    SignalMoves(s.workers[i := Running(s.workers[i].job)], wake);
  }

  lemma CountSnoc(jobs: seq<Job>, job: Job)
    ensures forall j :: multiset(jobs + [job])[j] == multiset(jobs)[j] + if j == job then 1 else 0
  {
    assert multiset(jobs + [job]) == multiset(jobs) + multiset{job};
  }

  lemma BalancedMove(pulled: seq<Job>, finished: seq<Job>, ws: seq<Worker>, i: nat, w: Worker)
    requires Balanced(pulled, finished, ws) && i < |ws|
    requires forall j :: Weight(Holds(j), w) == Weight(Holds(j), ws[i])
    ensures Balanced(pulled, finished, ws[i := w])
  {
    Move(ws, i, w);
  }

  lemma BalancedPull(pulled: seq<Job>, finished: seq<Job>, ws: seq<Worker>, i: nat, w: Worker, job: Job)
    requires Balanced(pulled, finished, ws) && i < |ws|
    requires forall j :: Weight(Holds(j), w) == Weight(Holds(j), ws[i]) + if j == job then 1 else 0
    ensures Balanced(pulled + [job], finished, ws[i := w])
  {
    Move(ws, i, w);
    CountSnoc(pulled, job);
  }

  lemma BalancedFinish(pulled: seq<Job>, finished: seq<Job>, ws: seq<Worker>, i: nat, w: Worker, job: Job)
    requires Balanced(pulled, finished, ws) && i < |ws|
    requires forall j :: Weight(Holds(j), w) + (if j == job then 1 else 0) == Weight(Holds(j), ws[i])
    ensures Balanced(pulled, finished + [job], ws[i := w])
  {
    Move(ws, i, w);
    CountSnoc(finished, job);
  }

  // ---- The jobs ----

  lemma TakeFirst(a: seq<Job>, b: seq<Job>, c: seq<Job>)
    requires c != []
    ensures a + b + c == a + (b + [c[0]]) + c[1..]
  {
  }

  lemma TakeFront(a: seq<Job>, b: seq<Job>, c: seq<Job>)
    requires b == [] && c != []
    ensures a + b + c == (a + [c[0]]) + b + c[1..]
  {
  }

  lemma JobsAfterPull(s: Pool, i: nat)
    requires JobsConserved(s) && s.discarded == []
    requires i < |s.workers| && s.workers[i].Counted?
    ensures JobsConserved(DoPull(s, i))
  {
    if s.queue == [] {
      BalancedMove(s.pulled, s.finished, s.workers, i, Leaving);
    } else {
      var job := s.queue[0];
      BalancedPull(s.pulled, s.finished, s.workers, i, if |s.queue| != 1 then Posting(job) else Running(job), job);
      TakeFront(s.pulled, s.discarded, s.queue);
    }
  }

  lemma JobsAfterSignal(pulled: seq<Job>, finished: seq<Job>, ws: seq<Worker>, wake: nat)
    requires Balanced(pulled, finished, ws)
    ensures Balanced(pulled, finished, Signal(ws, wake))
  {
    if wake < |ws| && ws[wake].Asleep? {
      BalancedMove(pulled, finished, ws, wake, AtSemaphore);
    }
  }

  lemma JobsAfterWorker(s: Pool, i: nat, wake: nat)
    requires JobsConserved(s) && WorkerEnabled(s, i, wake)
    requires s.workers[i].Counted? ==> s.discarded == []
    ensures JobsConserved(DoWorker(s, i, wake))
  {
    var w := s.workers[i];
    if w.Counted? {
      JobsAfterPull(s, i);
    } else if w.Posting? {
      BalancedMove(s.pulled, s.finished, s.workers, i, Running(w.job));
      JobsAfterSignal(s.pulled, s.finished, s.workers[i := Running(w.job)], wake);
    } else if w.Running? {
      BalancedFinish(s.pulled, s.finished, s.workers, i, Leaving, w.job);
    } else {
      JobsAfterMove(s, i, wake);
    }
  }

  lemma JobsAfterMove(s: Pool, i: nat, wake: nat)
    requires JobsConserved(s) && WorkerEnabled(s, i, wake)
    requires !s.workers[i].Counted? && !s.workers[i].Posting? && !s.workers[i].Running?
    ensures JobsConserved(DoWorker(s, i, wake))
  {
    var w := DoWorker(s, i, wake).workers[i];
    forall j ensures Weight(Holds(j), w) == Weight(Holds(j), s.workers[i]) {}
    BalancedMove(s.pulled, s.finished, s.workers, i, w);
  }

  lemma JobsAfterDiscard(s: Pool, wake: nat)
    requires JobsConserved(s) && s.stop.Cleaning? && StopEnabled(s, wake) && s.queue != []
    ensures JobsConserved(DoStop(s, wake))
  {
    JobsAfterSignal(s.pulled, s.finished, s.workers, wake);
    TakeFirst(s.pulled, s.discarded, s.queue);
  }

  lemma JobsAfterStop(s: Pool, wake: nat)
    requires JobsConserved(s) && StopEnabled(s, wake)
    ensures JobsConserved(DoStop(s, wake))
  {
    match s.stop
    case Testing =>
    case Broadcasting => WakeAllMoves(s.workers);
    case Cleaning =>
      if s.queue != [] { JobsAfterDiscard(s, wake); }
  }

  lemma JobsAfterStep(s: Pool, step: Step)
    requires JobsConserved(s) && Enabled(s, step)
    requires s.discarded != [] ==> forall i :: 0 <= i < |s.workers| ==> !s.workers[i].Counted?
    ensures JobsConserved(Do(s, step))
  {
    match step
    case Push(job) => assert s.pushed + [job] == s.pulled + s.discarded + (s.queue + [job]);
    case PushPost(wake) => JobsAfterSignal(s.pulled, s.finished, s.workers, wake);
    case WorkerStep(i, wake) => JobsAfterWorker(s, i, wake);
    case WorkerSpurious(i) => BalancedMove(s.pulled, s.finished, s.workers, i, AtSemaphore);
    case StopStep(wake) => JobsAfterStop(s, wake);
    case _ =>
  }

  // ---- Control ----

  ghost predicate ControlAgrees(s: Pool) {
    CountersAgree(s) && IoMutexAgrees(s) && NoMissedPost(s) && NotStranded(s) && StopAgrees(s)
  }

  lemma ControlAfterPull(s: Pool, i: nat)
    requires ControlAgrees(s) && WorkerEnabled(s, i, 0) && s.workers[i].Counted?
    ensures ControlAgrees(DoPull(s, i))
  {
    match PullFront(s.queue)
    case NullFront => Move(s.workers, i, Leaving);
    case Taken(job, rest, repost) => Move(s.workers, i, if repost then Posting(job) else Running(job));
  }

  lemma ControlAfterPost(s: Pool, i: nat, wake: nat)
    requires ControlAgrees(s) && WorkerEnabled(s, i, wake) && s.workers[i].Posting?
    ensures ControlAgrees(DoWorker(s, i, wake))
  {
    var w := Running(s.workers[i].job);
    Move(s.workers, i, w);
    SignalMoves(s.workers[i := w], wake);
  }

  lemma ControlAfterWorker(s: Pool, i: nat, wake: nat)
    requires ControlAgrees(s) && WorkerEnabled(s, i, wake)
    ensures ControlAgrees(DoWorker(s, i, wake))
  {
    var w := s.workers[i];
    if w.Counted? {
      ControlAfterPull(s, i);
    } else if w.Posting? {
      ControlAfterPost(s, i, wake);
    } else if w.AtSemaphore? {
      ControlAtSemaphore(s, i);
    } else if w.AtLoop? || w.HasToken? || w.Running? {
      ControlAfterMove(s, i, wake);
    } else {
      ControlAfterCount(s, i, wake);
    }
  }

  lemma ControlAtSemaphore(s: Pool, i: nat)
    requires ControlAgrees(s) && WorkerEnabled(s, i, 0) && s.workers[i].AtSemaphore?
    ensures ControlAgrees(DoWorker(s, i, 0))
  {
    Move(s.workers, i, if s.token then HasToken else Asleep);
  }

  // A worker moves on without touching the token, the queue or io_mutex.
  lemma ControlAfterGoto(s: Pool, i: nat, w: Worker, s': Pool)
    requires ControlAgrees(s) && i < |s.workers|
    requires s'.workers == s.workers[i := w]
    requires s'.alive == s.alive - Weight(Alive, s.workers[i]) + Weight(Alive, w)
    requires s'.working == s.working - Weight(Working, s.workers[i]) + Weight(Working, w)
    requires s'.keepAlive == s.keepAlive && s'.token == s.token && s'.queue == s.queue && s'.io == s.io
    requires s'.stop == s.stop && s'.discarded == s.discarded && (WaiterIdle(s) ==> WaiterIdle(s'))
    requires !s.workers[i].Posting? && !w.Posting? && !s.workers[i].AtSemaphore? && !w.Asleep?
    requires s.keepAlive ==> Weight(Holding, s.workers[i]) <= Weight(Holding, w)
    requires PastWork(s.workers[i]) && !s.keepAlive ==> PastWork(w)
    requires s.keepAlive ==> !w.Exiting? && !w.Exited?
    ensures ControlAgrees(s')
  {
    Move(s.workers, i, w);
  }

  lemma ControlAfterMove(s: Pool, i: nat, wake: nat)
    requires ControlAgrees(s) && WorkerEnabled(s, i, wake)
    requires s.workers[i].AtLoop? || s.workers[i].HasToken? || s.workers[i].Running?
    ensures ControlAgrees(DoWorker(s, i, wake))
  {
    var s' := DoWorker(s, i, wake);
    ControlAfterGoto(s, i, s'.workers[i], s');
  }

  lemma ControlAfterCount(s: Pool, i: nat, wake: nat)
    requires ControlAgrees(s) && WorkerEnabled(s, i, wake)
    requires s.workers[i].Starting? || s.workers[i].Entering? || s.workers[i].Leaving? || s.workers[i].Exiting?
    ensures ControlAgrees(DoWorker(s, i, wake))
  {
    var s' := DoWorker(s, i, wake);
    ControlAfterGoto(s, i, s'.workers[i], s');
  }

  lemma ControlAfterBroadcast(s: Pool, wake: nat)
    requires ControlAgrees(s) && s.stop.Broadcasting?
    ensures ControlAgrees(DoStop(s, wake))
  {
    WakeAllMoves(s.workers);
  }

  lemma ControlAfterStop(s: Pool, wake: nat)
    requires ControlAgrees(s) && StopEnabled(s, wake)
    ensures ControlAgrees(DoStop(s, wake))
  {
    if s.stop.Testing? {
      TotalZero(Alive, s.workers);
    } else if s.stop.Broadcasting? {
      ControlAfterBroadcast(s, wake);
    } else if s.queue != [] {
      SignalMoves(s.workers, wake);
    }
  }

  lemma ControlAfterPushPost(s: Pool, wake: nat)
    requires ControlAgrees(s) && Enabled(s, PushPost(wake))
    ensures ControlAgrees(Do(s, PushPost(wake)))
  {
    hide Signal;
    SignalMoves(s.workers, wake);
  }

  lemma ControlAfterSpurious(s: Pool, i: nat)
    requires ControlAgrees(s) && Enabled(s, WorkerSpurious(i))
    ensures ControlAgrees(Do(s, WorkerSpurious(i)))
  {
    Move(s.workers, i, AtSemaphore);
  }

  lemma ControlAfterStep(s: Pool, step: Step)
    requires ControlAgrees(s) && Enabled(s, step)
    ensures ControlAgrees(Do(s, step))
  {
    hide DoWorker, DoStop;
    if step.WorkerStep? {
      ControlAfterWorker(s, step.i, step.wake);
    } else if step.StopStep? {
      ControlAfterStop(s, step.wake);
    } else if step.PushPost? {
      ControlAfterPushPost(s, step.wake);
    } else if step.WorkerSpurious? {
      ControlAfterSpurious(s, step.i);
    }
  }

  // ---- The caller of thread_pool_wait ----

  lemma {:induction false} TotalMonotone(m: Meter, n: Meter, ws: seq<Worker>)
    requires forall w :: Weight(m, w) <= Weight(n, w)
    ensures Total(m, ws) <= Total(n, ws)
  {
    if ws != [] { TotalMonotone(m, n, ws[1..]); }
  }

  lemma AllPulledFinished(s: Pool)
    requires CountersAgree(s) && JobsConserved(s) && s.working == 0
    ensures forall k :: 0 <= k < |s.pulled| ==> s.pulled[k] in s.finished
  {
    forall k | 0 <= k < |s.pulled| ensures s.pulled[k] in s.finished {
      var j := s.pulled[k];
      TotalMonotone(Holds(j), Working, s.workers);
      assert j in multiset(s.pulled);
      assert multiset(s.pulled)[j] == multiset(s.finished)[j] + Total(Holds(j), s.workers);
      assert j in multiset(s.finished);
    }
  }

  lemma WaiterStays(s: Pool, s': Pool)
    requires WaiterAgrees(s) && s'.waiter == s.waiter
    requires s.pulled <= s'.pulled && s.finished <= s'.finished
    requires s.waiter.Dozing? || s.waiter.Sleeping? ==>
               (s'.queue == s.queue && s'.working >= s.working) || s'.working > 0
    ensures WaiterAgrees(s')
  {
  }

  lemma WaiterAfterPull(s: Pool, i: nat)
    requires WaiterAgrees(s) && i < |s.workers| && s.working > 0
    ensures WaiterAgrees(DoPull(s, i))
  {
    WaiterStays(s, DoPull(s, i));
  }

  lemma WaiterAfterLeave(s: Pool, i: nat)
    requires WaiterAgrees(s) && i < |s.workers| && CountMutexFree(s) && s.working > 0
    ensures WaiterAgrees(DoLeave(s, i))
  {
    if DoLeave(s, i).waiter == s.waiter { WaiterStays(s, DoLeave(s, i)); }
  }

  lemma WaiterAfterWorker(s: Pool, i: nat, wake: nat)
    requires WaiterAgrees(s) && CountersAgree(s) && WorkerEnabled(s, i, wake)
    ensures WaiterAgrees(DoWorker(s, i, wake))
  {
    hide WaiterAgrees, DoPull, DoLeave;
    TotalAtLeast(Working, s.workers, i);
    if s.workers[i].Counted? {
      WaiterAfterPull(s, i);
    } else if s.workers[i].Leaving? {
      WaiterAfterLeave(s, i);
    } else {
      WaiterStays(s, DoWorker(s, i, wake));
    }
  }

  lemma WaiterAfterStep(s: Pool, step: Step)
    requires ControlAgrees(s) && JobsConserved(s) && WaiterAgrees(s) && Enabled(s, step)
    ensures WaiterAgrees(Do(s, step))
  {
    match step
    case WorkerStep(i, wake) => WaiterAfterWorker(s, i, wake);
    case WaitStep => if s.waiter.Checking? && s.working == 0 { AllPulledFinished(s); }
    case _ =>
  }

  // ---- The invariant over runs ----

  ghost predicate Inv(s: Pool) {
    ControlAgrees(s) && JobsConserved(s) && WaiterAgrees(s)
  }

  lemma InitInv(n: nat, nullGuard: bool)
    ensures Inv(Init(n, nullGuard))
  {
    forall m | Weight(m, Starting) == 0 ensures Total(m, seq(n, _ => Starting)) == 0 {
      TotalZero(m, seq(n, _ => Starting));
    }
  }

  lemma StepKeepsInv(s: Pool, step: Step)
    requires Inv(s) && Enabled(s, step)
    ensures Inv(Do(s, step))
  {
    ControlAfterStep(s, step);
    JobsAfterStep(s, step);
    WaiterAfterStep(s, step);
  }

  lemma {:induction false} RunKeepsInv(s: Pool, run: seq<Step>)
    requires Inv(s) && Valid(s, run)
    ensures Inv(After(s, run))
    decreases |run|
  {
    if run != [] {
      StepKeepsInv(s, run[0]);
      RunKeepsInv(Do(s, run[0]), run[1..]);
    }
  }

  lemma ReachableInv(s: Pool)
    requires Reachable(s)
    ensures Inv(s)
  {
    var n: nat, g, run :| Valid(Init(n, g), run) && After(Init(n, g), run) == s;
    InitInv(n, g);
    RunKeepsInv(Init(n, g), run);
  }

  // ---- Main results ----

  lemma SomeWorker(m: Meter, ws: seq<Worker>)
    requires Total(m, ws) > 0
    ensures exists i :: 0 <= i < |ws| && Weight(m, ws[i]) > 0
  {
    TotalZero(m, ws);
  }

  /** Before shutdown a queued job always has someone coming for it: the token is set,
      or a worker holds a token and has not pulled yet, or the owner of io_mutex is
      about to post. A set token is never slept through either. */
  lemma NoStrandedJob(s: Pool)
    requires Reachable(s) && s.keepAlive && s.queue != []
    ensures s.token || !s.io.Free? ||
            exists i :: 0 <= i < |s.workers| &&
              (s.workers[i].HasToken? || s.workers[i].Entering? || s.workers[i].Counted?)
    ensures s.token && SomeAsleep(s.workers) ==> exists i :: 0 <= i < |s.workers| && s.workers[i].AtSemaphore?
  {
    ReachableInv(s);
    if Total(Holding, s.workers) > 0 { SomeWorker(Holding, s.workers); }
    if s.token && SomeAsleep(s.workers) {
      var i :| 0 <= i < |s.workers| && s.workers[i].Asleep?;
      TotalAtLeast(Sleepers, s.workers, i);
      SomeWorker(AtTest, s.workers);
    }
  }

  lemma {:induction false} DuplicatesByCount(jobs: seq<Job>)
    ensures Distinct(jobs) <==> forall j :: multiset(jobs)[j] <= 1
  {
    if jobs != [] {
      var x, rest := jobs[0], jobs[1..];
      DuplicatesByCount(rest);
      assert jobs == [x] + rest;
      assert forall j :: multiset(jobs)[j] == multiset(rest)[j] + if j == x then 1 else 0;
      assert x in rest <==> multiset(rest)[x] > 0;
      assert Distinct(jobs) <==> Distinct(rest) && x !in rest by {
        assert forall k :: 0 < k < |jobs| ==> jobs[k] == rest[k - 1];
        assert forall k :: 0 <= k < |rest| ==> rest[k] == jobs[k + 1];
      }
    }
  }

  lemma {:induction false} TwoHolders(m: Meter, ws: seq<Worker>, i: nat, k: nat)
    requires i < k < |ws|
    ensures Total(m, ws) >= Weight(m, ws[i]) + Weight(m, ws[k])
  {
    if i == 0 { TotalAtLeast(m, ws[1..], k - 1); } else { TwoHolders(m, ws[1..], i - 1, k - 1); }
  }

  predicate HasJob(w: Worker, j: Job) {
    w == Posting(j) || w == Running(j)
  }

  lemma PulledOnce(s: Pool, j: Job)
    requires JobsConserved(s)
    ensures multiset(s.pulled)[j] == multiset(s.finished)[j] + Total(Holds(j), s.workers) <= 1
    ensures Distinct(s.pulled)
  {
    assert forall k :: 0 <= k < |s.pulled| ==> s.pulled[k] == s.pushed[k];
    DuplicatesByCount(s.pulled);
  }

  /** Exactly once, in order: what was pushed is what was pulled, then what was thrown
      away, then what is queued, without repetition; a pulled job has finished once or
      is in the hands of one worker, never both. */
  lemma ExactlyOnce(s: Pool)
    requires Reachable(s)
    ensures s.pushed == s.pulled + s.discarded + s.queue
    ensures Distinct(s.pushed) && Distinct(s.finished)
    ensures forall j :: j in s.pulled <==>
              j in s.finished || exists i :: 0 <= i < |s.workers| && HasJob(s.workers[i], j)
    ensures forall i, j :: 0 <= i < |s.workers| && HasJob(s.workers[i], j) ==> j !in s.finished
    ensures forall i, k, j :: 0 <= i < k < |s.workers| && HasJob(s.workers[i], j) ==> !HasJob(s.workers[k], j)
  {
    ReachableInv(s);
    forall j ensures multiset(s.finished)[j] <= 1 { PulledOnce(s, j); }
    DuplicatesByCount(s.finished);
    forall j ensures j in s.pulled <==> j in s.finished || exists i :: 0 <= i < |s.workers| && HasJob(s.workers[i], j) {
      PulledOnce(s, j);
      TotalZero(Holds(j), s.workers);
      assert j in s.pulled <==> multiset(s.pulled)[j] > 0;
      assert j in s.finished <==> multiset(s.finished)[j] > 0;
    }
    forall i, j | 0 <= i < |s.workers| && HasJob(s.workers[i], j) ensures j !in s.finished {
      PulledOnce(s, j);
      TotalAtLeast(Holds(j), s.workers, i);
      assert j in s.finished <==> multiset(s.finished)[j] > 0;
    }
    forall i, k, j | 0 <= i < k < |s.workers| && HasJob(s.workers[i], j) ensures !HasJob(s.workers[k], j) {
      PulledOnce(s, j);
      TwoHolders(Holds(j), s.workers, i, k);
    }
  }

  /** thread_pool_wait is sound: when it returns, every job linked before its last
      read of job_count has finished, though that read is not under io_mutex. */
  lemma WaitIsSound(s: Pool)
    requires Reachable(s) && s.waiter.Returned?
    ensures s.waiter.seen <= |s.pushed|
    ensures forall k :: 0 <= k < s.waiter.seen ==> s.pushed[k] in s.finished
  {
    ReachableInv(s);
    assert forall k :: 0 <= k < s.waiter.seen ==> s.pushed[k] == s.pulled[k];
  }

  /** A sleeping waiter that has not been signalled still has work to wait for. */
  lemma WaiterHasReason(s: Pool)
    requires Reachable(s) && s.waiter.Sleeping?
    ensures s.queue != [] || exists i :: 0 <= i < |s.workers| && Weight(Working, s.workers[i]) > 0
  {
    ReachableInv(s);
    if s.queue == [] { SomeWorker(Working, s.workers); }
  }
}
