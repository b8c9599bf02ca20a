/** When does job_queue_pull follow a null front? Exactly when there are at least two
    workers and at least two jobs. */
module PoolFaults {
  import opened Sequences
  import opened PoolModel
  import opened PoolSafety
  import opened PoolProgress

  function Pushes(run: seq<Step>): nat {
    if run == [] then 0 else (if run[0].Push? then 1 else 0) + Pushes(run[1..])
  }

  // Every token, taken or not, is covered by a queued job.
  predicate TokensCovered(s: Pool) {
    && !s.faulted
    && (|s.workers| <= 1 || |s.pushed| <= 1)
    && (s.io.ByWorker? ==> |s.workers| <= 1)
    && (s.keepAlive && !s.io.ByWorker? ==>
          |s.queue| >= Total(Holding, s.workers) + (if s.token then 1 else 0) + if s.io.ByPusher? then 1 else 0)
    && (!s.keepAlive ==> |s.queue| >= Total(PastGate, s.workers))
  }

  lemma CoveredPull(s: Pool, i: nat)
    requires Inv(s) && TokensCovered(s) && Enabled(s, WorkerStep(i, 0)) && s.workers[i].Counted?
    ensures TokensCovered(DoPull(s, i))
  {
    TotalAtLeast(Holding, s.workers, i);
    TotalAtLeast(PastGate, s.workers, i);
    Move(s.workers, i, DoPull(s, i).workers[i]);
    assert |s.pushed| == |s.pulled| + |s.discarded| + |s.queue|;
  }

  lemma CoveredPost(s: Pool, i: nat, wake: nat)
    requires Inv(s) && TokensCovered(s) && Enabled(s, WorkerStep(i, wake)) && s.workers[i].Posting?
    ensures TokensCovered(DoWorker(s, i, wake))
  {
    var ws := s.workers[i := Running(s.workers[i].job)];
    SignalMoves(ws, wake);
    assert ws == [ws[0]];
    assert Total(Holding, ws) == 0 && Total(PastGate, ws) == 0;
  }

  lemma CoveredMove(s: Pool, i: nat)
    requires Inv(s) && TokensCovered(s) && i < |s.workers| && Moving(s.workers[i])
    ensures TokensCovered(DoMove(s, i))
  {
    CoveredGoto(s, i, DoMove(s, i).workers[i], DoMove(s, i));
  }

  lemma CoveredLeave(s: Pool, i: nat)
    requires TokensCovered(s) && i < |s.workers| && s.workers[i].Leaving?
    ensures TokensCovered(DoLeave(s, i))
  {
    CoveredGoto(s, i, AtLoop, DoLeave(s, i));
  }

  lemma CoveredGoto(s: Pool, i: nat, w: Worker, t: Pool)
    requires TokensCovered(s) && i < |s.workers| && t.workers == s.workers[i := w]
    requires t.queue == s.queue && t.io == s.io && t.pushed == s.pushed && t.keepAlive == s.keepAlive && !t.faulted
    requires s.keepAlive ==>
               Weight(Holding, w) + (if t.token then 1 else 0) <=
               Weight(Holding, s.workers[i]) + (if s.token then 1 else 0)
    requires s.keepAlive || Weight(PastGate, w) <= Weight(PastGate, s.workers[i])
    ensures TokensCovered(t)
  {
    TotalMove(Holding, s.workers, i, w);
    TotalMove(PastGate, s.workers, i, w);
  }

  lemma CoveredWorker(s: Pool, i: nat, wake: nat)
    requires Inv(s) && TokensCovered(s) && Enabled(s, WorkerStep(i, wake))
    ensures TokensCovered(DoWorker(s, i, wake))
  {
    hide TokensCovered, DoPull, DoLeave, DoMove, DoPost;
    if s.workers[i].Counted? {
      CoveredPull(s, i);
    } else if s.workers[i].Posting? {
      CoveredPost(s, i, wake);
    } else if s.workers[i].Leaving? {
      CoveredLeave(s, i);
    } else {
      CoveredMove(s, i);
    }
  }

  lemma CoveredWakeup(s: Pool, step: Step)
    requires TokensCovered(s) && Enabled(s, step) && (step.PushPost? || step.WorkerSpurious?)
    ensures TokensCovered(Do(s, step))
  {
    hide DoWorker, DoStop;
    if step.PushPost? { SignalMoves(s.workers, step.wake); } else { Move(s.workers, step.i, AtSemaphore); }
  }

  lemma CoveredStep(s: Pool, step: Step)
    requires Inv(s) && TokensCovered(s) && Enabled(s, step)
    requires step.Push? ==> |s.workers| <= 1 || s.pushed == []
    ensures TokensCovered(Do(s, step))
  {
    hide DoWorker, DoStop;
    if step.WorkerStep? {
      CoveredWorker(s, step.i, step.wake);
    } else if step.WorkerSpurious? || step.PushPost? {
      CoveredWakeup(s, step);
    } else if step.StopStep? {
      CoveredStop(s, step.wake);
    } else if step.StopCall? {
      CoveredStopCall(s);
    }
  }

  lemma CoveredStopCall(s: Pool)
    requires Inv(s) && TokensCovered(s) && Enabled(s, StopCall)
    ensures |s.queue| >= Total(PastGate, s.workers)
  {
    TotalMonotone(PastGate, Holding, s.workers);
    if s.io.ByWorker? { assert s.workers == [s.workers[0]]; }
  }

  lemma CoveredStop(s: Pool, wake: nat)
    requires Inv(s) && TokensCovered(s) && StopEnabled(s, wake)
    ensures TokensCovered(DoStop(s, wake))
  {
    if s.stop.Broadcasting? {
      WakeAllMoves(s.workers);
    } else if s.stop.Cleaning? {
      TotalZero(PastGate, s.workers);
      SignalMoves(s.workers, if SomeAsleep(s.workers) then wake else 0);
    }
  }

  lemma {:induction false} CoveredRun(s: Pool, run: seq<Step>)
    requires Inv(s) && TokensCovered(s) && Valid(s, run)
    requires |s.workers| <= 1 || |s.pushed| + Pushes(run) <= 1
    ensures TokensCovered(After(s, run)) && !After(s, run).faulted
    decreases |run|
  {
    hide Do, Enabled, Inv;
    if run != [] {
      CoveredStep(s, run[0]);
      StepKeepsInv(s, run[0]);
      SameWorkers(s, run[0]);
      CoveredRun(Do(s, run[0]), run[1..]);
    }
  }

  lemma SameWorkers(s: Pool, step: Step)
    requires Enabled(s, step)
    ensures var t := Do(s, step);
            |t.workers| == |s.workers| && t.nullGuard == s.nullGuard &&
            |t.pushed| == |s.pushed| + if step.Push? then 1 else 0
  {
    hide Signal, MaySignal, Next;
    if step.StopStep? {
      WakeAllMoves(s.workers);
      if s.stop.Cleaning? && s.queue != [] { SignalMoves(s.workers, step.wake); }
    } else if step.PushPost? {
      SignalMoves(s.workers, step.wake);
    } else if step.WorkerStep? && s.workers[step.i].Posting? {
      PostMoves(s, step.i, step.wake);
    }
  }

  lemma {:induction false} SameWorkersRun(s: Pool, run: seq<Step>)
    requires Valid(s, run)
    ensures var t := After(s, run);
            |t.workers| == |s.workers| && t.nullGuard == s.nullGuard && |t.pushed| == |s.pushed| + Pushes(run)
    decreases |run|
  {
    hide Do, Enabled;
    if run != [] {
      SameWorkers(s, run[0]);
      SameWorkersRun(Do(s, run[0]), run[1..]);
    }
  }

  // ---- A run that empties the queue under a worker ----

  lemma {:induction false} ValidSnoc(s: Pool, run: seq<Step>, step: Step)
    requires Valid(s, run) && Enabled(After(s, run), step)
    ensures Valid(s, run + [step]) && After(s, run + [step]) == Do(After(s, run), step)
    ensures Pushes(run + [step]) == Pushes(run) + if step.Push? then 1 else 0
    decreases |run|
  {
    hide Do, Enabled;
    if run != [] {
      ValidSnoc(Do(s, run[0]), run[1..], step);
      assert (run + [step])[1..] == run[1..] + [step];
    } else {
      assert run + [step] == [step];
    }
  }

  // Steps of pushers and workers.
  predicate JobStep(step: Step) {
    step.Push? || step.PushPost? || step.WorkerStep?
  }

  ghost predicate JobSteps(run: seq<Step>) {
    forall i :: 0 <= i < |run| ==> JobStep(run[i])
  }

  lemma Then(s: Pool, run: seq<Step>, t: Pool, step: Step) returns (run': seq<Step>, t': Pool)
    requires Valid(s, run) && After(s, run) == t && Enabled(t, step)
    requires JobSteps(run) && JobStep(step)
    ensures Valid(s, run') && After(s, run') == t' == Do(t, step) && JobSteps(run')
    ensures Pushes(run') == Pushes(run) + if step.Push? then 1 else 0
  {
    ValidSnoc(s, run, step);
    run' := run + [step];
    t' := Do(t, step);
  }

  // Two workers and two jobs, in a state reached before any of them has finished.
  function Scene(w0: Worker, w1: Worker, token: bool, io: Io, working: int,
                 pushed: seq<Job>, pulled: seq<Job>, finished: seq<Job>): Pool
    requires |pulled| <= |pushed|
  {
    Pool([w0, w1], true, token, pushed[|pulled|..], io, 2, working, Absent, NotStopping, false, false,
         pushed, pulled, finished, [])
  }

  lemma BothRegister() returns (run: seq<Step>)
    ensures Valid(Init(2, false), run) && JobSteps(run) && Pushes(run) == 0
    ensures After(Init(2, false), run) == Scene(AtLoop, AtLoop, false, Free, 0, [], [], [])
  {
    var s := Init(2, false);
    assert s.workers == [Starting, Starting];
    var t;
    run, t := Then(s, [], s, WorkerStep(0, 0));
    run, t := Then(s, run, t, WorkerStep(1, 0));
  }

  lemma BothReachSemaphore() returns (run: seq<Step>)
    ensures var s := Scene(AtLoop, AtLoop, false, Free, 0, [], [], []);
            Valid(s, run) && JobSteps(run) && Pushes(run) == 0 &&
            After(s, run) == Scene(AtSemaphore, AtSemaphore, false, Free, 0, [], [], [])
  {
    var s := Scene(AtLoop, AtLoop, false, Free, 0, [], [], []);
    var t;
    run, t := Then(s, [], s, WorkerStep(0, 0));
    run, t := Then(s, run, t, WorkerStep(1, 0));
  }

  lemma FirstTakesToken() returns (run: seq<Step>)
    ensures var s := Scene(AtSemaphore, AtSemaphore, false, Free, 0, [], [], []);
            Valid(s, run) && JobSteps(run) && Pushes(run) == 1 &&
            After(s, run) == Scene(HasToken, AtSemaphore, false, Free, 0, [0], [], [])
  {
    var s := Scene(AtSemaphore, AtSemaphore, false, Free, 0, [], [], []);
    var t;
    run, t := Then(s, [], s, Push(0));
    run, t := Then(s, run, t, PushPost(0));
    run, t := Then(s, run, t, WorkerStep(0, 0));
  }

  lemma SecondTakesToken() returns (run: seq<Step>)
    ensures var s := Scene(HasToken, AtSemaphore, false, Free, 0, [0], [], []);
            Valid(s, run) && JobSteps(run) && Pushes(run) == 1 &&
            After(s, run) == Scene(HasToken, HasToken, false, Free, 0, [0, 1], [], [])
  {
    var s := Scene(HasToken, AtSemaphore, false, Free, 0, [0], [], []);
    var t;
    run, t := Then(s, [], s, Push(1));
    run, t := Then(s, run, t, PushPost(0));
    run, t := Then(s, run, t, WorkerStep(1, 0));
  }

  lemma BothCount() returns (run: seq<Step>)
    ensures var s := Scene(HasToken, HasToken, false, Free, 0, [0, 1], [], []);
            Valid(s, run) && JobSteps(run) && Pushes(run) == 0 &&
            After(s, run) == Scene(Counted, Counted, false, Free, 2, [0, 1], [], [])
  {
    var s := Scene(HasToken, HasToken, false, Free, 0, [0, 1], [], []);
    var t;
    run, t := Then(s, [], s, WorkerStep(0, 0));
    run, t := Then(s, run, t, WorkerStep(0, 0));
    assert t == Scene(Counted, HasToken, false, Free, 1, [0, 1], [], []);
    run, t := Then(s, run, t, WorkerStep(1, 0));
    run, t := Then(s, run, t, WorkerStep(1, 0));
  }

  lemma BothPull() returns (run: seq<Step>)
    ensures var s := Scene(Counted, Counted, false, Free, 2, [0, 1], [], []);
            Valid(s, run) && JobSteps(run) && Pushes(run) == 0 &&
            After(s, run) == Scene(Running(0), Running(1), true, Free, 2, [0, 1], [0, 1], [])
  {
    var s := Scene(Counted, Counted, false, Free, 2, [0, 1], [], []);
    var t;
    run, t := Then(s, [], s, WorkerStep(0, 0));
    assert t == Scene(Posting(0), Counted, false, ByWorker(0), 2, [0, 1], [0], []);
    run, t := Then(s, run, t, WorkerStep(0, 0));
    run, t := Then(s, run, t, WorkerStep(1, 0));
  }

  lemma FirstFinishes() returns (run: seq<Step>)
    ensures var s := Scene(Running(0), Running(1), true, Free, 2, [0, 1], [0, 1], []);
            Valid(s, run) && JobSteps(run) && Pushes(run) == 0 &&
            After(s, run) == Scene(AtLoop, Running(1), true, Free, 1, [0, 1], [0, 1], [0])
  {
    var s := Scene(Running(0), Running(1), true, Free, 2, [0, 1], [0, 1], []);
    var t;
    run, t := Then(s, [], s, WorkerStep(0, 0));
    run, t := Then(s, run, t, WorkerStep(0, 0));
  }

  lemma FirstTakesSpareToken() returns (run: seq<Step>)
    ensures var s := Scene(AtLoop, Running(1), true, Free, 1, [0, 1], [0, 1], [0]);
            Valid(s, run) && JobSteps(run) && Pushes(run) == 0 &&
            After(s, run) == Scene(HasToken, Running(1), false, Free, 1, [0, 1], [0, 1], [0])
  {
    var s := Scene(AtLoop, Running(1), true, Free, 1, [0, 1], [0, 1], [0]);
    var t;
    run, t := Then(s, [], s, WorkerStep(0, 0));
    run, t := Then(s, run, t, WorkerStep(0, 0));
  }

  lemma FirstFindsNothing() returns (run: seq<Step>)
    ensures var s := Scene(HasToken, Running(1), false, Free, 1, [0, 1], [0, 1], [0]);
            Valid(s, run) && JobSteps(run) && Pushes(run) == 0 && After(s, run).faulted
  {
    var s := Scene(HasToken, Running(1), false, Free, 1, [0, 1], [0, 1], [0]);
    var t;
    run, t := Then(s, [], s, WorkerStep(0, 0));
    run, t := Then(s, run, t, WorkerStep(0, 0));
    run, t := Then(s, run, t, WorkerStep(0, 0));
  }

  lemma {:induction false} ValidConcat(s: Pool, a: seq<Step>, b: seq<Step>)
    requires Valid(s, a) && Valid(After(s, a), b)
    ensures Valid(s, a + b) && After(s, a + b) == After(After(s, a), b) && Pushes(a + b) == Pushes(a) + Pushes(b)
    decreases |a|
  {
    hide Do, Enabled;
    if a == [] {
      assert a + b == b;
    } else {
      ValidConcat(Do(s, a[0]), a[1..], b);
      assert (a + b)[1..] == a[1..] + b;
    }
  }

  lemma Join(s: Pool, a: seq<Step>, b: seq<Step>) returns (run: seq<Step>)
    requires Valid(s, a) && Valid(After(s, a), b) && JobSteps(a) && JobSteps(b)
    ensures Valid(s, run) && JobSteps(run)
    ensures After(s, run) == After(After(s, a), b) && Pushes(run) == Pushes(a) + Pushes(b)
  {
    ValidConcat(s, a, b);
    run := a + b;
  }

  lemma TwoWorkersFault() returns (run: seq<Step>)
    ensures Valid(Init(2, false), run) && JobSteps(run) && Pushes(run) == 2 && After(Init(2, false), run).faulted
  {
    hide Valid, After, JobSteps, Pushes;
    var s := Init(2, false);
    run := BothRegister();
    var more := BothReachSemaphore();
    run := Join(s, run, more);
    more := FirstTakesToken();
    run := Join(s, run, more);
    more := SecondTakesToken();
    run := Join(s, run, more);
    more := BothCount();
    run := Join(s, run, more);
    more := BothPull();
    run := Join(s, run, more);
    more := FirstFinishes();
    run := Join(s, run, more);
    more := FirstTakesSpareToken();
    run := Join(s, run, more);
    more := FirstFindsNothing();
    run := Join(s, run, more);
  }

  // ---- Further workers that do not start yet change nothing ----

  function Pad(s: Pool, n: nat): Pool {
    s.(workers := s.workers + seq(n, _ => Starting))
  }

  lemma PadSignal(ws: seq<Worker>, n: nat, wake: nat)
    requires MaySignal(ws, wake)
    ensures MaySignal(ws + seq(n, _ => Starting), wake)
    ensures Signal(ws + seq(n, _ => Starting), wake) == Signal(ws, wake) + seq(n, _ => Starting)
  {
    if SomeAsleep(ws) {
      assert (ws + seq(n, _ => Starting))[wake := AtSemaphore] == ws[wake := AtSemaphore] + seq(n, _ => Starting);
    }
  }

  lemma PadStep(s: Pool, n: nat, step: Step)
    requires Enabled(s, step) && JobStep(step)
    ensures Enabled(Pad(s, n), step) && Do(Pad(s, n), step) == Pad(Do(s, step), n)
  {
    if step.PushPost? {
      PadSignal(s.workers, n, step.wake);
    } else if step.WorkerStep? {
      PadWorker(s, n, step.i, step.wake);
    }
  }

  lemma PadMove(ws: seq<Worker>, n: nat, i: nat, w: Worker)
    requires i < |ws|
    ensures (ws + seq(n, _ => Starting))[i := w] == ws[i := w] + seq(n, _ => Starting)
  {
  }

  lemma PadPost(s: Pool, n: nat, i: nat, wake: nat)
    requires WorkerEnabled(s, i, wake) && s.workers[i].Posting?
    ensures WorkerEnabled(Pad(s, n), i, wake) && DoWorker(Pad(s, n), i, wake) == Pad(DoWorker(s, i, wake), n)
  {
    hide Signal, MaySignal;
    var w := Running(s.workers[i].job);
    PadSignal(s.workers, n, wake);
    PadMove(s.workers, n, i, w);
    StillSleeping(s.workers, i, w, wake);
    PadSignal(s.workers[i := w], n, wake);
  }

  lemma StillSleeping(ws: seq<Worker>, i: nat, w: Worker, wake: nat)
    requires MaySignal(ws, wake) && i < |ws| && !ws[i].Asleep? && !w.Asleep?
    ensures MaySignal(ws[i := w], wake)
  {
    if SomeAsleep(ws[i := w]) {
      var k :| 0 <= k < |ws| && ws[i := w][k].Asleep?;
      assert ws[k].Asleep?;
    }
  }

  lemma PadOwnMove(s: Pool, n: nat, i: nat)
    requires i < |s.workers| && Moving(s.workers[i])
    ensures DoMove(Pad(s, n), i) == Pad(DoMove(s, i), n)
  {
    PadMove(s.workers, n, i, Next(s, s.workers[i]));
  }

  lemma PadWorker(s: Pool, n: nat, i: nat, wake: nat)
    requires WorkerEnabled(s, i, wake)
    ensures WorkerEnabled(Pad(s, n), i, wake) && DoWorker(Pad(s, n), i, wake) == Pad(DoWorker(s, i, wake), n)
  {
    if s.workers[i].Posting? {
      PadPost(s, n, i, wake);
    } else if Moving(s.workers[i]) {
      hide DoMove;
      PadOwnMove(s, n, i);
    } else {
      PadMove(s.workers, n, i, DoWorker(s, i, wake).workers[i]);
    }
  }

  lemma {:induction false} PadRun(s: Pool, n: nat, run: seq<Step>)
    requires Valid(s, run) && JobSteps(run)
    ensures Valid(Pad(s, n), run) && After(Pad(s, n), run) == Pad(After(s, run), n)
    decreases |run|
  {
    hide Do, Enabled, Pad;
    if run != [] {
      PadStep(s, n, run[0]);
      PadRun(Do(s, run[0]), n, run[1..]);
    }
  }

  /** As written, an empty pull can be reached exactly with at least two workers and two
      jobs. The proxy pushes one job (main.c), so it never meets one. */
  lemma EmptyPullExactly(n: nat, k: nat)
    ensures (exists run :: Valid(Init(n, false), run) && Pushes(run) <= k && After(Init(n, false), run).faulted)
            <==> n >= 2 && k >= 2
  {
    if n >= 2 && k >= 2 {
      var run := TwoWorkersFault();
      PadRun(Init(2, false), n - 2, run);
      assert Pad(Init(2, false), n - 2) == Init(n, false);
    } else {
      forall run | Valid(Init(n, false), run) && Pushes(run) <= k ensures !After(Init(n, false), run).faulted {
        InitInv(n, false);
        TotalZero(Holding, Init(n, false).workers);
        CoveredRun(Init(n, false), run);
      }
    }
  }

  /** With the empty case thread_do expects, no run follows a null front. */
  lemma {:induction false} GuardedNeverFaults(s: Pool, run: seq<Step>)
    requires s.nullGuard && !s.faulted && Valid(s, run)
    ensures !After(s, run).faulted
    decreases |run|
  {
    if run != [] { GuardedNeverFaults(Do(s, run[0]), run[1..]); }
  }

  // The pools that never meet an empty queue, whatever happens; main.c pushes one job.
  predicate NeverEmpties(s: Pool) {
    s.nullGuard || |s.workers| <= 1 || |s.pushed| <= 1
  }

  lemma NeverFaulted(s: Pool)
    requires Reachable(s) && NeverEmpties(s)
    ensures !s.faulted
  {
    var n: nat, g, run :| Valid(Init(n, g), run) && After(Init(n, g), run) == s;
    SameWorkersRun(Init(n, g), run);
    if g {
      GuardedNeverFaults(Init(n, g), run);
    } else {
      InitInv(n, g);
      TotalZero(Holding, Init(n, g).workers);
      CoveredRun(Init(n, g), run);
    }
  }

  lemma ReachableOn(s: Pool, run: seq<Step>)
    requires Reachable(s) && Valid(s, run)
    ensures Reachable(After(s, run))
  {
    var n: nat, g, before :| Valid(Init(n, g), before) && After(Init(n, g), before) == s;
    ValidConcat(Init(n, g), before, run);
  }

  /** There, every run that goes on until no step is left has finished all jobs, each
      exactly once, without exception; jobs being such that they return. */
  lemma AllJobsFinish(s: Pool, run: seq<Step>)
    requires Reachable(s) && NeverEmpties(s) && s.keepAlive && |s.workers| > 0
    requires Valid(s, run) && WithoutCalls(run)
    requires forall step :: Internal(step) ==> !Enabled(After(s, run), step)
    ensures var t := After(s, run);
            Quiescent(t) && t.pulled == s.pushed && Distinct(t.finished) &&
            forall j :: j in t.finished <==> j in s.pushed
  {
    hide Do, Enabled, Measure, Quiescent;
    ReachableInv(s);
    RunsAreBounded(s, run);
    SameWorkersRun(s, run);
    ReachableOn(s, run);
    NeverFaulted(After(s, run));
    RunsComplete(s, run);
  }
}
