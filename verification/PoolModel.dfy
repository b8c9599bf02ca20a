/** The thread pool of thread.c as a transition system. One step is one critical
    section, or one access to shared data outside every critical section. */
module PoolModel {
  import opened QueueSpec

  // The identity of a heap node made by thread_pool_add_work.
  type Job = nat

  // The program counter of a worker in thread_do.
  datatype Worker =
    | Starting             // before ++thread_alive_count
    | AtLoop               // about to test threads_keep_alive
    | AtSemaphore          // about to lock the semaphore and test state_value
    | Asleep               // in pthread_cond_wait on the semaphore
    | HasToken             // set state_value to 0; about to test threads_keep_alive again
    | Entering             // about to do ++thread_working_count
    | Counted              // about to pull
    | Posting(job: Job)    // holds io_mutex with its job unlinked; about to post
    | Running(job: Job)    // jobs are taken to return
    | Leaving              // about to do --thread_working_count
    | Exiting              // about to do --thread_alive_count
    | Exited

  // The owner of io_mutex between the steps of a push or a pull.
  datatype Io = Free | ByPusher | ByWorker(i: nat)

  // The caller of thread_pool_wait. `seen` records how many jobs had been linked
  // when it last read job_count.
  datatype Waiter =
    | Absent
    | Locking              // about to take thread_count_mutex
    | Reading              // holds it; about to read job_count
    | Checking(seen: nat)  // holds it; about to read thread_working_count
    | Dozing               // holds it; about to call pthread_cond_wait
    | Sleeping
    | Returned(seen: nat)

  // The caller of thread_pool_free.
  datatype Stop =
    | NotStopping
    | Testing              // about to read thread_alive_count
    | Broadcasting         // about to broadcast on the semaphore
    | Cleaning             // in job_queue_clear
    | Stopped

  datatype Pool = Pool(
    workers: seq<Worker>,
    keepAlive: bool,
    token: bool,           // state_value == 1
    queue: seq<Job>,       // job_count == |queue|
    io: Io,
    alive: int,
    working: int,
    waiter: Waiter,
    stop: Stop,
    nullGuard: bool,       // does a pull of the empty queue answer NULL, or follow the null front?
    faulted: bool,         // a null front was followed
    // History:
    pushed: seq<Job>,
    pulled: seq<Job>,      // by workers
    finished: seq<Job>,
    discarded: seq<Job>    // by job_queue_clear
  )

  function Init(n: nat, nullGuard: bool): Pool {
    Pool(seq(n, _ => Starting), true, false, [], Free, 0, 0, Absent, NotStopping, nullGuard, false,
         [], [], [], [])
  }

  // ---- Condition variables ----

  predicate SomeAsleep(ws: seq<Worker>) {
    exists i :: 0 <= i < |ws| && ws[i].Asleep?
  }

  // pthread_cond_signal wakes some sleeper if there is one.
  predicate MaySignal(ws: seq<Worker>, wake: nat) {
    SomeAsleep(ws) ==> wake < |ws| && ws[wake].Asleep?
  }

  function Signal(ws: seq<Worker>, wake: nat): seq<Worker> {
    if wake < |ws| && ws[wake].Asleep? then ws[wake := AtSemaphore] else ws
  }

  function WakeAll(ws: seq<Worker>): seq<Worker> {
    if ws == [] then [] else [if ws[0].Asleep? then AtSemaphore else ws[0]] + WakeAll(ws[1..])
  }

  // ---- Steps ----

  datatype Step =
    | Push(job: Job)
    | PushPost(wake: nat)
    | WorkerStep(i: nat, wake: nat)
    | WorkerSpurious(i: nat)   // pthread_cond_wait may return without a signal
    | WaitCall
    | WaitStep
    | WaitSpurious
    | StopCall
    | StopStep(wake: nat)

  predicate CountMutexFree(s: Pool) {
    !s.waiter.Reading? && !s.waiter.Checking? && !s.waiter.Dozing?
  }

  predicate WaiterIdle(s: Pool) {
    s.waiter.Absent? || s.waiter.Returned?
  }

  predicate WorkerEnabled(s: Pool, i: nat, wake: nat) {
    i < |s.workers| &&
    match s.workers[i]
    case Starting | Entering | Leaving | Exiting => CountMutexFree(s)
    case AtLoop | AtSemaphore | HasToken | Running(_) => true
    case Counted => s.io.Free?
    case Posting(_) => s.io == ByWorker(i) && MaySignal(s.workers, wake)
    case Asleep | Exited => false
  }

  predicate StopEnabled(s: Pool, wake: nat) {
    match s.stop
    case NotStopping | Stopped => false
    case Testing | Broadcasting => true
    case Cleaning => s.queue != [] ==> s.io.Free? && MaySignal(s.workers, wake)
  }

  // thread_pool_free destroys the pool, so its caller must not push or wait any more.
  predicate Enabled(s: Pool, step: Step) {
    !s.faulted &&
    match step
    case Push(job) => s.keepAlive && s.io.Free? && job !in s.pushed
    case PushPost(wake) => s.io.ByPusher? && MaySignal(s.workers, wake)
    case WorkerStep(i, wake) => WorkerEnabled(s, i, wake)
    case WorkerSpurious(i) => i < |s.workers| && s.workers[i].Asleep?
    case WaitCall => s.keepAlive && WaiterIdle(s)
    case WaitStep => s.waiter.Locking? || !CountMutexFree(s)
    case WaitSpurious => s.waiter.Sleeping?
    case StopCall => s.stop.NotStopping? && !s.io.ByPusher? && WaiterIdle(s)
    case StopStep(wake) => StopEnabled(s, wake)
  }

  function Goto(s: Pool, i: nat, w: Worker): Pool
    requires i < |s.workers|
  {
    s.(workers := s.workers[i := w])
  }

  function DoPull(s: Pool, i: nat): Pool
    requires i < |s.workers|
  {
    match PullFront(s.queue)
    case NullFront => if s.nullGuard then Goto(s, i, Leaving) else s.(faulted := true)
    case Taken(job, rest, repost) =>
      Goto(s, i, if repost then Posting(job) else Running(job)).(
        queue := rest, pulled := s.pulled + [job], io := if repost then ByWorker(i) else Free)
  }

  function DoLeave(s: Pool, i: nat): Pool
    requires i < |s.workers|
  {
    Goto(s, i, AtLoop).(
      working := s.working - 1,
      waiter := if s.working == 1 && s.waiter.Sleeping? then Locking else s.waiter)
  }

  function DoPost(s: Pool, i: nat, job: Job, wake: nat): Pool
    requires i < |s.workers|
  {
    s.(workers := Signal(s.workers[i := Running(job)], wake), token := true, io := Free)
  }

  // Where a worker goes by itself.
  predicate Moving(w: Worker) {
    !w.Asleep? && !w.Counted? && !w.Posting? && !w.Leaving? && !w.Exited?
  }

  function Next(s: Pool, w: Worker): Worker
    requires Moving(w)
  {
    match w
    case Starting => AtLoop
    case AtLoop => if s.keepAlive then AtSemaphore else Exiting
    case AtSemaphore => if s.token then HasToken else Asleep
    case HasToken => if s.keepAlive then Entering else Exiting
    case Entering => Counted
    case Running(_) => Leaving
    case Exiting => Exited
  }

  function DoMove(s: Pool, i: nat): Pool
    requires i < |s.workers| && Moving(s.workers[i])
  {
    var w := s.workers[i];
    Goto(s, i, Next(s, w)).(
      alive := s.alive + (if w.Starting? then 1 else if w.Exiting? then -1 else 0),
      working := s.working + (if w.Entering? then 1 else 0),
      token := s.token && !w.AtSemaphore?,
      finished := s.finished + if w.Running? then [w.job] else [])
  }

  function DoWorker(s: Pool, i: nat, wake: nat): Pool
    requires WorkerEnabled(s, i, wake)
  {
    var w := s.workers[i];
    if w.Counted? then DoPull(s, i)
    else if w.Posting? then DoPost(s, i, w.job, wake)
    else if w.Leaving? then DoLeave(s, i)
    else DoMove(s, i)
  }

  function DoWait(s: Pool): Pool
    requires s.waiter.Locking? || !CountMutexFree(s)
  {
    match s.waiter
    case Locking => s.(waiter := Reading)
    case Reading => s.(waiter := if |s.queue| > 0 then Dozing else Checking(|s.pushed|))
    case Checking(seen) => s.(waiter := if s.working > 0 then Dozing else Returned(seen))
    case Dozing => s.(waiter := Sleeping)
  }

  function DoStop(s: Pool, wake: nat): Pool
    requires StopEnabled(s, wake)
  {
    match s.stop
    case Testing => s.(stop := if s.alive > 0 then Broadcasting else Cleaning)
    case Broadcasting => s.(stop := Testing, token := true, workers := WakeAll(s.workers))
    case Cleaning =>
      match PullFront(s.queue)
      case NullFront => s.(stop := Stopped, token := false)
      case Taken(job, rest, repost) =>
        var s' := s.(queue := rest, discarded := s.discarded + [job]);
        if repost then s'.(token := true, workers := Signal(s.workers, wake)) else s'
  }

  function Do(s: Pool, step: Step): Pool
    requires Enabled(s, step)
  {
    match step
    case Push(job) => s.(queue := PushBack(s.queue, job), pushed := s.pushed + [job], io := ByPusher)
    case PushPost(wake) => s.(token := true, workers := Signal(s.workers, wake), io := Free)
    case WorkerStep(i, wake) => DoWorker(s, i, wake)
    case WorkerSpurious(i) => Goto(s, i, AtSemaphore)
    case WaitCall => s.(waiter := Locking)
    case WaitStep => DoWait(s)
    case WaitSpurious => s.(waiter := Locking)
    case StopCall => s.(keepAlive := false, stop := Testing)
    case StopStep(wake) => DoStop(s, wake)
  }

  // ---- Runs ----

  predicate Valid(s: Pool, run: seq<Step>)
    decreases |run|
  {
    run == [] || (Enabled(s, run[0]) && Valid(Do(s, run[0]), run[1..]))
  }

  function After(s: Pool, run: seq<Step>): Pool
    requires Valid(s, run)
    decreases |run|
  {
    if run == [] then s else After(Do(s, run[0]), run[1..])
  }

  ghost predicate Reachable(s: Pool) {
    exists n: nat, nullGuard, run :: Valid(Init(n, nullGuard), run) && After(Init(n, nullGuard), run) == s
  }

  // How many steps of a run satisfy a classification.
  function Count(run: seq<Step>, p: Step -> bool): nat {
    if run == [] then 0 else (if p(run[0]) then 1 else 0) + Count(run[1..], p)
  }

  // ---- Sums over the workers ----

  // How the invariants and measures weigh a program counter.
  datatype Meter =
    | Alive | Working | Holding | PastGate | AtTest | Sleepers | Unregistered
    | Holds(job: Job) | WorkLeft | ExitLeft

  function Weight(m: Meter, w: Worker): nat {
    match m
    case Alive => if w.Starting? || w.Exited? then 0 else 1
    case Working => if w.Counted? || w.Posting? || w.Running? || w.Leaving? then 1 else 0
    case Holding => if w.HasToken? || w.Entering? || w.Counted? then 1 else 0
    case PastGate => if w.Entering? || w.Counted? then 1 else 0
    case AtTest => if w.AtSemaphore? then 1 else 0
    case Sleepers => if w.Asleep? then 1 else 0
    case Unregistered => if w.Starting? then 1 else 0
    case Holds(job) => if w == Posting(job) || w == Running(job) then 1 else 0
    case WorkLeft => WorkLeftOf(w)
    case ExitLeft => ExitLeftOf(w)
  }

  // Steps a worker can still take before it needs a token, plus what it may cause others.
  function WorkLeftOf(w: Worker): nat {
    match w
    case Asleep | Exited => 0
    case AtSemaphore | Exiting => 1
    case AtLoop => 2
    case Starting => 3
    case Leaving => 7
    case Running(_) => 8
    case Counted => 9
    case Entering => 10
    case HasToken => 11
    case Posting(_) => 21
  }

  // Distance to the end of thread_do once threads_keep_alive is cleared.
  function ExitLeftOf(w: Worker): nat {
    match w
    case Exited => 0
    case Exiting => 1
    case AtLoop | HasToken => 2
    case AtSemaphore | Asleep | Leaving | Starting => 3
    case Running(_) => 4
    case Posting(_) => 5
    case Counted => 6
    case Entering => 7
  }

  function Total(m: Meter, ws: seq<Worker>): nat {
    if ws == [] then 0 else Weight(m, ws[0]) + Total(m, ws[1..])
  }

  lemma {:induction false} TotalMove(m: Meter, ws: seq<Worker>, i: nat, w: Worker)
    requires i < |ws|
    ensures Total(m, ws[i := w]) == Total(m, ws) - Weight(m, ws[i]) + Weight(m, w)
  {
    if i == 0 {
      assert ws[i := w][1..] == ws[1..];
    } else {
      assert ws[i := w][1..] == ws[1..][i - 1 := w];
      TotalMove(m, ws[1..], i - 1, w);
    }
  }

  // The one update lemma the step proofs use.
  lemma Move(ws: seq<Worker>, i: nat, w: Worker)
    requires i < |ws|
    ensures forall m :: Total(m, ws[i := w]) == Total(m, ws) - Weight(m, ws[i]) + Weight(m, w)
  {
    forall m ensures Total(m, ws[i := w]) == Total(m, ws) - Weight(m, ws[i]) + Weight(m, w) {
      TotalMove(m, ws, i, w);
    }
  }

  lemma {:induction false} TotalZero(m: Meter, ws: seq<Worker>)
    ensures Total(m, ws) == 0 <==> forall i :: 0 <= i < |ws| ==> Weight(m, ws[i]) == 0
  {
    if ws != [] {
      TotalZero(m, ws[1..]);
      assert forall i :: 0 < i < |ws| ==> ws[i] == ws[1..][i - 1];
      assert forall i :: 0 <= i < |ws[1..]| ==> ws[1..][i] == ws[i + 1];
    }
  }

  // Each worker contributes at most its weight to the total.
  lemma {:induction false} TotalAtLeast(m: Meter, ws: seq<Worker>, i: nat)
    requires i < |ws|
    ensures Total(m, ws) >= Weight(m, ws[i])
  {
    if i > 0 { TotalAtLeast(m, ws[1..], i - 1); }
  }

  lemma {:induction false} WakeAllMoves(ws: seq<Worker>)
    ensures |WakeAll(ws)| == |ws|
    ensures forall i :: 0 <= i < |ws| ==> WakeAll(ws)[i] == if ws[i].Asleep? then AtSemaphore else ws[i]
    ensures forall m :: Weight(m, Asleep) == Weight(m, AtSemaphore) ==> Total(m, WakeAll(ws)) == Total(m, ws)
    ensures Total(Sleepers, WakeAll(ws)) == 0
    ensures Total(AtTest, WakeAll(ws)) == Total(AtTest, ws) + Total(Sleepers, ws)
  {
    if ws != [] { WakeAllMoves(ws[1..]); }
  }

  lemma {:induction false} SleepersBound(ws: seq<Worker>)
    ensures Total(Sleepers, ws) <= |ws|
  {
    if ws != [] { SleepersBound(ws[1..]); }
  }
}
