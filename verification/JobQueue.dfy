/** The linked job queue of thread.c on the heap: nodes chained from `frontJob` through
    `prev` to `rearJob`. Each method is one critical section of io_mutex. */
module JobQueue {
  import opened QueueSpec
  import opened Sequences

  datatype ThreadError = ThreadSuccess | ThreadInvalid

  class BinarySem {
    var stateValue: int

    constructor ()
      ensures stateValue == 0
    {
      stateValue := 0;
    }

    method Post()
      modifies this
      ensures stateValue == 1
    {
      stateValue := 1;
    }
  }

  class Job {
    var prev: Job?
    const arg: int

    constructor (arg: int)
      ensures this.arg == arg && prev == null
    {
      this.arg := arg;
      prev := null;
    }
  }

  class Queue {
    var frontJob: Job?
    var rearJob: Job?
    var jobCount: int
    var hasJobs: BinarySem
    ghost var jobs: seq<Job>   // front to rear

    ghost predicate Valid()
      reads this, jobs
    {
      && jobCount == |jobs|
      && Distinct(jobs)
      && (jobs == [] ==> frontJob == null)
      && (jobs != [] ==> frontJob == jobs[0] && rearJob == jobs[|jobs| - 1] && jobs[|jobs| - 1].prev == null)
      && (forall i :: 0 <= i < |jobs| - 1 ==> jobs[i].prev == jobs[i + 1])
    }

    constructor ()
      ensures Valid() && jobs == [] && hasJobs.stateValue == 0 && fresh(hasJobs)
    {
      frontJob, rearJob, jobCount, jobs := null, null, 0, [];
      hasJobs := new BinarySem();
    }

    method Push(newJob: Job?) returns (error: ThreadError)
      requires Valid()
      requires newJob != null ==> newJob !in jobs
      modifies this, newJob, jobs, hasJobs
      ensures Valid() && hasJobs == old(hasJobs)
      ensures newJob == null ==> error == ThreadInvalid && jobs == old(jobs) && unchanged(hasJobs)
      ensures newJob != null ==>
                error == ThreadSuccess && jobs == PushBack(old(jobs), newJob) && hasJobs.stateValue == 1
    {
      if newJob == null {
        return ThreadInvalid;
      }
      newJob.prev := null;
      if jobCount == 0 {
        frontJob := newJob;
        rearJob := newJob;
      } else {
        rearJob.prev := newJob;
        rearJob := newJob;
      }
      jobCount := jobCount + 1;
      jobs := jobs + [newJob];
      hasJobs.Post();
      error := ThreadSuccess;
    }

    // `lost`: the queue was empty, and the C code follows a null front from here.
    method Pull() returns (job: Job?, lost: bool)
      requires Valid()
      modifies this, hasJobs
      ensures Valid() && hasJobs == old(hasJobs)
      ensures lost <==> PullFront(old(jobs)).NullFront?
      ensures match PullFront(old(jobs))
              case NullFront => job == null && jobs == old(jobs) && unchanged(hasJobs)
              case Taken(front, rest, repost) =>
                job == front && jobs == rest && hasJobs.stateValue == if repost then 1 else old(hasJobs.stateValue)
    {
      job, lost := frontJob, false;
      if jobCount == 1 {
        frontJob, rearJob, jobCount := null, null, 0;
        jobs := [];
      } else if job == null {
        lost := true;
      } else {
        frontJob := job.prev;
        jobCount := jobCount - 1;
        jobs := jobs[1..];
        hasJobs.Post();
      }
    }

    lemma CountsJobs()
      requires Valid()
      ensures jobCount == |jobs|
    {
    }

    // The loop of job_queue_clear
    method PullAll() returns (freed: seq<Job>)
      requires Valid()
      modifies this, hasJobs
      ensures Valid() && hasJobs == old(hasJobs) && jobs == [] && freed == old(jobs)
    {
      hide Valid;
      freed := [];
      CountsJobs();
      while jobCount != 0
        invariant Valid() && hasJobs == old(hasJobs)
        invariant jobCount == |jobs| && freed + jobs == old(jobs)
        decreases |jobs|
      {
        var currentJob, lost := Pull();
        if currentJob != null { freed := freed + [currentJob]; }
        CountsJobs();
      }
    }

    method Clear() returns (freed: seq<Job>)
      requires Valid()
      modifies this, hasJobs
      ensures Valid() && jobs == [] && freed == old(jobs)
      ensures fresh(hasJobs) && hasJobs.stateValue == 0
    {
      freed := PullAll();
      frontJob, rearJob := null, null;
      hasJobs := new BinarySem();
      jobCount := 0;
    }
  }
}
