/** What the job queue of thread.c does to the sequence of jobs it holds. The heap
    class in JobQueue.dfy and the protocol in PoolModel.dfy share these functions. */
module QueueSpec {

  // `NullFront`: the pull follows a null `front_job`.
  datatype Pull<+T> = NullFront | Taken(job: T, rest: seq<T>, repost: bool)

  function PushBack<T>(queue: seq<T>, job: T): seq<T> {
    queue + [job]
  }

  // `job_queue_pull` posts the semaphore again unless it took the only job.
  function PullFront<T>(queue: seq<T>): Pull<T> {
    if queue == [] then NullFront else Taken(queue[0], queue[1..], |queue| != 1)
  }
}
