/** The index job table of the main process: a map of jobs and a map of
    worker handles, both keyed by job id. Starting an index reuses a job that
    is already running for the same root; the worker's events are delivered
    as method calls, one at a time. */
module CourseIndexService {
  import opened Types
  import opened CourseIndexer

  datatype JobStatus = Pending | Running | Completed | Failed

  datatype IndexJob = IndexJob(
    id: string,
    rootPath: string,
    status: JobStatus,
    totalFolders: Option<nat>,
    totalVideos: Option<nat>,
    error: Option<string>)

  /** A worker, identified by the request it was sent. */
  datatype WorkerHandle = WorkerHandle(request: IndexMessage)

  /** One call of the persistence layer's save on a finished index. */
  datatype SavedIndex = SavedIndex(rootPath: string, items: seq<FolderItem>)

  /** Some job for `rootPath` is running. */
  predicate RunningFor(jobs: map<string, IndexJob>, rootPath: string)
  {
    exists id :: id in jobs && jobs[id].rootPath == rootPath && jobs[id].status == Running
  }

  /** No two running jobs share a root. */
  predicate AtMostOneRunning(jobs: map<string, IndexJob>)
  {
    forall a, b ::
      (a in jobs && b in jobs && jobs[a].status == Running && jobs[b].status == Running &&
       jobs[a].rootPath == jobs[b].rootPath) ==> a == b
  }

  /** Every job is stored under its own id. */
  predicate KeyedById(jobs: map<string, IndexJob>)
  {
    forall id :: id in jobs ==> jobs[id].id == id
  }

  /** A status a worker event can assign. */
  predicate Terminal(s: JobStatus)
  {
    s == Completed || s == Failed
  }

  /** Moving one job to a terminal status keeps at most one running job per root. */
  lemma {:induction false} FinishingKeepsAtMostOne(jobs: map<string, IndexJob>, id: string, job: IndexJob)
    requires AtMostOneRunning(jobs) && id in jobs && Terminal(job.status)
    ensures AtMostOneRunning(jobs[id := job])
  {
    var j := jobs[id := job];
    forall a, b | a in j && b in j && j[a].status == Running && j[b].status == Running &&
                  j[a].rootPath == j[b].rootPath
      ensures a == b
    {
      assert j[a] == jobs[a] && j[b] == jobs[b];
    }
  }

  /** Adding a running job for a root with nothing running keeps at most one
      running job per root. */
  lemma {:induction false} AddingKeepsAtMostOne(jobs: map<string, IndexJob>, id: string, job: IndexJob)
    requires AtMostOneRunning(jobs) && id !in jobs && !RunningFor(jobs, job.rootPath)
    ensures AtMostOneRunning(jobs[id := job])
  {
    forall x | x in jobs && jobs[x].status == Running
      ensures jobs[x].rootPath != job.rootPath
    {
    }
  }

  /** Under the invariant the running job for a root is unique, so the first
      match of the source's search is the only one. */
  lemma {:induction false} RunningJobUnique(jobs: map<string, IndexJob>, rootPath: string, a: string, b: string)
    requires AtMostOneRunning(jobs)
    requires a in jobs && jobs[a].rootPath == rootPath && jobs[a].status == Running
    requires b in jobs && jobs[b].rootPath == rootPath && jobs[b].status == Running
    ensures a == b
  {
  }

  /** Jobs that completed or failed do not block a new job for their root. */
  lemma {:induction false} FinishedJobsDoNotBlock(jobs: map<string, IndexJob>, rootPath: string)
    requires forall id :: id in jobs && jobs[id].rootPath == rootPath ==> Terminal(jobs[id].status)
    ensures !RunningFor(jobs, rootPath)
  {
    forall id | id in jobs && jobs[id].rootPath == rootPath
      ensures jobs[id].status != Running
    {
      assert Terminal(jobs[id].status);
    }
  }

  class CourseIndexService {
    var jobs: map<string, IndexJob>
    var workers: map<string, WorkerHandle>
    var saved: seq<SavedIndex>

    ghost predicate Valid()
      reads this
    {
      KeyedById(jobs) && AtMostOneRunning(jobs) && workers.Keys <= jobs.Keys
    }

    constructor ()
      ensures Valid() && jobs == map[] && workers == map[] && saved == []
    {
      jobs := map[];
      workers := map[];
      saved := [];
    }

    /** Returns the running job for `rootPath` if there is one; otherwise
        registers a job under `freshId`, creates its worker, marks the job
        running and sends the worker its request. `freshId` stands for the
        timestamp-and-random id the source draws, which is taken to be unused. */
    method StartIndex(rootPath: string, freshId: string) returns (jobId: string)
      requires Valid()
      requires freshId !in jobs
      modifies this
      ensures Valid()
      ensures jobId in jobs && jobs[jobId].rootPath == rootPath && jobs[jobId].status == Running
      ensures saved == old(saved)
      ensures RunningFor(old(jobs), rootPath) ==>
        jobId in old(jobs) && jobs == old(jobs) && workers == old(workers)
      ensures !RunningFor(old(jobs), rootPath) ==>
        jobId == freshId &&
        jobs == old(jobs)[freshId := IndexJob(freshId, rootPath, Running, None, None, None)] &&
        workers == old(workers)[freshId := WorkerHandle(IndexMessage(FullIndex, rootPath))]
    {
      if id :| id in jobs && jobs[id].rootPath == rootPath && jobs[id].status == Running {
        return id;
      }
      jobId := freshId;
      var job := IndexJob(jobId, rootPath, Pending, None, None, None);
      jobs := jobs[jobId := job];
      var worker := WorkerHandle(IndexMessage(FullIndex, rootPath));
      workers := workers[jobId := worker];
      jobs := jobs[jobId := job.(status := Running)];
      AddingKeepsAtMostOne(old(jobs), jobId, job.(status := Running));
    }

    /** A reply from the worker of job `jobId`. */
    method OnWorkerMessage(jobId: string, msg: WorkerReply)
      requires Valid()
      modifies this
      ensures Valid()
      ensures workers == old(workers)
      ensures jobId !in old(jobs) ==> jobs == old(jobs) && saved == old(saved)
      ensures jobId in old(jobs) && msg.IndexDone? ==>
        jobs == old(jobs)[jobId := old(jobs)[jobId].(status := Completed,
                totalFolders := Some(msg.totalFolders), totalVideos := Some(msg.totalVideos))] &&
        saved == old(saved) + [SavedIndex(msg.rootPath, msg.items)]
      ensures jobId in old(jobs) && msg.IndexError? ==>
        jobs == old(jobs)[jobId := old(jobs)[jobId].(status := Failed, error := Some(msg.error))] &&
        saved == old(saved)
    {
      if jobId !in jobs {
        return;
      }
      var currentJob := jobs[jobId];
      match msg
      case IndexDone(root, items, totalFolders, totalVideos) =>
        var job' := currentJob.(status := Completed, totalFolders := Some(totalFolders),
                                totalVideos := Some(totalVideos));
        FinishingKeepsAtMostOne(jobs, jobId, job');
        jobs := jobs[jobId := job'];
        saved := saved + [SavedIndex(root, items)];
      case IndexError(_, error) =>
        var job' := currentJob.(status := Failed, error := Some(error));
        FinishingKeepsAtMostOne(jobs, jobId, job');
        jobs := jobs[jobId := job'];
    }

    /** An `error` event of the worker of job `jobId`. */
    method OnWorkerError(jobId: string, message: string)
      requires Valid()
      modifies this
      ensures Valid()
      ensures workers == old(workers) && saved == old(saved)
      ensures jobId !in old(jobs) ==> jobs == old(jobs)
      ensures jobId in old(jobs) ==>
        jobs == old(jobs)[jobId := old(jobs)[jobId].(status := Failed, error := Some(message))]
    {
      if jobId in jobs {
        var job' := jobs[jobId].(status := Failed, error := Some(message));
        FinishingKeepsAtMostOne(jobs, jobId, job');
        jobs := jobs[jobId := job'];
      }
    }

    /** The `exit` event of the worker of job `jobId`: the handle goes, the job stays. */
    method OnWorkerExit(jobId: string)
      requires Valid()
      modifies this
      ensures Valid()
      ensures workers == old(workers) - {jobId}
      ensures jobs == old(jobs) && saved == old(saved)
    {
      workers := workers - {jobId};
    }

    /** The stored job, or none for an unknown id. */
    function GetStatus(jobId: string): (r: Option<IndexJob>)
      reads this
      ensures r.Some? <==> jobId in jobs
      ensures r.Some? ==> r.value == jobs[jobId]
    {
      if jobId in jobs then Some(jobs[jobId]) else None
    }
  }
}
