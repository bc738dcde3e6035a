/**
  The ingestion queue manager's objects (backend/core/ingest_queue.py). Each method is the code a
  coroutine runs between two awaits, proved to take the protocol's step.
 */
module IngestManager {
  import opened Wrappers
  import Sequences
  import Protocol = IngestQueue

  class IngestJob {
    const jobId: nat
    const docId: string
    var status: Protocol.Status
    var stage: string
    var pct: int
    var errorMsg: Option<string>
    var chunkCount: int
    /** Everything ever put on the job's progress queue. */
    var progress: seq<Protocol.Progress>
    /** Whether the job still holds its function. */
    var armed: bool

    constructor (jobId: nat, docId: string)
      ensures this.jobId == jobId && Value() == Protocol.NewJob(docId)
    {
      this.jobId, this.docId := jobId, docId;
      status, stage, pct, errorMsg, chunkCount := Protocol.Queued, "queued", 0, None, 0;
      progress, armed := [], true;
    }

    function Value(): Protocol.Job
      reads this
    {
      Protocol.Job(docId, status, stage, pct, chunkCount, errorMsg, progress, armed)
    }
  }

  ghost function Values(made: seq<IngestJob>): (values: seq<Protocol.Job>)
    reads made
    ensures |values| == |made| && forall i :: 0 <= i < |made| ==> values[i] == made[i].Value()
  {
    seq(|made|, i requires 0 <= i < |made| reads made => made[i].Value())
  }

  function Ids(jobs: seq<IngestJob>): (ids: seq<nat>)
    ensures |ids| == |jobs| && forall i :: 0 <= i < |jobs| ==> ids[i] == jobs[i].jobId
  {
    seq(|jobs|, i requires 0 <= i < |jobs| => jobs[i].jobId)
  }

  lemma ValuesOne(made: seq<IngestJob>, job: IngestJob)
    ensures Values(made + [job]) == Values(made) + [job.Value()]
  {
  }

  lemma IdsOne(jobs: seq<IngestJob>, job: IngestJob)
    ensures Ids(jobs + [job]) == Ids(jobs) + [job.jobId]
  {
  }

  /** The jobs are numbered in the order they were made. */
  ghost predicate Numbered(made: seq<IngestJob>) {
    forall i :: 0 <= i < |made| ==> made[i].jobId == i
  }

  ghost predicate Known(jobs: seq<IngestJob>, made: seq<IngestJob>) {
    forall i :: 0 <= i < |jobs| ==> jobs[i].jobId < |made| && made[jobs[i].jobId] == jobs[i]
  }

  lemma KnownMore(jobs: seq<IngestJob>, made: seq<IngestJob>, job: IngestJob)
    requires Numbered(made) && Known(jobs, made) && job.jobId == |made|
    ensures Numbered(made + [job]) && Known(jobs, made + [job]) && Known(jobs + [job], made + [job])
  {
  }

  lemma KnownPart(jobs: seq<IngestJob>, made: seq<IngestJob>, left: seq<IngestJob>)
    requires Known(jobs, made) && forall j :: j in left ==> j in jobs
    ensures Known(left, made)
  {
    assert forall i :: 0 <= i < |left| ==> left[i] in jobs;
  }

  class IngestQueueManager {
    /** The bounded queue, and its count of items not yet marked done. */
    const maxsize: int
    var queue: seq<IngestJob>
    var unfinished: nat
    const maxConcurrent: nat
    var permits: nat
    /** The `_jobs` dictionary, in insertion order. */
    var jobs: seq<IngestJob>
    var cancelled: set<nat>
    /** Stands for the generator of fresh identifiers. */
    var issued: nat
    /** The event loop's tasks: the worker, and by job those waiting for a permit, running, and sleeping
        before removal. */
    ghost var alive: bool
    ghost var waiting: set<nat>
    ghost var running: set<nat>
    ghost var expiring: set<nat>
    ghost var made: seq<IngestJob>

    ghost predicate Valid()
      reads this
    {
      issued == |made| && Numbered(made) && Known(queue, made) && Known(jobs, made)
    }

    ghost function View(): Protocol.State
      reads this, made
    {
      Protocol.State(maxsize, maxConcurrent, Values(made), Ids(jobs), Ids(queue), cancelled, permits, unfinished,
                     alive, waiting, running, expiring)
    }

    constructor (maxConcurrent: nat, queueSize: int)
      ensures Valid() && View() == Protocol.Init(queueSize, maxConcurrent)
      ensures made == []
    {
      maxsize, queue, unfinished := queueSize, [], 0;
      this.maxConcurrent, permits := maxConcurrent, maxConcurrent;
      jobs, cancelled, issued := [], {}, 0;
      alive, waiting, running, expiring, made := true, {}, {}, {}, [];
    }

    method Submit(docId: string) returns (result: Result<nat, string>)
      requires Valid()
      modifies this
      ensures Valid() && fresh(set j | j in made && j !in old(made))
      ensures View() == Protocol.Next(old(View()), Protocol.Submit(docId))
      ensures result == if Protocol.IsFull(old(View())) then Err("queue full") else Ok(old(issued))
    {
      hide Values, Ids, Numbered, Known;
      ghost var was := View();
      var job := new IngestJob(issued, docId);
      assert Values(made) == was.jobs;
      ValuesOne(made, job);
      IdsOne(jobs, job);
      IdsOne(queue, job);
      KnownMore(jobs, made, job);
      KnownMore(queue, made, job);
      issued := issued + 1;
      made := made + [job];
      jobs := jobs + [job];
      if 0 < maxsize <= |queue| {
        return Err("queue full");
      }
      queue := queue + [job];
      unfinished := unfinished + 1;
      return Ok(job.jobId);
    }

    /** The most recent job registered for a document. */
    method GetStatus(docId: string) returns (job: IngestJob?)
      requires Valid()
      ensures job != null ==> job in jobs && job in made
      ensures Protocol.MostRecent(View(), docId, View().registered) == if job == null then None else Some(job.jobId)
    {
      hide Values;
      var i := |jobs|;
      assert Ids(jobs)[..i] == Ids(jobs);
      while i > 0
        invariant i <= |jobs|
        invariant Protocol.MostRecent(View(), docId, Ids(jobs)) == Protocol.MostRecent(View(), docId, Ids(jobs)[..i])
      {
        i := i - 1;
        assert Ids(jobs)[..i + 1][..i] == Ids(jobs)[..i];
        assert Values(made)[jobs[i].jobId] == jobs[i].Value();
        if jobs[i].docId == docId { return jobs[i]; }
      }
      return null;
    }

    method Cancel(docId: string) returns (ok: bool)
      requires Valid()
      modifies this, made
      ensures Valid() && made == old(made)
      ensures View() == Protocol.Next(old(View()), Protocol.Cancel(docId))
      ensures ok == Protocol.CanCancel(old(View()), docId)
    {
      hide Values, Ids;
      var job := GetStatus(docId);
      if job != null {
        assert Values(made)[job.jobId] == job.Value();
        if job.status == Protocol.Queued || job.status == Protocol.Processing {
          cancelled := cancelled + {job.jobId};
          Assign(job, job.Value().(status := Protocol.Cancelled));
          return true;
        }
      }
      return false;
    }

    /** Sets the fields of one job. */
    method Assign(job: IngestJob, value: Protocol.Job)
      requires Valid() && job in made && value.docId == job.docId
      modifies job
      ensures job.jobId < |made|
      ensures Values(made) == old(Values(made))[job.jobId := value]
      ensures job.Value() == value
    {
      job.status, job.stage, job.pct, job.errorMsg := value.status, value.stage, value.pct, value.errorMsg;
      job.chunkCount, job.progress, job.armed := value.chunkCount, value.progress, value.armed;
      assert forall i :: 0 <= i < |made| && made[i] != job ==> made[i].Value() == old(made[i].Value());
    }

    /** One turn of the worker's loop after `get()` has returned. */
    method WorkerStep()
      requires Valid() && alive && queue != []
      modifies this
      ensures Valid() && made == old(made)
      ensures View() == Protocol.Next(old(View()), Protocol.Dequeue)
    {
      hide Values, Ids;
      var job := queue[0];
      queue := queue[1..];
      assert Ids(queue) == old(View()).queue[1..];
      if job.jobId in cancelled {
        if unfinished == 0 { alive := false; } else { unfinished := unfinished - 1; }
        return;
      }
      waiting := waiting + {job.jobId};
    }

    /** A job's task gets a permit, and either starts the job's function or returns. */
    method Acquire(job: IngestJob)
      requires Valid() && job in made && job.jobId in waiting && permits > 0
      modifies this, job
      ensures Valid() && made == old(made)
      ensures View() == Protocol.Next(old(View()), Protocol.Acquire(job.jobId))
    {
      hide Values, Ids;
      permits := permits - 1;
      waiting := waiting - {job.jobId};
      if job.jobId in cancelled {
        permits := permits + 1;
        return;
      }
      running := running + {job.jobId};
      Assign(job, job.Value().(status := Protocol.Processing));
    }

    /** The callback handed to the running function. */
    method ReportProgress(job: IngestJob, stage: string, pct: int, chunks: Option<int>)
      requires Valid() && job in made && job.jobId in running
      modifies this, job
      ensures Valid() && made == old(made)
      ensures View() == Protocol.Next(old(View()), Protocol.Report(job.jobId, stage, pct, chunks))
    {
      hide Values, Ids;
      var count := job.chunkCount;
      if chunks.Some? { count := chunks.value; }
      Assign(job, job.Value().(stage := stage, pct := pct, chunkCount := count,
                               progress := job.progress + [Protocol.Stage(stage, pct, chunks)]));
    }

    /** Records on the job how its function ended. */
    method End(job: IngestJob, outcome: Protocol.Outcome)
      requires Valid() && job in made
      modifies job
      ensures job.jobId < |made|
      ensures Values(made) == old(Values(made))[job.jobId := Protocol.Ended(old(Values(made))[job.jobId], outcome)]
    {
      hide Values;
      assert Values(made)[job.jobId] == job.Value();
      match outcome {
        case Succeeded =>
          Assign(job, job.Value().(status := Protocol.Done, stage := "done", pct := 100,
                                   progress := job.progress + [Protocol.Completed(job.chunkCount)], armed := false));
        case Raised(message) =>
          Assign(job, job.Value().(status := Protocol.Error, errorMsg := Some(message), stage := "error",
                                   progress := job.progress + [Protocol.Failed(job.pct, message)], armed := false));
        case Aborted =>
          Assign(job, job.Value().(armed := false));
      }
    }

    /** The function has returned or raised. */
    method Finish(job: IngestJob, outcome: Protocol.Outcome)
      requires Valid() && job in made && job.jobId in running
      modifies this, job
      ensures Valid() && made == old(made)
      ensures View() == Protocol.Next(old(View()), Protocol.Finish(job.jobId, outcome))
    {
      hide Values, Ids, Protocol.Ended;
      End(job, outcome);
      if unfinished > 0 { unfinished := unfinished - 1; }
      expiring := expiring + {job.jobId};
      permits := permits + 1;
      running := running - {job.jobId};
    }

    /** The time to live of an ended job is over. */
    method ExpireJob(jobId: nat)
      requires Valid() && jobId in expiring
      modifies this
      ensures Valid() && made == old(made)
      ensures View() == Protocol.Next(old(View()), Protocol.Expire(jobId))
    {
      hide Values, Known, Ids, Sequences.Without;
      var left := Dropped(jobs, jobId);
      KnownPart(jobs, made, left);
      jobs := left;
      cancelled := cancelled - {jobId};
      expiring := expiring - {jobId};
    }

    /** The dictionary without a key. */
    function Dropped(from: seq<IngestJob>, jobId: nat): (left: seq<IngestJob>)
      ensures Ids(left) == Sequences.Without(Ids(from), jobId)
      ensures forall j :: j in left ==> j in from
    {
      if from == [] then []
      else
        var n := |from| - 1;
        assert Ids(from)[..n] == Ids(from[..n]);
        Dropped(from[..n], jobId) + if from[n].jobId == jobId then [] else [from[n]]
    }
  }
}
