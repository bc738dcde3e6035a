/**
  The ingestion queue's protocol (backend/core/ingest_queue.py) as a state machine: each step is the
  code between two awaits. A submitted job is queued, dequeued by the worker into a task, waits for a
  permit of the semaphore, runs its function and is removed from memory some time after that. Jobs are
  numbered in the order they are made.
 */
module IngestQueue {
  import opened Wrappers
  import opened Sequences

  datatype Status = Queued | Processing | Done | Error | Cancelled

  /** What is put on a job's progress queue. */
  datatype Progress =
    | Stage(stage: string, pct: int, chunks: Option<int>)
    | Completed(chunkCount: int)
    | Failed(lastPct: int, message: string)

  /** `armed`: the function to run is still held by the job. */
  datatype Job = Job(docId: string, status: Status, stage: string, pct: int, chunkCount: int,
                     errorMsg: Option<string>, progress: seq<Progress>, armed: bool)

  /** The manager, the event loop's tasks, and every job ever made. `registered` is the `_jobs`
      dictionary in its order; `unfinished` is the queue's count of items not yet marked done. */
  datatype State = State(maxsize: int, limit: nat, jobs: seq<Job>, registered: seq<nat>, queue: seq<nat>,
                         cancelled: set<nat>, permits: nat, unfinished: nat, alive: bool,
                         waiting: set<nat>, running: set<nat>, expiring: set<nat>)

  datatype Outcome = Succeeded | Raised(message: string) | Aborted

  datatype Event =
    | Submit(docId: string)
    | Cancel(docId: string)
    | Dequeue
    | Acquire(job: nat)
    | Report(job: nat, stage: string, pct: int, chunks: Option<int>)
    | Finish(job: nat, outcome: Outcome)
    | Expire(job: nat)

  function Init(maxsize: int, limit: nat): State {
    State(maxsize, limit, [], [], [], {}, limit, 0, true, {}, {}, {})
  }

  function NewJob(docId: string): Job {
    Job(docId, Queued, "queued", 0, 0, None, [], true)
  }

  /** A queue of size zero or less is unbounded. */
  predicate IsFull(s: State) {
    0 < s.maxsize <= |s.queue|
  }

  /** The most recent registered job of a document. */
  function MostRecent(s: State, docId: string, registered: seq<nat>): (found: Option<nat>) {
    if registered == [] then None
    else
      var last := registered[|registered| - 1];
      if last < |s.jobs| && s.jobs[last].docId == docId then Some(last)
      else MostRecent(s, docId, registered[..|registered| - 1])
  }

  predicate Enabled(s: State, e: Event) {
    match e
    case Submit(_) => true
    case Cancel(_) => true
    case Dequeue => s.alive && s.queue != []
    case Acquire(j) => j in s.waiting && s.permits > 0
    case Report(j, _, _, _) => j in s.running && j < |s.jobs|
    case Finish(j, _) => j in s.running && j < |s.jobs|
    case Expire(j) => j in s.expiring
  }

  /** Registers the job, then tries to queue it: a full queue raises, and the job stays registered. */
  function Submitted(s: State, docId: string): State {
    var made := s.(jobs := s.jobs + [NewJob(docId)], registered := s.registered + [|s.jobs|]);
    if IsFull(s) then made else made.(queue := s.queue + [|s.jobs|], unfinished := s.unfinished + 1)
  }

  predicate CanCancel(s: State, docId: string) {
    var found := MostRecent(s, docId, s.registered);
    found.Some? && found.value < |s.jobs| && s.jobs[found.value].status in {Queued, Processing}
  }

  function Withdrawn(s: State, docId: string): State {
    if CanCancel(s, docId) then
      var j := MostRecent(s, docId, s.registered).value;
      s.(cancelled := s.cancelled + {j}, jobs := s.jobs[j := s.jobs[j].(status := Cancelled)])
    else s
  }

  /** A count of zero makes `task_done` raise, which would end the worker's loop. */
  function Dequeued(s: State): State
    requires s.queue != []
  {
    var rest := s.(queue := s.queue[1..]);
    if s.queue[0] in s.cancelled then
      if s.unfinished == 0 then rest.(alive := false) else rest.(unfinished := s.unfinished - 1)
    else rest.(waiting := s.waiting + {s.queue[0]})
  }

  /** A cancelled job gives its permit back and returns, without marking its item done. */
  function Acquired(s: State, j: nat): State
    requires s.permits > 0
  {
    var left := s.(waiting := s.waiting - {j});
    if j in s.cancelled || j >= |s.jobs| then left
    else left.(permits := s.permits - 1, running := s.running + {j},
               jobs := s.jobs[j := s.jobs[j].(status := Processing)])
  }

  function Reported(job: Job, stage: string, pct: int, chunks: Option<int>): Job {
    job.(stage := stage, pct := pct,
         chunkCount := if chunks.Some? then chunks.value else job.chunkCount,
         progress := job.progress + [Stage(stage, pct, chunks)])
  }

  function Ended(job: Job, outcome: Outcome): Job {
    match outcome
    case Succeeded =>
      job.(status := Done, stage := "done", pct := 100, progress := job.progress + [Completed(job.chunkCount)],
           armed := false)
    case Raised(message) =>
      job.(status := Error, errorMsg := Some(message), stage := "error",
           progress := job.progress + [Failed(job.pct, message)], armed := false)
    case Aborted => job.(armed := false)
  }

  function Next(s: State, e: Event): State
    requires Enabled(s, e)
  {
    match e
    case Submit(docId) => Submitted(s, docId)
    case Cancel(docId) => Withdrawn(s, docId)
    case Dequeue => Dequeued(s)
    case Acquire(j) => Acquired(s, j)
    case Report(j, stage, pct, chunks) => s.(jobs := s.jobs[j := Reported(s.jobs[j], stage, pct, chunks)])
    case Finish(j, outcome) =>
      s.(jobs := s.jobs[j := Ended(s.jobs[j], outcome)],
         unfinished := if s.unfinished == 0 then 0 else s.unfinished - 1,
         running := s.running - {j}, permits := s.permits + 1, expiring := s.expiring + {j})
    case Expire(j) =>
      s.(registered := Without(s.registered, j), cancelled := s.cancelled - {j}, expiring := s.expiring - {j})
  }

  /** Every event of the run can happen when its turn comes. */
  predicate Possible(s: State, run: seq<Event>)
    decreases |run|
  {
    run == [] || (Enabled(s, run[0]) && Possible(Next(s, run[0]), run[1..]))
  }

  function After(s: State, run: seq<Event>): State
    requires Possible(s, run)
    decreases |run|
  {
    if run == [] then s else After(Next(s, run[0]), run[1..])
  }

  // ---------------------------------------------------------------- what every step keeps

  predicate Increasing(ids: seq<nat>) {
    forall i, k :: 0 <= i < k < |ids| ==> ids[i] < ids[k]
  }

  /** Between its dequeueing and the end of its function a job is in one place only. */
  ghost predicate Placed(s: State) {
    && Increasing(s.queue)
    && (forall j :: j in s.queue ==> j < |s.jobs| && j !in s.waiting && j !in s.running && j !in s.expiring)
    && (forall j :: j in s.waiting ==> j < |s.jobs| && j !in s.running && j !in s.expiring)
    && (forall j :: j in s.running ==> j < |s.jobs| && j !in s.expiring)
    && (forall j :: j in s.expiring ==> j < |s.jobs|)
    && (forall j :: j in s.cancelled ==> j < |s.jobs|)
  }

  predicate IsFinal(status: Status) { status == Done || status == Error }

  /** The last event put on the progress queue is the terminal one, exactly when the job has ended. */
  ghost predicate Closed(job: Job) {
    && (forall i :: 0 <= i < |job.progress| - 1 ==> job.progress[i].Stage?)
    && (IsFinal(job.status) <==> job.progress != [] && !job.progress[|job.progress| - 1].Stage?)
  }

  /** A job's status, given where it is. */
  ghost predicate StatusFits(s: State, j: nat)
    requires j < |s.jobs|
  {
    var job := s.jobs[j];
    && Closed(job)
    && (j in s.queue || j in s.waiting ==> job.armed && job.status == if j in s.cancelled then Cancelled else Queued)
    && (j in s.running ==> job.armed && job.status == if j in s.cancelled then Cancelled else Processing)
    && (IsFinal(job.status) ==> !job.armed)
    && (job.armed ==> j in s.registered && j !in s.expiring)
  }

  ghost predicate Inv(s: State) {
    && Placed(s)
    && (forall j :: 0 <= j < |s.jobs| ==> StatusFits(s, j))
    && Increasing(s.registered) && (forall j :: j in s.registered ==> j < |s.jobs|)
    && s.permits + |s.running| == s.limit
    && (0 < s.maxsize ==> |s.queue| <= s.maxsize)
    && s.alive && |s.queue| + |s.waiting| + |s.running| <= s.unfinished
  }

  lemma MostRecentIsRegistered(s: State, docId: string, registered: seq<nat>)
    ensures var found := MostRecent(s, docId, registered);
      found.Some? ==> found.value in registered && found.value < |s.jobs| && s.jobs[found.value].docId == docId
  {
    if registered != [] { MostRecentIsRegistered(s, docId, registered[..|registered| - 1]); }
  }

  lemma IncreasingSnoc(ids: seq<nat>, x: nat)
    requires Increasing(ids) && forall j :: j in ids ==> j < x
    ensures Increasing(ids + [x])
  {
    assert forall i :: 0 <= i < |ids| ==> ids[i] in ids;
  }

  lemma IncreasingTail(ids: seq<nat>)
    requires Increasing(ids) && ids != []
    ensures Increasing(ids[1..]) && forall j :: j in ids <==> j == ids[0] || j in ids[1..]
    ensures ids[0] !in ids[1..]
  {
    assert ids == [ids[0]] + ids[1..];
    assert forall i :: 0 <= i < |ids| - 1 ==> ids[1..][i] == ids[i + 1];
  }

  lemma {:induction false} WithoutIncreases(ids: seq<nat>, j: nat)
    requires Increasing(ids)
    ensures Increasing(Without(ids, j)) && forall k :: k in Without(ids, j) <==> k in ids && k != j
    decreases |ids|
  {
    WithoutMembers(ids, j);
    if ids != [] {
      var front, last := ids[..|ids| - 1], ids[|ids| - 1];
      assert ids == front + [last];
      assert forall i :: 0 <= i < |front| ==> front[i] == ids[i] < last;
      WithoutIncreases(front, j);
      if last != j { IncreasingSnoc(Without(front, j), last); }
    }
  }

  lemma SubmitKeeps(s: State, docId: string)
    requires Inv(s)
    ensures Inv(Submitted(s, docId))
  {
    hide Increasing, StatusFits, Closed;
    var t := Submitted(s, docId);
    IncreasingSnoc(s.registered, |s.jobs|);
    IncreasingSnoc(s.queue, |s.jobs|);
    forall k | 0 <= k < |t.jobs| ensures StatusFits(t, k) {
      SubmittedStatus(s, docId, k);
    }
  }

  lemma SubmittedStatus(s: State, docId: string, k: nat)
    requires Inv(s) && k < |Submitted(s, docId).jobs|
    ensures StatusFits(Submitted(s, docId), k)
  {
    hide Increasing;
    if k < |s.jobs| { assert StatusFits(s, k); }
  }

  lemma CancelKeeps(s: State, docId: string)
    requires Inv(s)
    ensures Inv(Withdrawn(s, docId))
  {
    hide Increasing, StatusFits, MostRecent;
    MostRecentIsRegistered(s, docId, s.registered);
    var t := Withdrawn(s, docId);
    forall k | 0 <= k < |t.jobs| ensures StatusFits(t, k) {
      WithdrawnStatus(s, docId, k);
    }
  }

  lemma WithdrawnStatus(s: State, docId: string, k: nat)
    requires Inv(s) && k < |s.jobs|
    ensures StatusFits(Withdrawn(s, docId), k)
  {
    hide Increasing, Placed, MostRecent;
    assert StatusFits(s, k);
  }

  lemma DequeueKeeps(s: State)
    requires Inv(s) && Enabled(s, Dequeue)
    ensures Inv(Dequeued(s))
  {
    hide Increasing, StatusFits, Placed;
    var t := Dequeued(s);
    DequeuedPlaced(s);
    OneMore(s.waiting, s.queue[0]);
    forall k | 0 <= k < |t.jobs| ensures StatusFits(t, k) {
      DequeuedStatus(s, k);
    }
  }

  lemma DequeuedPlaced(s: State)
    requires Placed(s) && Enabled(s, Dequeue)
    ensures Placed(Dequeued(s)) && s.queue[0] !in s.waiting
  {
    hide Increasing;
    IncreasingTail(s.queue);
    assert s.queue[0] in s.queue;
  }

  lemma DequeuedStatus(s: State, k: nat)
    requires Inv(s) && Enabled(s, Dequeue) && k < |s.jobs|
    ensures StatusFits(Dequeued(s), k)
  {
    hide Increasing, Closed, Placed;
    IncreasingQueue(s);
    IncreasingTail(s.queue);
    assert StatusFits(s, k);
  }

  lemma IncreasingQueue(s: State)
    requires Inv(s)
    ensures Increasing(s.queue)
  {
  }

  lemma OpenStays(job: Job, status: Status)
    requires Closed(job) && job.status == Queued && status == Processing
    ensures Closed(job.(status := status)) && !IsFinal(status)
  {
  }

  lemma AcquireKeeps(s: State, j: nat)
    requires Inv(s) && Enabled(s, Acquire(j))
    ensures Inv(Acquired(s, j))
  {
    hide Increasing, StatusFits;
    var t := Acquired(s, j);
    OneMore(s.waiting, j);
    OneMore(s.running, j);
    forall k | 0 <= k < |t.jobs| ensures StatusFits(t, k) {
      AcquiredStatus(s, j, k);
    }
  }

  lemma AcquiredStatus(s: State, j: nat, k: nat)
    requires Inv(s) && Enabled(s, Acquire(j)) && k < |s.jobs|
    ensures StatusFits(Acquired(s, j), k)
  {
    hide Increasing, Closed, IsFinal;
    assert StatusFits(s, k);
    if j !in s.cancelled && j == k { OpenStays(s.jobs[j], Processing); }
  }

  lemma ReportKeeps(s: State, j: nat, stage: string, pct: int, chunks: Option<int>)
    requires Inv(s) && Enabled(s, Report(j, stage, pct, chunks))
    ensures Inv(Next(s, Report(j, stage, pct, chunks)))
  {
    hide Increasing, StatusFits, Reported;
    var t := Next(s, Report(j, stage, pct, chunks));
    forall k | 0 <= k < |t.jobs| ensures StatusFits(t, k) {
      ReportedStatus(s, j, stage, pct, chunks, k);
    }
  }

  lemma ReportedStatus(s: State, j: nat, stage: string, pct: int, chunks: Option<int>, k: nat)
    requires Inv(s) && Enabled(s, Report(j, stage, pct, chunks)) && k < |s.jobs|
    ensures StatusFits(Next(s, Report(j, stage, pct, chunks)), k)
  {
    hide Increasing, Placed;
    assert StatusFits(s, k);
  }

  lemma FinishKeeps(s: State, j: nat, outcome: Outcome)
    requires Inv(s) && Enabled(s, Finish(j, outcome))
    ensures Inv(Next(s, Finish(j, outcome)))
  {
    hide Increasing, StatusFits, Ended;
    var t := Next(s, Finish(j, outcome));
    OneMore(s.running, j);
    forall k | 0 <= k < |t.jobs| ensures StatusFits(t, k) {
      FinishedStatus(s, j, outcome, k);
    }
  }

  lemma FinishedStatus(s: State, j: nat, outcome: Outcome, k: nat)
    requires Inv(s) && Enabled(s, Finish(j, outcome)) && k < |s.jobs|
    ensures StatusFits(Next(s, Finish(j, outcome)), k)
  {
    hide Increasing;
    assert StatusFits(s, k);
  }

  lemma ExpireKeeps(s: State, j: nat)
    requires Inv(s) && Enabled(s, Expire(j))
    ensures Inv(Next(s, Expire(j)))
  {
    hide Increasing, StatusFits, Without;
    WithoutIncreases(s.registered, j);
    var t := Next(s, Expire(j));
    forall k | 0 <= k < |t.jobs| ensures StatusFits(t, k) {
      ExpiredStatus(s, j, k);
    }
  }

  lemma ExpiredStatus(s: State, j: nat, k: nat)
    requires Inv(s) && Enabled(s, Expire(j)) && k < |s.jobs|
    ensures StatusFits(Next(s, Expire(j)), k)
  {
    hide Increasing, Closed, Without;
    WithoutMembers(s.registered, j);
    assert StatusFits(s, k);
  }

  lemma OneMore(ids: set<nat>, j: nat)
    ensures j !in ids ==> |ids + {j}| == |ids| + 1
    ensures j in ids ==> |ids - {j}| == |ids| - 1
  {
  }

  /** Where one job is, and what status it may have there. */
  lemma WhereItIs(s: State, j: nat)
    requires Inv(s) && j < |s.jobs|
    ensures j in s.queue ==> j !in s.waiting && j !in s.running && j !in s.expiring
    ensures j in s.waiting ==> j !in s.running && j !in s.expiring
    ensures j in s.running ==> j !in s.expiring
    ensures j in s.queue || j in s.waiting ==> s.jobs[j].status == if j in s.cancelled then Cancelled else Queued
    ensures j in s.running ==> s.jobs[j].status == if j in s.cancelled then Cancelled else Processing
    ensures j in s.expiring ==> !s.jobs[j].armed
    ensures s.queue != [] ==> s.queue[0] !in s.queue[1..]
  {
    hide Increasing, Closed;
    assert StatusFits(s, j);
    if s.queue != [] { IncreasingQueue(s); IncreasingTail(s.queue); }
  }

  lemma NextKeeps(s: State, e: Event)
    requires Inv(s) && Enabled(s, e)
    ensures Inv(Next(s, e))
  {
    hide Inv;
    match e
    case Submit(docId) => SubmitKeeps(s, docId);
    case Cancel(docId) => CancelKeeps(s, docId);
    case Dequeue => DequeueKeeps(s);
    case Acquire(j) => AcquireKeeps(s, j);
    case Report(j, stage, pct, chunks) => ReportKeeps(s, j, stage, pct, chunks);
    case Finish(j, outcome) => FinishKeeps(s, j, outcome);
    case Expire(j) => ExpireKeeps(s, j);
  }

  lemma {:induction false} RunKeeps(s: State, run: seq<Event>)
    requires Inv(s) && Possible(s, run)
    ensures Inv(After(s, run))
    decreases |run|
  {
    hide Inv, Next, Enabled;
    if run != [] {
      NextKeeps(s, run[0]);
      RunKeeps(Next(s, run[0]), run[1..]);
    }
  }

  lemma InitIsSafe(maxsize: int, limit: nat)
    ensures Inv(Init(maxsize, limit))
  {
  }

  // ---------------------------------------------------------------- accounting over a run

  datatype Kind = Accepted | Refused | Dropped | Leaked | Started | Ending | Other

  /** What a step does to a job: a submission is accepted or refused, a dequeued or waiting job that was
      cancelled is dropped or leaked, a waiting job starts, a running one ends. */
  function KindOf(s: State, e: Event): Kind {
    match e
    case Submit(_) => if IsFull(s) then Refused else Accepted
    case Dequeue => if s.queue != [] && s.queue[0] in s.cancelled then Dropped else Other
    case Acquire(j) => if j in s.cancelled then Leaked else Started
    case Finish(_, _) => Ending
    case _ => Other
  }

  function Count(s: State, run: seq<Event>, kind: Kind): nat
    requires Possible(s, run)
    decreases |run|
  {
    if run == [] then 0
    else (if KindOf(s, run[0]) == kind then 1 else 0) + Count(Next(s, run[0]), run[1..], kind)
  }

  /** Jobs accepted and not yet at an end. */
  function Pending(s: State): nat { |s.queue| + |s.waiting| + |s.running| }

  /** `task_done` is called with a positive count only, so it never raises. */
  lemma TaskDoneNeverRaises(s: State, e: Event)
    requires Inv(s) && Enabled(s, e) && KindOf(s, e) in {Dropped, Ending}
    ensures s.unfinished > 0 && Next(s, e).unfinished == s.unfinished - 1
  {
  }

  ghost predicate Accounts(s: State, t: State, kind: Kind) {
    && Pending(t) == Pending(s) + (if kind == Accepted then 1 else if kind in {Dropped, Leaked, Ending} then -1 else 0)
    && t.unfinished == s.unfinished + (if kind == Accepted then 1 else if kind in {Dropped, Ending} then -1 else 0)
    && |t.running| == |s.running| + (if kind == Started then 1 else if kind == Ending then -1 else 0)
  }

  lemma StepAccounts(s: State, e: Event)
    requires Inv(s) && Enabled(s, e)
    ensures Accounts(s, Next(s, e), KindOf(s, e))
  {
    hide Accounts;
    match e
    case Submit(docId) => SubmitAccounts(s, docId);
    case Dequeue => DequeueAccounts(s);
    case Acquire(j) => AcquireAccounts(s, j);
    case Finish(j, outcome) => FinishAccounts(s, j, outcome);
    case _ => OthersAccount(s, e);
  }

  lemma SubmitAccounts(s: State, docId: string)
    ensures Accounts(s, Submitted(s, docId), KindOf(s, Submit(docId)))
  {
  }

  lemma OthersAccount(s: State, e: Event)
    requires Enabled(s, e) && (e.Cancel? || e.Report? || e.Expire?)
    ensures Accounts(s, Next(s, e), KindOf(s, e))
  {
    hide MostRecent, Reported, Without;
  }

  lemma FinishAccounts(s: State, j: nat, outcome: Outcome)
    requires Inv(s) && Enabled(s, Finish(j, outcome))
    ensures Accounts(s, Next(s, Finish(j, outcome)), KindOf(s, Finish(j, outcome)))
  {
    hide Increasing, StatusFits, Ended, Placed;
    OneMore(s.running, j);
  }

  lemma DequeueAccounts(s: State)
    requires Inv(s) && Enabled(s, Dequeue)
    ensures Accounts(s, Dequeued(s), KindOf(s, Dequeue))
  {
    hide Increasing, StatusFits;
    assert s.queue[0] in s.queue;
    OneMore(s.waiting, s.queue[0]);
  }

  lemma AcquireAccounts(s: State, j: nat)
    requires Inv(s) && Enabled(s, Acquire(j))
    ensures Accounts(s, Acquired(s, j), KindOf(s, Acquire(j)))
  {
    hide Inv;
    WaitingIsElsewhere(s, j);
    OneMore(s.waiting, j);
    OneMore(s.running, j);
  }

  lemma WaitingIsElsewhere(s: State, j: nat)
    requires Inv(s) && j in s.waiting
    ensures j < |s.jobs| && j !in s.running
  {
    hide StatusFits, Increasing;
  }

  /** Every accepted job is pending, or was dropped, leaked or ended; the queue's own count differs from
      the pending jobs by the leaked ones, so it never counts an end twice; and what has started and not
      ended holds the permits that are not free. */
  lemma {:induction false} AcceptedJobsAreAccountedFor(s: State, run: seq<Event>)
    requires Inv(s) && Possible(s, run)
    ensures var t := After(s, run);
      && Pending(s) + Count(s, run, Accepted) ==
           Pending(t) + Count(s, run, Dropped) + Count(s, run, Leaked) + Count(s, run, Ending)
      && s.unfinished + Count(s, run, Accepted) == t.unfinished + Count(s, run, Dropped) + Count(s, run, Ending)
      && |s.running| + Count(s, run, Started) == |t.running| + Count(s, run, Ending)
      && t.permits + |t.running| == t.limit == s.limit
    decreases |run|
  {
    hide Next, Enabled, KindOf, Pending;
    if run != [] {
      StepAccounts(s, run[0]);
      StepLimit(s, run[0]);
      NextKeeps(s, run[0]);
      AcceptedJobsAreAccountedFor(Next(s, run[0]), run[1..]);
    }
  }

  lemma StepLimit(s: State, e: Event)
    requires Enabled(s, e)
    ensures Next(s, e).limit == s.limit
  {
  }

  /** From the start: the count the queue keeps is the pending jobs and the leaked ones. A job cancelled
      while it waits for a permit is never marked done. */
  lemma UnfinishedIsPendingAndLeaked(maxsize: int, limit: nat, run: seq<Event>)
    requires Possible(Init(maxsize, limit), run)
    ensures var s := Init(maxsize, limit); var t := After(s, run);
      && t.alive && t.permits + |t.running| == limit && (0 < maxsize ==> |t.queue| <= maxsize)
      && t.unfinished == Pending(t) + Count(s, run, Leaked)
  {
    var s := Init(maxsize, limit);
    InitIsSafe(maxsize, limit);
    RunKeeps(s, run);
    AcceptedJobsAreAccountedFor(s, run);
    SizeStays(s, run);
  }

  lemma {:induction false} SizeStays(s: State, run: seq<Event>)
    requires Possible(s, run)
    ensures After(s, run).maxsize == s.maxsize && |s.jobs| <= |After(s, run).jobs|
    decreases |run|
  {
    if run != [] { SizeStays(Next(s, run[0]), run[1..]); }
  }

  // ---------------------------------------------------------------- a job's life

  /** How often the job's function is started. */
  function Starts(s: State, run: seq<Event>, j: nat): nat
    requires Possible(s, run)
    decreases |run|
  {
    if run == [] then 0
    else (if run[0] == Acquire(j) && KindOf(s, run[0]) == Started then 1 else 0) + Starts(Next(s, run[0]), run[1..], j)
  }

  /** The job cannot start any more: it has been cancelled, or it is past the queue. */
  ghost predicate CannotStart(s: State, j: nat) {
    j < |s.jobs| && ((j in s.cancelled && j !in s.running) || (j !in s.queue && j !in s.waiting))
  }

  lemma CannotStartStays(s: State, e: Event, j: nat)
    requires Inv(s) && Enabled(s, e) && CannotStart(s, j)
    ensures CannotStart(Next(s, e), j) && !(e == Acquire(j) && KindOf(s, e) == Started)
  {
    hide Inv, Reported, Ended, Without, MostRecent;
    WhereItIs(s, j);
    TailMembers(s);
    if e.Cancel? { MostRecentIsRegistered(s, e.docId, s.registered); }
  }

  lemma TailMembers(s: State)
    ensures s.queue != [] ==> forall k :: k in s.queue[1..] ==> k in s.queue
  {
  }

  /** A job that was cancelled before it holds a permit, was refused, or has started once, never starts. */
  lemma {:induction false} NeverStarts(s: State, run: seq<Event>, j: nat)
    requires Inv(s) && Possible(s, run) && CannotStart(s, j)
    ensures Starts(s, run, j) == 0
    decreases |run|
  {
    hide Inv, Next, Enabled, KindOf, CannotStart;
    if run != [] {
      CannotStartStays(s, run[0], j);
      NextKeeps(s, run[0]);
      NeverStarts(Next(s, run[0]), run[1..], j);
    }
  }

  lemma StartedCannotStart(s: State, j: nat)
    requires Inv(s) && Enabled(s, Acquire(j)) && KindOf(s, Acquire(j)) == Started
    ensures CannotStart(Next(s, Acquire(j)), j)
  {
  }

  lemma {:induction false} StartsAtMostOnce(s: State, run: seq<Event>, j: nat)
    requires Inv(s) && Possible(s, run)
    ensures Starts(s, run, j) <= 1
    decreases |run|
  {
    hide Inv, Next, Enabled, KindOf, CannotStart;
    if run != [] {
      NextKeeps(s, run[0]);
      if run[0] == Acquire(j) && KindOf(s, run[0]) == Started {
        StartedCannotStart(s, j);
        NeverStarts(Next(s, run[0]), run[1..], j);
      } else {
        StartsAtMostOnce(Next(s, run[0]), run[1..], j);
      }
    }
  }

  /** A status that no further step changes: that of an ended job, and `Cancelled` once the job is not
      running. */
  ghost predicate Settled(s: State, j: nat) {
    && j < |s.jobs|
    && (IsFinal(s.jobs[j].status) || (s.jobs[j].status == Cancelled && j !in s.running && CannotStart(s, j)))
  }

  lemma SettledStays(s: State, e: Event, j: nat)
    requires Inv(s) && Enabled(s, e) && Settled(s, j)
    ensures Settled(Next(s, e), j) && Next(s, e).jobs[j].status == s.jobs[j].status
  {
    hide Inv, Reported, Without, MostRecent, CannotStart;
    WhereItIs(s, j);
    if s.jobs[j].status == Cancelled && j !in s.running && CannotStart(s, j) { CannotStartStays(s, e, j); }
    if e.Cancel? { MostRecentIsRegistered(s, e.docId, s.registered); }
  }

  lemma {:induction false} SettledForever(s: State, run: seq<Event>, j: nat)
    requires Inv(s) && Possible(s, run) && Settled(s, j)
    ensures j < |After(s, run).jobs| && After(s, run).jobs[j].status == s.jobs[j].status
    decreases |run|
  {
    hide Inv, Next, Enabled, Settled;
    SettledIsMade(s, j);
    if run != [] {
      SettledStays(s, run[0], j);
      NextKeeps(s, run[0]);
      SettledForever(Next(s, run[0]), run[1..], j);
    }
  }

  lemma SettledIsMade(s: State, j: nat)
    requires Settled(s, j)
    ensures j < |s.jobs|
  {
  }

  /** A cancelled job stays cancelled exactly when it is not running at the time: a running one is
      overwritten when its function returns. */
  lemma CancelledLastsExactly(s: State, j: nat)
    requires Inv(s) && j < |s.jobs| && s.jobs[j].status == Cancelled
    ensures j !in s.running <==>
      forall run :: Possible(s, run) ==> j < |After(s, run).jobs| && After(s, run).jobs[j].status == Cancelled
  {
    assert StatusFits(s, j);
    if j in s.running {
      var run := [Finish(j, Succeeded)];
      assert run[1..] == [];
      assert Possible(Next(s, run[0]), []);
      assert Possible(s, run) && After(s, run) == After(Next(s, run[0]), []) == Next(s, run[0]);
      assert After(s, run).jobs[j].status == Done;
    } else {
      forall run | Possible(s, run)
        ensures j < |After(s, run).jobs| && After(s, run).jobs[j].status == Cancelled
      {
        SettledForever(s, run, j);
      }
    }
  }

  /** Cancelling finds the job submitted last among those of the document still registered, and stops it
      when it has not been settled. */
  lemma {:induction false} MostRecentIsLast(s: State, docId: string, registered: seq<nat>)
    requires Increasing(registered)
    ensures var found := MostRecent(s, docId, registered);
      if found.Some? then forall j :: j in registered && j < |s.jobs| && s.jobs[j].docId == docId ==> j <= found.value
      else forall j :: j in registered && j < |s.jobs| ==> s.jobs[j].docId != docId
    decreases |registered|
  {
    if registered != [] {
      var front, last := registered[..|registered| - 1], registered[|registered| - 1];
      MostRecentIsLast(s, docId, front);
      assert registered == front + [last];
      assert forall j :: j in registered ==> j <= last;
    }
  }

  // ---------------------------------------------------------------- progress

  /** How many steps the pending jobs are from their ends. */
  function Distance(s: State): nat { 3 * |s.queue| + 2 * |s.waiting| + |s.running| }

  /** The next thing to happen to a pending job. */
  ghost function Forward(s: State): (e: Event)
    requires Inv(s) && s.limit > 0 && Pending(s) > 0
    ensures Enabled(s, e) && (e.Finish? || e.Acquire? || e.Dequeue?)
  {
    if s.running != {} then (var j :| j in s.running; Finish(j, Succeeded))
    else if s.waiting != {} then (var j :| j in s.waiting; Acquire(j))
    else Dequeue
  }

  lemma ForwardIsCloser(s: State, e: Event)
    requires Enabled(s, e) && (e.Finish? || e.Acquire? || e.Dequeue?)
    ensures Distance(Next(s, e)) < Distance(s)
  {
    hide Ended;
    match e
    case Finish(j, _) => OneMore(s.running, j);
    case Acquire(j) => OneMore(s.waiting, j); AtMostOneMore(s.running, j);
    case Dequeue => AtMostOneMore(s.waiting, s.queue[0]);
  }

  lemma AtMostOneMore(ids: set<nat>, j: nat)
    ensures |ids + {j}| <= |ids| + 1
  {
    if j in ids { assert ids + {j} == ids; } else { OneMore(ids, j); }
  }

  /** The protocol cannot get stuck: with a permit to hand out, every pending job can reach its end. */
  lemma {:induction false} PendingJobsCanEnd(s: State) returns (run: seq<Event>)
    requires Inv(s) && s.limit > 0
    ensures Possible(s, run) && Pending(After(s, run)) == 0
    decreases Distance(s)
  {
    hide Inv, Next, Enabled, Forward, Distance;
    if Pending(s) == 0 {
      run := [];
    } else {
      var e := Forward(s);
      ForwardIsCloser(s, e);
      NextKeeps(s, e);
      StepLimit(s, e);
      var rest := PendingJobsCanEnd(Next(s, e));
      run := [e] + rest;
      assert run[1..] == rest;
    }
  }

  /** Cancelling a document ends the wait of its latest registered job, and touches no other. */
  lemma CancelsExactly(s: State, docId: string, j: nat)
    requires Inv(s) && j in s.registered && s.jobs[j].docId == docId
    requires forall k :: k in s.registered && s.jobs[k].docId == docId ==> k <= j
    ensures var t, open := Next(s, Cancel(docId)), s.jobs[j].status in {Queued, Processing};
      && |t.jobs| == |s.jobs| && t.jobs[j] == s.jobs[j].(status := if open then Cancelled else s.jobs[j].status)
      && (forall k :: 0 <= k < |s.jobs| && k != j ==> t.jobs[k] == s.jobs[k])
      && t.cancelled == s.cancelled + (if open then {j} else {})
  {
    hide Inv, MostRecent;
    RegisteredIncrease(s);
    MostRecentIsLast(s, docId, s.registered);
    MostRecentIsRegistered(s, docId, s.registered);
  }

  lemma RegisteredIncrease(s: State)
    requires Inv(s)
    ensures Increasing(s.registered) && forall j :: j in s.registered ==> j < |s.jobs|
  {
  }

  // ---------------------------------------------------------------- first in, first out

  /** A submission is queued exactly when there is room, at the end; otherwise only the dictionary has it. */
  lemma SubmitQueuesExactly(s: State, docId: string)
    requires Inv(s)
    ensures var t, j := Next(s, Submit(docId)), |s.jobs|;
      && (j in t.queue <==> s.maxsize <= 0 || |s.queue| < s.maxsize)
      && t.queue == s.queue + (if j in t.queue then [j] else []) && t.registered == s.registered + [j]
  {
    assert |s.jobs| !in s.queue;
  }

  lemma FirstOutStep(s: State, e: Event, j: nat, k: nat)
    requires Inv(s) && Enabled(s, e) && j < k && k in s.queue && j in Next(s, e).queue
    ensures k in Next(s, e).queue
  {
    hide Inv, Increasing, MostRecent, Reported, Ended, Without;
    IncreasingQueue(s);
    if e == Dequeue {
      IncreasingTail(s.queue);
      NothingBefore(s.queue, j);
    }
  }

  lemma NothingBefore(ids: seq<nat>, j: nat)
    requires Increasing(ids) && j in ids
    ensures ids[0] <= j
  {
  }

  lemma NotQueuedAgain(s: State, e: Event, j: nat)
    requires Enabled(s, e) && j < |s.jobs| && j !in s.queue
    ensures j !in Next(s, e).queue && j < |Next(s, e).jobs|
  {
    hide MostRecent, Reported, Ended, Without;
    TailMembers(s);
  }

  lemma {:induction false} NeverQueuedAgain(s: State, run: seq<Event>, j: nat)
    requires Inv(s) && Possible(s, run) && j < |s.jobs| && j !in s.queue
    ensures j !in After(s, run).queue
    decreases |run|
  {
    hide Inv, Next;
    if run != [] {
      NotQueuedAgain(s, run[0], j);
      NextKeeps(s, run[0]);
      NeverQueuedAgain(Next(s, run[0]), run[1..], j);
    }
  }

  /** Of two queued jobs the one submitted first leaves the queue first, in every run. */
  lemma {:induction false} FirstInFirstOut(s: State, run: seq<Event>, j: nat, k: nat)
    requires Inv(s) && Possible(s, run) && j < k && j in s.queue && k in s.queue
    ensures j in After(s, run).queue ==> k in After(s, run).queue
    decreases |run|
  {
    hide Next;
    if run != [] {
      var t := Next(s, run[0]);
      NextKeeps(s, run[0]);
      if j in t.queue {
        FirstOutStep(s, run[0], j, k);
        FirstInFirstOut(t, run[1..], j, k);
      } else {
        StaysMade(s, run[0], j);
        NeverQueuedAgain(t, run[1..], j);
      }
    }
  }

  lemma StaysMade(s: State, e: Event, j: nat)
    requires Inv(s) && Enabled(s, e) && j in s.queue
    ensures j < |Next(s, e).jobs|
  {
    hide StatusFits, MostRecent, Reported, Ended, Without;
  }

  // ---------------------------------------------------------------- what a job shows

  /** What can be asked of a job: where it is, how far, how many chunks, why it failed, and what was sent to
      its progress queue. */
  datatype View = View(stage: string, pct: int, chunks: int, error: Option<string>, sent: seq<Progress>)

  function ViewOf(job: Job): View { View(job.stage, job.pct, job.chunkCount, job.errorMsg, job.progress) }

  /** The view after some events, of which only the job's own reports and end matter. */
  function Seen(run: seq<Event>, j: nat, v: View): View
    decreases |run|
  {
    if run == [] then v
    else Seen(run[1..], j, SeenOne(run[0], j, v))
  }

  function SeenOne(e: Event, j: nat, v: View): View {
    match e
    case Report(i, stage, pct, chunks) =>
      if i != j then v
      else View(stage, pct, if chunks.Some? then chunks.value else v.chunks, v.error,
                v.sent + [Stage(stage, pct, chunks)])
    case Finish(i, Succeeded) =>
      if i != j then v else View("done", 100, v.chunks, v.error, v.sent + [Completed(v.chunks)])
    case Finish(i, Raised(message)) =>
      if i != j then v else View("error", v.pct, v.chunks, Some(message), v.sent + [Failed(v.pct, message)])
    case _ => v
  }

  lemma ShowsOne(s: State, e: Event, j: nat)
    requires Enabled(s, e) && j < |s.jobs|
    ensures j < |Next(s, e).jobs| && ViewOf(Next(s, e).jobs[j]) == SeenOne(e, j, ViewOf(s.jobs[j]))
  {
    hide MostRecent, Without;
  }

  /** In every run a job shows its latest report, the chunks reported last, and how it ended, and has sent its
      reports in order and then its end; nothing else in the run matters. */
  lemma {:induction false} JobShowsItsEvents(s: State, run: seq<Event>, j: nat)
    requires Possible(s, run) && j < |s.jobs|
    ensures j < |After(s, run).jobs| && ViewOf(After(s, run).jobs[j]) == Seen(run, j, ViewOf(s.jobs[j]))
    decreases |run|
  {
    hide Next, SeenOne, ViewOf;
    if run != [] {
      ShowsOne(s, run[0], j);
      JobShowsItsEvents(Next(s, run[0]), run[1..], j);
    }
  }

  /** A job whose function returned is done for good, one whose function raised has failed for good. */
  lemma EndsForGood(s: State, j: nat, outcome: Outcome, run: seq<Event>)
    requires Inv(s) && Enabled(s, Finish(j, outcome)) && Possible(Next(s, Finish(j, outcome)), run)
    ensures var t := After(Next(s, Finish(j, outcome)), run);
      && j < |t.jobs| && (outcome.Succeeded? ==> t.jobs[j].status == Done)
      && (outcome.Raised? ==> t.jobs[j].status == Error)
  {
    hide Inv, Possible, After;
    var t := Next(s, Finish(j, outcome));
    NextKeeps(s, Finish(j, outcome));
    if !outcome.Aborted? { SettledForever(t, run, j); } else { JobShowsItsEvents(t, run, j); }
  }

  /** Removal forgets this job and no other: its registration, its cancellation, and that it was to be removed. */
  lemma ExpireForgets(s: State, j: nat)
    requires Inv(s) && Enabled(s, Expire(j))
    ensures var t := Next(s, Expire(j));
      && (forall k :: k in t.registered <==> k in s.registered && k != j)
      && (forall k :: k in t.cancelled <==> k in s.cancelled && k != j)
      && (forall k :: k in t.expiring <==> k in s.expiring && k != j)
      && t.jobs == s.jobs && t.queue == s.queue && t.waiting == s.waiting && t.running == s.running
  {
    hide Inv;
    WithoutMembers(s.registered, j);
  }

  /** A new job shows that it is queued. */
  lemma NewJobShows(s: State, docId: string)
    ensures var t := Next(s, Submit(docId));
      |t.jobs| == |s.jobs| + 1 && ViewOf(t.jobs[|s.jobs|]) == View("queued", 0, 0, None, []) &&
      t.jobs[|s.jobs|].status == Queued && t.jobs[|s.jobs|].docId == docId
  {
  }

  // ---------------------------------------------------------------- who stays registered

  /** No task will run the job or remove it. */
  ghost predicate Stuck(s: State, j: nat) {
    CannotStart(s, j) && j !in s.running && j !in s.expiring
  }

  lemma StuckStep(s: State, e: Event, j: nat)
    requires Inv(s) && Enabled(s, e) && Stuck(s, j)
    ensures Stuck(Next(s, e), j) && (j in s.registered ==> j in Next(s, e).registered)
  {
    hide Inv, Reported, Ended, Without, MostRecent, CannotStart;
    CannotStartStays(s, e, j);
    if e.Expire? { WithoutMembers(s.registered, e.job); }
  }

  lemma {:induction false} StuckStays(s: State, run: seq<Event>, j: nat)
    requires Inv(s) && Possible(s, run) && Stuck(s, j)
    ensures Stuck(After(s, run), j) && (j in s.registered ==> j in After(s, run).registered)
    decreases |run|
  {
    hide Inv, Next, Enabled, Stuck;
    if run != [] {
      StuckStep(s, run[0], j);
      NextKeeps(s, run[0]);
      StuckStays(Next(s, run[0]), run[1..], j);
    }
  }

  /** The steps that bring pending jobs to their ends bring this one to where it waits for removal. */
  lemma {:induction false} OthersExpire(s: State, j: nat) returns (run: seq<Event>)
    requires Inv(s) && s.limit > 0 && j < |s.jobs| && !Stuck(s, j)
    ensures Possible(s, run) && j in After(s, run).expiring
    decreases Distance(s)
  {
    hide Inv, Next, Enabled, Forward, Distance, Stuck;
    if Pending(s) == 0 {
      run := [];
      NothingPending(s, j);
    } else {
      var e := Forward(s);
      ForwardIsCloser(s, e);
      NextKeeps(s, e);
      StepLimit(s, e);
      ForwardStaysFree(s, e, j);
      var rest := OthersExpire(Next(s, e), j);
      run := [e] + rest;
      assert run[1..] == rest;
    }
  }

  lemma NothingPending(s: State, j: nat)
    requires Pending(s) == 0 && j < |s.jobs| && !Stuck(s, j)
    ensures j in s.expiring
  {
    assert s.waiting == {} && s.running == {} && s.queue == [];
  }

  lemma ForwardStaysFree(s: State, e: Event, j: nat)
    requires Enabled(s, e) && (e.Finish? || e.Acquire? || e.Dequeue?) && j < |s.jobs| && !Stuck(s, j)
    ensures j < |Next(s, e).jobs| && !Stuck(Next(s, e), j)
  {
    hide Ended;
    if e.Dequeue? { assert s.queue == [s.queue[0]] + s.queue[1..]; }
  }

  /** A registered job stays registered in all futures exactly when it cannot start any more, is not
      running, and does not wait for removal: a refused one, and one cancelled before it started. */
  lemma StaysRegisteredExactly(s: State, j: nat)
    requires Inv(s) && s.limit > 0 && j in s.registered && j < |s.jobs|
    ensures (forall run :: Possible(s, run) ==> j in After(s, run).registered) <==>
            CannotStart(s, j) && j !in s.running && j !in s.expiring
  {
    hide Inv, CannotStart, Possible, After, Without, Next;
    if Stuck(s, j) {
      forall run | Possible(s, run) ensures j in After(s, run).registered { StuckStays(s, run, j); }
    } else {
      var run := OthersExpire(s, j);
      OneStep(After(s, run), Expire(j));
      PossibleAppend(s, run, [Expire(j)]);
      ExpiredIsGone(After(s, run), j);
    }
  }

  lemma OneStep(s: State, e: Event)
    requires Enabled(s, e)
    ensures Possible(s, [e]) && After(s, [e]) == Next(s, e)
    ensures Count(s, [e], Leaked) == if KindOf(s, e) == Leaked then 1 else 0
  {
    hide Next, Enabled, KindOf;
    var run := [e];
    assert run[1..] == [];
    assert Possible(Next(s, e), run[1..]) && After(Next(s, e), run[1..]) == Next(s, e);
    assert Count(Next(s, e), run[1..], Leaked) == 0;
  }

  lemma ExpiredIsGone(s: State, j: nat)
    requires j in s.expiring
    ensures j !in Next(s, Expire(j)).registered
  {
    WithoutMembers(s.registered, j);
  }

  lemma {:induction false} PossibleAppend(s: State, a: seq<Event>, b: seq<Event>)
    requires Possible(s, a) && Possible(After(s, a), b)
    ensures Possible(s, a + b) && After(s, a + b) == After(After(s, a), b)
    decreases |a|
  {
    hide Next, Enabled;
    if a == [] {
      assert a + b == b;
    } else {
      assert (a + b)[1..] == a[1..] + b;
      PossibleAppend(Next(s, a[0]), a[1..], b);
    }
  }

  /** A job cancelled while it is queued or waits for a permit is never removed from memory. */
  lemma CancelledEarlyStays(s: State, j: nat, run: seq<Event>)
    requires Inv(s) && (j in s.queue || j in s.waiting) && j in s.cancelled && Possible(s, run)
    ensures Starts(s, run, j) == 0 && j < |After(s, run).jobs|
    ensures j in After(s, run).registered && After(s, run).jobs[j].status == Cancelled
  {
    assert StatusFits(s, j);
    NeverStarts(s, run, j);
    StuckStays(s, run, j);
    SettledForever(s, run, j);
  }

  /** A submission to a full queue raises, exactly then; its job never runs but is registered for good. */
  lemma RefusedJobsStay(s: State, docId: string, run: seq<Event>)
    requires Inv(s) && IsFull(s) && Possible(Next(s, Submit(docId)), run)
    ensures var j, t := |s.jobs|, Next(s, Submit(docId));
      && Starts(t, run, j) == 0 && j < |After(t, run).jobs|
      && j in After(t, run).registered && After(t, run).jobs[j].status in {Queued, Cancelled}
  {
    NextKeeps(s, Submit(docId));
    var j, t := |s.jobs|, Next(s, Submit(docId));
    assert j !in s.queue && j !in s.waiting && j !in s.running;
    NeverStarts(t, run, j);
    StuckStays(t, run, j);
    IdleStays(t, run, j);
  }

  /** The job has never started and never will. */
  ghost predicate Idle(s: State, j: nat) {
    Stuck(s, j) && s.jobs[j].armed && s.jobs[j].status in {Queued, Cancelled}
  }

  lemma IdleStep(s: State, e: Event, j: nat)
    requires Inv(s) && Enabled(s, e) && Idle(s, j)
    ensures Idle(Next(s, e), j)
  {
    hide Inv, Reported, Ended, Without, MostRecent, Stuck;
    StuckStep(s, e, j);
    StuckIsMade(s, e, j);
    if e.Cancel? { MostRecentIsRegistered(s, e.docId, s.registered); }
  }

  lemma StuckIsMade(s: State, e: Event, j: nat)
    requires Stuck(s, j) && Enabled(s, e)
    ensures j < |s.jobs| && !(e.Acquire? && e.job == j && KindOf(s, e) == Started)
    ensures (e.Finish? || e.Report?) ==> e.job != j
  {
  }

  lemma {:induction false} IdleStays(s: State, run: seq<Event>, j: nat)
    requires Inv(s) && Possible(s, run) && Idle(s, j)
    ensures Idle(After(s, run), j)
    decreases |run|
  {
    hide Inv, Next, Enabled, Idle;
    if run != [] {
      IdleStep(s, run[0], j);
      NextKeeps(s, run[0]);
      IdleStays(Next(s, run[0]), run[1..], j);
    }
  }

  // ---------------------------------------------------------------- it happens

  lemma FirstStep(s: State, e: Event, rest: seq<Event>)
    requires Enabled(s, e) && Possible(Next(s, e), rest)
    ensures Possible(s, [e] + rest) && After(s, [e] + rest) == After(Next(s, e), rest)
    ensures Count(s, [e] + rest, Leaked) >= Count(Next(s, e), rest, Leaked)
  {
    hide Next, Enabled, KindOf;
    assert ([e] + rest)[1..] == rest;
  }

  lemma FourSteps(s: State, a: Event, b: Event, c: Event, d: Event)
    requires Enabled(s, a) && Enabled(Next(s, a), b) && Enabled(Next(Next(s, a), b), c)
    requires Enabled(Next(Next(Next(s, a), b), c), d)
    ensures Possible(s, [a, b, c, d]) && After(s, [a, b, c, d]) == Next(Next(Next(Next(s, a), b), c), d)
    ensures Count(s, [a, b, c, d], Leaked) >= if KindOf(Next(Next(Next(s, a), b), c), d) == Leaked then 1 else 0
  {
    hide Next, Enabled, KindOf, Possible, After, Count;
    OneStep(Next(Next(Next(s, a), b), c), d);
    FirstStep(Next(Next(s, a), b), c, [d]);
    assert [c] + [d] == [c, d];
    FirstStep(Next(s, a), b, [c, d]);
    assert [b] + [c, d] == [b, c, d];
    FirstStep(s, a, [b, c, d]);
    assert [a] + [b, c, d] == [a, b, c, d];
  }

  /** One job of document `d`, taken from the queue by the worker. */
  lemma OneTaken() returns (s: State)
    ensures var t := Init(0, 1);
      Enabled(t, Submit("d")) && Enabled(Next(t, Submit("d")), Dequeue) && s == Next(Next(t, Submit("d")), Dequeue)
    ensures s == State(0, 1, [NewJob("d")], [0], [], {}, 1, 1, true, {0}, {}, {})
  {
    s := Next(Next(Init(0, 1), Submit("d")), Dequeue);
  }

  /** A job cancelled while it waits for a permit: nothing is pending, and one item is never marked done. */
  lemma LeakHappens() returns (run: seq<Event>)
    ensures Possible(Init(0, 1), run) && Count(Init(0, 1), run, Leaked) > 0
    ensures Pending(After(Init(0, 1), run)) == 0 && After(Init(0, 1), run).unfinished == 1
  {
    var s := OneTaken();
    var cancelled := Next(s, Cancel("d"));
    assert cancelled.cancelled == {0} && cancelled.waiting == {0};
    FourSteps(Init(0, 1), Submit("d"), Dequeue, Cancel("d"), Acquire(0));
    run := [Submit("d"), Dequeue, Cancel("d"), Acquire(0)];
  }

  /** A job cancelled while it runs: it is running with status cancelled, and done when it returns. */
  lemma RunningJobIsOverwritten() returns (run: seq<Event>)
    ensures Possible(Init(0, 1), run)
    ensures var s := After(Init(0, 1), run);
      && 0 in s.running && |s.jobs| == 1 && s.jobs[0].status == Cancelled
      && Enabled(s, Finish(0, Succeeded)) && Next(s, Finish(0, Succeeded)).jobs[0].status == Done
  {
    var s := OneTaken();
    var started := Next(s, Acquire(0));
    assert started.running == {0} && started.jobs[0].status == Processing && started.registered == [0];
    FourSteps(Init(0, 1), Submit("d"), Dequeue, Acquire(0), Cancel("d"));
    run := [Submit("d"), Dequeue, Acquire(0), Cancel("d")];
  }
}
