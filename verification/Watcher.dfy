/**
  The watcher's checkpoint protocol (backend/watcher/engine.py), as a machine of atomic steps.

  One project is watched by one engine at a time. A run goes through seven steps; after each step a
  row of `watcher_runs` is committed, so that an attempt that dies can be resumed. The durable state
  (`Db`) survives a crash, the attempt's own variables (`Proc`) do not. Clustering, diagnosis and
  synthesis are functions of their inputs (`World`); one commit is one atomic step.
 */
module Watcher {
  import opened Wrappers
  import opened Payloads

  type GradeId = string

  datatype Status = Running | Done | Failed

  /** The columns of a `watcher_runs` row that steer recovery. */
  datatype Run = Run(status: Status, gradeIds: seq<GradeId>, lastStep: nat, lastClusterIdx: nat,
                     clustersJson: Option<Json>, diagnosesJson: Option<Json>, entriesJson: Option<Json>)

  datatype Grade = Grade(id: GradeId, processed: bool)

  /** The project's runs in order of `started_at`, new ones last, its grades newest first, and the memory file. */
  datatype Db = Db(runs: seq<Run>, grades: seq<Grade>, memory: seq<MemoryEntry>)

  /** What the engine calls out to. `selectOrder` is the order in which rows selected by a list of ids
      come back: the query does not ask for one. */
  datatype World = World(
    cluster: seq<GradeId> -> seq<QueryCluster>,
    diagnose: QueryCluster -> Diagnosis,
    synthesize: Diagnosis -> seq<MemoryEntry>,
    selectOrder: seq<GradeId> -> seq<GradeId>)

  const FETCH_LIMIT := 100

  // ---------------------------------------------------------------- the attempt and its history

  /** Where an attempt is, with the variables it holds there. */
  datatype Proc =
    | Idle
    | Selecting(ids: seq<GradeId>, rows: seq<GradeId>)
    | Creating(ids: seq<GradeId>, rows: seq<GradeId>)
    | Clustering(run: nat, ids: seq<GradeId>, rows: seq<GradeId>)
    | Diagnosing(run: nat, ids: seq<GradeId>, clusters: seq<QueryCluster>)
    | Extracting(run: nat, ids: seq<GradeId>, diagnoses: seq<Diagnosis>)
    | Synthesizing(run: nat, ids: seq<GradeId>, diagnoses: seq<Diagnosis>, completed: seq<MemoryEntry>, next: nat)
    | Updating(run: nat, ids: seq<GradeId>, entries: seq<MemoryEntry>)
    | Updated(run: nat, ids: seq<GradeId>)
    | Marking(run: nat, ids: seq<GradeId>)
    | Closing(run: nat, ids: seq<GradeId>)
  {
    predicate HasRun() { !Idle? && !Selecting? && !Creating? }
  }

  /** What happened to a run, for stating properties; the program does not store it. */
  datatype Trail = Trail(
    reread: bool,        // its step 2 works on rows selected by id
    commits: seq<nat>,   // cluster positions committed, in order
    loops: nat,          // attempts that entered the step-5 loop
    from: nat,           // position at which the last of them started
    redone: nat,         // attempts that died between the memory update and its checkpoint
    marked: bool)        // its grades were marked processed

  /** `log` lists the runs whose entries were appended to the memory. */
  datatype State = State(db: Db, proc: Proc, trails: seq<Trail>, log: seq<nat>)

  /** How the age check of `find_or_create` comes out for the latest running row. It is passed over, and left
      running, if its timestamp cannot be read or if marking a stale row as failed raises. */
  datatype Age = Young | Stale | PassedOver

  /** The engine takes its next atomic step, its current call raises, the attempt ends without recording
      that - the process dies, or marking the run as failed raises itself - or a grade arrives. */
  datatype Event = Go(age: Age) | Raise | Crash | Arrive(id: GradeId)

  const START := State(Db([], [], []), Idle, [], [])

  // ---------------------------------------------------------------- functions of the database

  function LatestRunning(runs: seq<Run>): (r: Option<nat>)
    ensures r.Some? ==> r.value < |runs| && runs[r.value].status == Running
    ensures r.Some? ==> forall k :: r.value < k < |runs| ==> runs[k].status != Running
    ensures r.None? ==> forall k :: 0 <= k < |runs| ==> runs[k].status != Running
  {
    if runs == [] then None
    else if runs[|runs| - 1].status == Running then Some(|runs| - 1)
    else LatestRunning(runs[..|runs| - 1])
  }

  function Unprocessed(grades: seq<Grade>): seq<GradeId> {
    if grades == [] then []
    else (if grades[0].processed then [] else [grades[0].id]) + Unprocessed(grades[1..])
  }

  /** The newest unprocessed grades, at most a hundred. */
  function FreshIds(grades: seq<Grade>): seq<GradeId> {
    var ids := Unprocessed(grades);
    if |ids| <= FETCH_LIMIT then ids else ids[..FETCH_LIMIT]
  }

  function Mark(grades: seq<Grade>, ids: seq<GradeId>): (r: seq<Grade>)
    ensures |r| == |grades|
    ensures forall k :: 0 <= k < |grades| ==>
      r[k] == Grade(grades[k].id, grades[k].processed || grades[k].id in ids)
  {
    seq(|grades|, k requires 0 <= k < |grades| => Grade(grades[k].id, grades[k].processed || grades[k].id in ids))
  }

  function NewRun(ids: seq<GradeId>): Run { Run(Running, ids, 0, 0, None, None, None) }

  function DiagnoseAll(w: World, clusters: seq<QueryCluster>): (r: seq<Diagnosis>)
    ensures |r| == |clusters|
  {
    seq(|clusters|, k requires 0 <= k < |clusters| => w.diagnose(clusters[k]))
  }

  function SynthesizeAll(w: World, diagnoses: seq<Diagnosis>): seq<MemoryEntry> {
    if diagnoses == [] then []
    else SynthesizeAll(w, diagnoses[..|diagnoses| - 1]) + w.synthesize(diagnoses[|diagnoses| - 1])
  }

  // ---------------------------------------------------------------- atomic steps

  function SetRun(s: State, r: nat, run: Run): State
    requires r < |s.db.runs|
  {
    s.(db := s.db.(runs := s.db.runs[r := run]))
  }

  function SetTrail(s: State, r: nat, trail: Trail): State
    requires r < |s.trails|
  {
    s.(trails := s.trails[r := trail])
  }

  /** Indices held by the attempt are in range. */
  predicate InRange(s: State) {
    |s.trails| == |s.db.runs| && (s.proc.HasRun() ==> s.proc.run < |s.db.runs|)
  }

  /** The attempt ends without another commit. */
  function Halt(s: State): (s': State)
    requires InRange(s)
    ensures InRange(s') && s'.proc == Idle
  {
    (if s.proc.Updated? then SetTrail(s, s.proc.run, s.trails[s.proc.run].(redone := s.trails[s.proc.run].redone + 1))
     else s).(proc := Idle)
  }

  /** `mark_failed`: without a run there is no row to mark. */
  function Fail(s: State): (s': State)
    requires InRange(s)
    ensures InRange(s') && s'.proc == Idle
  {
    if s.proc.HasRun() then Halt(SetRun(s, s.proc.run, s.db.runs[s.proc.run].(status := Failed))) else Halt(s)
  }

  /** Step 1: the grades of the latest running run if it has any, otherwise the fresh ones. */
  function Select(w: World, s: State): (s': State)
    requires InRange(s) && s.proc == Idle
    ensures InRange(s')
  {
    var latest := LatestRunning(s.db.runs);
    var resumed := latest.Some? && s.db.runs[latest.value].gradeIds != [];
    var ids := if resumed then s.db.runs[latest.value].gradeIds else FreshIds(s.db.grades);
    var rows := if resumed then w.selectOrder(ids) else ids;
    if rows == [] then s else s.(proc := Selecting(ids, rows))
  }

  /** `find_or_create`, up to the insertion of a new row. */
  function FindRun(s: State, age: Age): (s': State)
    requires s.proc.Selecting? && InRange(s)
    ensures InRange(s')
  {
    var ids, rows := s.proc.ids, s.proc.rows;
    match LatestRunning(s.db.runs)
    case None => s.(proc := Creating(ids, rows))
    case Some(r) =>
      match age
      case Young =>
        SetTrail(s, r, s.trails[r].(reread := s.trails[r].reread || s.db.runs[r].lastStep < 2))
          .(proc := Clustering(r, ids, rows))
      case Stale => SetRun(s, r, s.db.runs[r].(status := Failed)).(proc := Creating(ids, rows))
      case PassedOver => s.(proc := Creating(ids, rows))
  }

  function CreateRun(s: State): (s': State)
    requires s.proc.Creating? && InRange(s)
    ensures InRange(s')
  {
    var ids, rows := s.proc.ids, s.proc.rows;
    s.(db := s.db.(runs := s.db.runs + [NewRun(ids)]),
       trails := s.trails + [Trail(rows != ids, [], 0, 0, 0, false)],
       proc := Clustering(|s.db.runs|, ids, rows))
  }

  function StepCluster(w: World, s: State): (s': State)
    requires s.proc.Clustering? && InRange(s)
    ensures InRange(s')
  {
    var r, ids := s.proc.run, s.proc.ids;
    var run := s.db.runs[r];
    if run.lastStep < 2 then
      var clusters := w.cluster(s.proc.rows);
      SetRun(s, r, run.(lastStep := 2, clustersJson := Some(SerializeClusters(clusters))))
        .(proc := Diagnosing(r, ids, clusters))
    else match DeserializeClusters(run.clustersJson)
      case Some(clusters) => s.(proc := Diagnosing(r, ids, clusters))
      case None => Fail(s)
  }

  function StepDiagnose(w: World, s: State): (s': State)
    requires s.proc.Diagnosing? && InRange(s)
    ensures InRange(s')
  {
    var r, ids := s.proc.run, s.proc.ids;
    var run := s.db.runs[r];
    if run.lastStep < 3 then
      var diagnoses := DiagnoseAll(w, s.proc.clusters);
      SetRun(s, r, run.(lastStep := 3, diagnosesJson := Some(SerializeDiagnoses(diagnoses))))
        .(proc := Extracting(r, ids, diagnoses))
    else match DeserializeDiagnoses(run.diagnosesJson)
      case Some(diagnoses) => s.(proc := Extracting(r, ids, diagnoses))
      case None => Fail(s)
  }

  /** Step 4, and the entry into step 5. */
  function StepExtract(s: State): (s': State)
    requires s.proc.Extracting? && InRange(s)
    ensures InRange(s')
  {
    var r, ids := s.proc.run, s.proc.ids;
    var run := s.db.runs[r];
    if run.lastStep < 5 then
      var at := run.lastClusterIdx;
      SetTrail(SetRun(s, r, run.(lastStep := 4)), r, s.trails[r].(loops := s.trails[r].loops + 1, from := at))
        .(proc := Synthesizing(r, ids, s.proc.diagnoses, [], at))
    else match DeserializeEntries(run.entriesJson)
      case Some(entries) => s.(proc := Updating(r, ids, entries))
      case None => Fail(s)
  }

  /** One turn of the step-5 loop, or its end. */
  function StepSynthesize(w: World, s: State): (s': State)
    requires s.proc.Synthesizing? && InRange(s)
    ensures InRange(s')
  {
    var Synthesizing(r, ids, diagnoses, completed, next) := s.proc;
    var run, trail := s.db.runs[r], s.trails[r];
    if next < |diagnoses| then
      SetTrail(SetRun(s, r, run.(lastClusterIdx := next + 1)), r, trail.(commits := trail.commits + [next]))
        .(proc := Synthesizing(r, ids, diagnoses, completed + w.synthesize(diagnoses[next]), next + 1))
    else
      SetRun(s, r, run.(lastStep := 5, entriesJson := Some(SerializeEntries(completed))))
        .(proc := Updating(r, ids, completed))
  }

  /** Step 6 without its checkpoint. */
  function StepUpdate(s: State): (s': State)
    requires s.proc.Updating? && InRange(s)
    ensures InRange(s')
  {
    var Updating(r, ids, entries) := s.proc;
    if s.db.runs[r].lastStep < 6
    then s.(db := s.db.(memory := s.db.memory + entries), log := s.log + [r], proc := Updated(r, ids))
    else s.(proc := Marking(r, ids))
  }

  function StepSaveUpdate(s: State): (s': State)
    requires s.proc.Updated? && InRange(s)
    ensures InRange(s')
  {
    var r := s.proc.run;
    SetRun(s, r, s.db.runs[r].(lastStep := 6)).(proc := Marking(r, s.proc.ids))
  }

  function StepMark(s: State): (s': State)
    requires s.proc.Marking? && InRange(s)
    ensures InRange(s')
  {
    var r, ids := s.proc.run, s.proc.ids;
    SetTrail(s, r, s.trails[r].(marked := true))
      .(db := s.db.(grades := Mark(s.db.grades, ids)), proc := Closing(r, ids))
  }

  function StepClose(s: State): (s': State)
    requires s.proc.Closing? && InRange(s)
    ensures InRange(s')
  {
    SetRun(s, s.proc.run, s.db.runs[s.proc.run].(status := Done, lastStep := 7)).(proc := Idle)
  }

  function Advance(w: World, s: State, age: Age): (s': State)
    requires InRange(s)
    ensures InRange(s')
  {
    match s.proc
    case Idle => Select(w, s)
    case Selecting(_, _) => FindRun(s, age)
    case Creating(_, _) => CreateRun(s)
    case Clustering(_, _, _) => StepCluster(w, s)
    case Diagnosing(_, _, _) => StepDiagnose(w, s)
    case Extracting(_, _, _) => StepExtract(s)
    case Synthesizing(_, _, _, _, _) => StepSynthesize(w, s)
    case Updating(_, _, _) => StepUpdate(s)
    case Updated(_, _) => StepSaveUpdate(s)
    case Marking(_, _) => StepMark(s)
    case Closing(_, _) => StepClose(s)
  }

  function Next(w: World, s: State, e: Event): (s': State)
    requires InRange(s)
    ensures InRange(s')
  {
    match e
    case Go(age) => Advance(w, s, age)
    case Raise => Fail(s)
    case Crash => Halt(s)
    case Arrive(id) =>
      if exists g :: g in s.db.grades && g.id == id then s
      else s.(db := s.db.(grades := [Grade(id, false)] + s.db.grades))
  }

  /** The state that a sequence of events leads to. */
  function Exec(w: World, s: State, events: seq<Event>): (s': State)
    requires InRange(s)
    ensures InRange(s')
    decreases |events|
  {
    if events == [] then s else Exec(w, Next(w, s, events[0]), events[1..])
  }

  /** The state after a history of events, from an empty project. */
  function After(w: World, events: seq<Event>): (s: State)
    ensures InRange(s)
  {
    Exec(w, START, events)
  }

  lemma {:induction false} ExecAppend(w: World, s: State, a: seq<Event>, b: seq<Event>)
    requires InRange(s)
    ensures Exec(w, s, a + b) == Exec(w, Exec(w, s, a), b)
    decreases |a|
  {
    hide Next;
    if a == [] {
      assert a + b == b;
    } else {
      assert (a + b)[1..] == a[1..] + b;
      ExecAppend(w, Next(w, s, a[0]), a[1..], b);
    }
  }

  lemma AfterNext(w: World, before: seq<Event>, e: Event)
    ensures After(w, before + [e]) == Next(w, After(w, before), e)
  {
    hide Next;
    ExecAppend(w, START, before, [e]);
    assert [e][1..] == [];
  }
}
