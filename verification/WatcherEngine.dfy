/**
  The engine's code (backend/watcher/engine.py, classes WatcherCheckpoint and WatcherEngine), run
  against a list of events that decides, at every atomic step, whether the step happens, its call
  raises, or the process dies, and whether grades arrive before it. The code is proved to make exactly
  the steps of the machine in `Watcher`, so what is proved about the machine's histories holds of it.
 */
module WatcherEngine {
  import opened Wrappers
  import opened Payloads
  import opened Watcher

  class Database {
    var runs: seq<Run>
    var grades: seq<Grade>
    var memory: seq<MemoryEntry>

    constructor ()
      ensures View() == START.db
    {
      runs, grades, memory := [], [], [];
    }

    ghost function View(): Db
      reads this
    {
      Db(runs, grades, memory)
    }

    /** A query is graded, unless it was before. */
    method Arrive(id: GradeId)
      modifies this
      ensures runs == old(runs) && memory == old(memory)
      ensures grades == if exists g :: g in old(grades) && g.id == id then old(grades)
                        else [Grade(id, false)] + old(grades)
    {
      if forall g :: g in grades ==> g.id != id {
        grades := [Grade(id, false)] + grades;
      }
    }
  }

  /** A row as `_run` holds it in memory. */
  datatype Cached = Cached(id: nat, row: Run)

  class WatcherCheckpoint {
    const db: Database
    var current: Option<Cached>

    constructor (db: Database)
      ensures this.db == db && current == None
    {
      this.db := db;
      current := None;
    }

    /** The cached row is the committed row. */
    ghost predicate Synced()
      reads this, db
    {
      current.Some? && current.value.id < |db.runs| && db.runs[current.value.id] == current.value.row
    }

    /** `find_or_create` up to a possible insertion: the running row is resumed, failed, or - when its
        timestamp cannot be read, or failing it raises - left as it is. */
    method FindRunning(age: Age) returns (resumed: bool)
      modifies this, db
      ensures db.grades == old(db.grades) && db.memory == old(db.memory)
      ensures var latest := LatestRunning(old(db.runs));
        && resumed == (latest.Some? && age == Young)
        && (resumed ==> db.runs == old(db.runs) && Synced() && current.value.id == latest.value)
        && (!resumed ==> current == old(current))
        && (!resumed ==> db.runs == (if latest.Some? && age == Stale
                                     then old(db.runs)[latest.value := old(db.runs)[latest.value].(status := Failed)]
                                     else old(db.runs)))
    {
      var latest := LatestRunning(db.runs);
      resumed := false;
      if latest.Some? {
        var id := latest.value;
        match age
        case Stale => db.runs := db.runs[id := db.runs[id].(status := Failed)];
        case Young =>
          current := Some(Cached(id, db.runs[id]));
          resumed := true;
        case PassedOver =>
      }
    }

    method Create(gradeIds: seq<GradeId>)
      modifies this, db
      ensures db.runs == old(db.runs) + [NewRun(gradeIds)]
      ensures db.grades == old(db.grades) && db.memory == old(db.memory)
      ensures Synced() && current.value.id == |old(db.runs)|
    {
      db.runs := db.runs + [NewRun(gradeIds)];
      current := Some(Cached(|db.runs| - 1, db.runs[|db.runs| - 1]));
    }

    /** Commits a step: the row and the cached row both become `row`. */
    method Save(row: Run)
      requires Synced()
      modifies this, db
      ensures Synced() && current == Some(Cached(old(current).value.id, row))
      ensures db.runs == old(db.runs)[current.value.id := row]
      ensures db.grades == old(db.grades) && db.memory == old(db.memory)
    {
      var id := current.value.id;
      db.runs := db.runs[id := row];
      current := Some(Cached(id, row));
    }

    method SaveStep(step: nat, clustersJson: Option<Json>, diagnosesJson: Option<Json>, entriesJson: Option<Json>)
      requires Synced()
      modifies this, db
      ensures Synced() && current.value.id == old(current).value.id
      ensures var row := old(current).value.row;
        db.runs == old(db.runs)[current.value.id := row.(
          lastStep := step,
          clustersJson := if clustersJson.Some? then clustersJson else row.clustersJson,
          diagnosesJson := if diagnosesJson.Some? then diagnosesJson else row.diagnosesJson,
          entriesJson := if entriesJson.Some? then entriesJson else row.entriesJson)]
      ensures db.grades == old(db.grades) && db.memory == old(db.memory)
    {
      var row := current.value.row;
      row := row.(lastStep := step);
      if clustersJson.Some? { row := row.(clustersJson := clustersJson); }
      if diagnosesJson.Some? { row := row.(diagnosesJson := diagnosesJson); }
      if entriesJson.Some? { row := row.(entriesJson := entriesJson); }
      Save(row);
    }

    method SaveClusterIdx(idx: nat)
      requires Synced()
      modifies this, db
      ensures Synced() && current.value.id == old(current).value.id
      ensures db.runs == old(db.runs)[current.value.id := old(current).value.row.(lastClusterIdx := idx)]
      ensures db.grades == old(db.grades) && db.memory == old(db.memory)
    {
      Save(current.value.row.(lastClusterIdx := idx));
    }

    /** Closes the row; the cached row is left as it was. */
    method MarkDone()
      requires Synced()
      modifies db
      ensures db.runs == old(db.runs)[current.value.id := current.value.row.(status := Done, lastStep := 7)]
      ensures db.grades == old(db.grades) && db.memory == old(db.memory)
    {
      var id := current.value.id;
      db.runs := db.runs[id := db.runs[id].(status := Done, lastStep := 7)];
    }

    /** Closes the cached row as failed. Without one there is no row to name, which raises itself. */
    method MarkFailed() returns (raised: bool)
      requires current.Some? ==> Synced()
      modifies db
      ensures raised <==> current.None?
      ensures db.runs == if raised then old(db.runs)
                         else old(db.runs)[current.value.id := current.value.row.(status := Failed)]
      ensures db.grades == old(db.grades) && db.memory == old(db.memory)
    {
      raised := current.None?;
      if !raised {
        var id := current.value.id;
        db.runs := db.runs[id := db.runs[id].(status := Failed)];
      }
    }
  }

  // ---------------------------------------------------------------- one attempt

  /** The machine's state after `events[used..used']`, and the database with it. */
  ghost predicate Follows(db: Database, w: World, events: seq<Event>, used: nat, s: State, used': nat, s': State)
    reads db
  {
    && InRange(s) && InRange(s') && used <= used' <= |events|
    && s' == Exec(w, s, events[used..used']) && db.View() == s'.db
  }

  /** The attempt is over: nothing is left to happen, or the machine is idle again. */
  ghost predicate Over(events: seq<Event>, used: nat, s: State) {
    used == |events| || s.proc == Idle
  }

  /** The attempt works on the row it has cached. */
  ghost predicate Holds(ckpt: WatcherCheckpoint, s: State)
    reads ckpt, ckpt.db
  {
    InRange(s) && ckpt.db.View() == s.db && s.proc.HasRun() && ckpt.Synced() && ckpt.current.value.id == s.proc.run
  }

  lemma FollowsNext(w: World, events: seq<Event>, used: nat, s: State, used': nat, s': State)
    requires InRange(s) && used <= used' < |events| && s' == Exec(w, s, events[used..used'])
    ensures Exec(w, s, events[used..used' + 1]) == Next(w, s', events[used'])
  {
    hide Next;
    var e := [events[used']];
    assert events[used..used' + 1] == events[used..used'] + e;
    ExecAppend(w, s, events[used..used'], e);
    assert e[1..] == [];
  }

  lemma FollowsTrans(w: World, events: seq<Event>, a: nat, s: State, b: nat, c: nat)
    requires InRange(s) && a <= b <= c <= |events|
    ensures Exec(w, Exec(w, s, events[a..b]), events[b..c]) == Exec(w, s, events[a..c])
  {
    hide Next;
    assert events[a..c] == events[a..b] + events[b..c];
    ExecAppend(w, s, events[a..b], events[b..c]);
  }

  lemma FollowsNone(w: World, events: seq<Event>, used: nat, s: State)
    requires InRange(s) && used <= |events|
    ensures Exec(w, s, events[used..used]) == s
  {
  }

  /** Grades that arrive before the next thing to happen to the attempt. */
  method Absorb(db: Database, w: World, events: seq<Event>, used: nat, ghost s: State)
    returns (used': nat, ghost s': State)
    requires used <= |events| && InRange(s) && db.View() == s.db
    modifies db
    ensures Follows(db, w, events, used, s, used', s')
    ensures used' < |events| ==> !events[used'].Arrive?
    ensures s'.proc == s.proc && db.runs == old(db.runs) && db.memory == old(db.memory)
  {
    hide Exec;
    used', s' := used, s;
    FollowsNone(w, events, used, s);
    while used' < |events| && events[used'].Arrive?
      invariant Follows(db, w, events, used, s, used', s')
      invariant s'.proc == s.proc && db.runs == old(db.runs) && db.memory == old(db.memory)
    {
      FollowsNext(w, events, used, s, used', s');
      s' := Next(w, s', events[used']);
      db.Arrive(events[used'].id);
      used' := used' + 1;
    }
  }

  /** Before each atomic step: does it happen, does it raise, or is the process gone? */
  method Tick(ckpt: WatcherCheckpoint, w: World, events: seq<Event>, used: nat, ghost s: State)
    returns (go: bool, used': nat, ghost s': State)
    requires used <= |events| && Holds(ckpt, s)
    modifies ckpt.db
    ensures Follows(ckpt.db, w, events, used, s, used', s')
    ensures go ==> used' < |events| && events[used'].Go? && s'.proc == s.proc && Holds(ckpt, s')
    ensures !go ==> Over(events, used', s')
  {
    hide Exec;
    go := false;
    used', s' := Absorb(ckpt.db, w, events, used, s);
    if used' == |events| {
      return;
    }
    FollowsNext(w, events, used, s, used', s');
    match events[used']
    case Go(_) => go := true;
    case Raise =>
      var _ := ckpt.MarkFailed();
      s', used' := Next(w, s', Raise), used' + 1;
    case Crash =>
      s', used' := Next(w, s', Crash), used' + 1;
    case Arrive(_) =>
  }

  method StepTwo(ckpt: WatcherCheckpoint, w: World, rows: seq<GradeId>,
                 events: seq<Event>, used: nat, ghost s: State)
    returns (go: bool, clusters: seq<QueryCluster>, used': nat, ghost s': State)
    requires used <= |events| && Holds(ckpt, s) && s.proc.Clustering? && s.proc.rows == rows
    modifies ckpt, ckpt.db
    ensures Follows(ckpt.db, w, events, used, s, used', s')
    ensures go ==> Holds(ckpt, s') && s'.proc == Diagnosing(s.proc.run, s.proc.ids, clusters)
    ensures !go ==> Over(events, used', s')
  {
    hide Exec, SerializeClusters, DeserializeClusters;
    clusters := [];
    go, used', s' := Tick(ckpt, w, events, used, s);
    if !go { return; }
    FollowsNext(w, events, used, s, used', s');
    s', used' := Next(w, s', events[used']), used' + 1;
    if ckpt.current.value.row.lastStep < 2 {
      clusters := w.cluster(rows);
      ckpt.SaveStep(2, Some(SerializeClusters(clusters)), None, None);
    } else {
      var loaded := DeserializeClusters(ckpt.current.value.row.clustersJson);
      if loaded == None {
        var _ := ckpt.MarkFailed();
        go := false;
      } else {
        clusters := loaded.value;
      }
    }
  }

  method StepThree(ckpt: WatcherCheckpoint, w: World, clusters: seq<QueryCluster>,
                   events: seq<Event>, used: nat, ghost s: State)
    returns (go: bool, diagnoses: seq<Diagnosis>, used': nat, ghost s': State)
    requires used <= |events| && Holds(ckpt, s) && s.proc.Diagnosing? && s.proc.clusters == clusters
    modifies ckpt, ckpt.db
    ensures Follows(ckpt.db, w, events, used, s, used', s')
    ensures go ==> Holds(ckpt, s') && s'.proc == Extracting(s.proc.run, s.proc.ids, diagnoses)
    ensures !go ==> Over(events, used', s')
  {
    hide Exec, SerializeDiagnoses, DeserializeDiagnoses;
    diagnoses := [];
    go, used', s' := Tick(ckpt, w, events, used, s);
    if !go { return; }
    FollowsNext(w, events, used, s, used', s');
    s', used' := Next(w, s', events[used']), used' + 1;
    if ckpt.current.value.row.lastStep < 3 {
      diagnoses := DiagnoseAll(w, clusters);
      ckpt.SaveStep(3, None, Some(SerializeDiagnoses(diagnoses)), None);
    } else {
      var loaded := DeserializeDiagnoses(ckpt.current.value.row.diagnosesJson);
      if loaded == None {
        var _ := ckpt.MarkFailed();
        go := false;
      } else {
        diagnoses := loaded.value;
      }
    }
  }

  /** Steps 4 and 5: entity extraction, then the synthesis loop or the stored entries. */
  method StepsFourAndFive(ckpt: WatcherCheckpoint, w: World, diagnoses: seq<Diagnosis>,
                          events: seq<Event>, used: nat, ghost s: State)
    returns (go: bool, entries: seq<MemoryEntry>, used': nat, ghost s': State)
    requires used <= |events| && Holds(ckpt, s) && s.proc.Extracting? && s.proc.diagnoses == diagnoses
    modifies ckpt, ckpt.db
    ensures Follows(ckpt.db, w, events, used, s, used', s')
    ensures go ==> Holds(ckpt, s') && s'.proc == Updating(s.proc.run, s.proc.ids, entries)
    ensures !go ==> Over(events, used', s')
  {
    hide Exec, SerializeEntries, DeserializeEntries;
    entries := [];
    go, used', s' := Tick(ckpt, w, events, used, s);
    if !go { return; }
    FollowsNext(w, events, used, s, used', s');
    s', used' := Next(w, s', events[used']), used' + 1;
    if ckpt.current.value.row.lastStep < 4 {
      ckpt.SaveStep(4, None, None, None);
    }
    if ckpt.current.value.row.lastStep < 5 {
      ghost var middle, at := s', used';
      go, entries, used', s' := SynthesizeWithCheckpoint(ckpt, w, diagnoses, events, used', s');
      FollowsTrans(w, events, used, s, at, used');
    } else {
      var loaded := DeserializeEntries(ckpt.current.value.row.entriesJson);
      if loaded == None {
        var _ := ckpt.MarkFailed();
        go := false;
      } else {
        entries := loaded.value;
      }
    }
  }

  /** One cluster at a time from the last committed one, checkpointing after each; `completed` starts
      empty. The last step commits the whole list. */
  method SynthesizeWithCheckpoint(ckpt: WatcherCheckpoint, w: World, diagnoses: seq<Diagnosis>,
                                  events: seq<Event>, used: nat, ghost s: State)
    returns (go: bool, completed: seq<MemoryEntry>, used': nat, ghost s': State)
    requires used <= |events| && Holds(ckpt, s) && s.proc.Synthesizing?
    requires s.proc == Synthesizing(s.proc.run, s.proc.ids, diagnoses, [], ckpt.current.value.row.lastClusterIdx)
    modifies ckpt, ckpt.db
    ensures Follows(ckpt.db, w, events, used, s, used', s')
    ensures go ==> Holds(ckpt, s') && s'.proc == Updating(s.proc.run, s.proc.ids, completed)
    ensures !go ==> Over(events, used', s')
  {
    hide Exec, SerializeEntries;
    completed := [];
    var i := ckpt.current.value.row.lastClusterIdx;
    ghost var t := s;
    var at: nat := used;
    FollowsNone(w, events, used, s);
    while i < |diagnoses|
      invariant Follows(ckpt.db, w, events, used, s, at, t) && Holds(ckpt, t)
      invariant t.proc == Synthesizing(s.proc.run, s.proc.ids, diagnoses, completed, i)
    {
      go, used', s' := Tick(ckpt, w, events, at, t);
      if !go {
        FollowsTrans(w, events, used, s, at, used');
        return;
      }
      FollowsTrans(w, events, used, s, at, used');
      FollowsNext(w, events, used, s, used', s');
      t, at := Next(w, s', events[used']), used' + 1;
      completed := completed + w.synthesize(diagnoses[i]);
      ckpt.SaveClusterIdx(i + 1);
      i := i + 1;
    }
    go, used', s' := Tick(ckpt, w, events, at, t);
    if !go {
      FollowsTrans(w, events, used, s, at, used');
      return;
    }
    FollowsTrans(w, events, used, s, at, used');
    FollowsNext(w, events, used, s, used', s');
    s', used' := Next(w, s', events[used']), used' + 1;
    ckpt.SaveStep(5, None, None, Some(SerializeEntries(completed)));
  }

  method StepSix(ckpt: WatcherCheckpoint, w: World, entries: seq<MemoryEntry>,
                 events: seq<Event>, used: nat, ghost s: State)
    returns (go: bool, used': nat, ghost s': State)
    requires used <= |events| && Holds(ckpt, s) && s.proc.Updating? && s.proc.entries == entries
    modifies ckpt, ckpt.db
    ensures Follows(ckpt.db, w, events, used, s, used', s')
    ensures go ==> Holds(ckpt, s') && s'.proc == Marking(s.proc.run, s.proc.ids)
    ensures !go ==> Over(events, used', s')
  {
    hide Exec;
    go, used', s' := Tick(ckpt, w, events, used, s);
    if !go { return; }
    FollowsNext(w, events, used, s, used', s');
    ghost var t := Next(w, s', events[used']);
    var at := used' + 1;
    if ckpt.current.value.row.lastStep < 6 {
      if entries != [] {
        ckpt.db.memory := ckpt.db.memory + entries;
      }
      assert ckpt.db.memory == s'.db.memory + entries;
      go, used', s' := Tick(ckpt, w, events, at, t);
      if !go {
        FollowsTrans(w, events, used, s, at, used');
        return;
      }
      FollowsTrans(w, events, used, s, at, used');
      FollowsNext(w, events, used, s, used', s');
      s', used' := Next(w, s', events[used']), used' + 1;
      ckpt.SaveStep(6, None, None, None);
    } else {
      s', used' := t, at;
    }
  }

  method StepSeven(ckpt: WatcherCheckpoint, w: World, gradeIds: seq<GradeId>,
                   events: seq<Event>, used: nat, ghost s: State)
    returns (go: bool, used': nat, ghost s': State)
    requires used <= |events| && Holds(ckpt, s) && s.proc.Marking? && s.proc.ids == gradeIds
    modifies ckpt, ckpt.db
    ensures Follows(ckpt.db, w, events, used, s, used', s') && Over(events, used', s')
    ensures go ==> s'.proc == Idle && s.proc.run < |s'.db.runs| && s'.db.runs[s.proc.run].status == Done
  {
    hide Exec;
    go, used', s' := Tick(ckpt, w, events, used, s);
    if !go { return; }
    FollowsNext(w, events, used, s, used', s');
    ghost var t := Next(w, s', events[used']);
    var at := used' + 1;
    if gradeIds != [] {
      ckpt.db.grades := Mark(ckpt.db.grades, gradeIds);
    }
    assert ckpt.db.grades == Mark(s'.db.grades, gradeIds);
    go, used', s' := Tick(ckpt, w, events, at, t);
    if !go {
      FollowsTrans(w, events, used, s, at, used');
      return;
    }
    FollowsTrans(w, events, used, s, at, used');
    FollowsNext(w, events, used, s, used', s');
    s', used' := Next(w, s', events[used']), used' + 1;
    ckpt.MarkDone();
  }

  /** Step 1. Before a row is cached, a raised call leaves no trace, as a crash does. */
  method FetchGrades(ckpt: WatcherCheckpoint, w: World, events: seq<Event>, ghost s: State)
    returns (go: bool, gradeIds: seq<GradeId>, rows: seq<GradeId>, used: nat, ghost s': State)
    requires InRange(s) && s.proc == Idle && s.db == ckpt.db.View() && ckpt.current == None
    modifies ckpt.db
    ensures Follows(ckpt.db, w, events, 0, s, used, s')
    ensures go ==> s'.proc == Selecting(gradeIds, rows)
    ensures !go ==> Over(events, used, s')
  {
    hide Exec, FreshIds;
    go, gradeIds, rows := false, [], [];
    used, s' := Absorb(ckpt.db, w, events, 0, s);
    if used == |events| { return; }
    FollowsNext(w, events, 0, s, used, s');
    var e := events[used];
    s', used := Next(w, s', e), used + 1;
    if e.Raise? { var _ := ckpt.MarkFailed(); }
    if !e.Go? { return; }

    var latest := LatestRunning(ckpt.db.runs);
    if latest.Some? && ckpt.db.runs[latest.value].gradeIds != [] {
      gradeIds := ckpt.db.runs[latest.value].gradeIds;
      rows := w.selectOrder(gradeIds);
    } else {
      gradeIds := FreshIds(ckpt.db.grades);
      rows := gradeIds;
    }
    if rows == [] { return; }
    go := true;
  }

  method FindOrCreate(ckpt: WatcherCheckpoint, w: World, gradeIds: seq<GradeId>, rows: seq<GradeId>,
                      events: seq<Event>, used: nat, ghost s: State)
    returns (go: bool, used': nat, ghost s': State)
    requires used <= |events| && InRange(s) && s.db == ckpt.db.View() && ckpt.current == None
    requires s.proc == Selecting(gradeIds, rows)
    modifies ckpt, ckpt.db
    ensures Follows(ckpt.db, w, events, used, s, used', s')
    ensures go ==> Holds(ckpt, s') && s'.proc == Clustering(s'.proc.run, gradeIds, rows)
    ensures !go ==> Over(events, used', s')
  {
    hide Exec, LatestRunning;
    go := false;
    used', s' := Absorb(ckpt.db, w, events, used, s);
    if used' == |events| { return; }
    FollowsNext(w, events, used, s, used', s');
    var e := events[used'];
    s', used' := Next(w, s', e), used' + 1;
    if e.Raise? { var _ := ckpt.MarkFailed(); }
    if !e.Go? { return; }
    go := ckpt.FindRunning(e.age);
    if go { return; }

    ghost var at := used';
    used', s' := Absorb(ckpt.db, w, events, used', s');
    FollowsTrans(w, events, used, s, at, used');
    if used' == |events| { return; }
    FollowsNext(w, events, used, s, used', s');
    e := events[used'];
    s', used' := Next(w, s', e), used' + 1;
    if e.Raise? { var _ := ckpt.MarkFailed(); }
    if !e.Go? { return; }
    ckpt.Create(gradeIds);
    go := true;
  }

  /** One call of `run_for_project`: the code makes the steps of the machine, and ends idle unless the
      events run out first; when it reports completion it has closed a run. */
  method RunForProject(db: Database, w: World, events: seq<Event>, ghost s: State)
    returns (completed: bool, used: nat, ghost s': State)
    requires InRange(s) && s.proc == Idle && s.db == db.View()
    modifies db
    ensures used <= |events| && InRange(s') && db.View() == s'.db
    ensures s' == Exec(w, s, events[..used])
    ensures used == |events| || s'.proc == Idle
    ensures completed ==> s'.proc == Idle && exists r :: 0 <= r < |db.runs| && db.runs[r].status == Done
  {
    hide Exec;
    completed := false;
    var ckpt := new WatcherCheckpoint(db);
    var go, gradeIds, rows, at, t := FetchGrades(ckpt, w, events, s);
    used, s' := at, t;
    if !go { assert events[0..used] == events[..used]; return; }

    go, used, s' := FindOrCreate(ckpt, w, gradeIds, rows, events, at, t);
    FollowsTrans(w, events, 0, s, at, used);
    if !go { assert events[0..used] == events[..used]; return; }

    at, t := used, s';

    var clusters;
    go, clusters, used, s' := StepTwo(ckpt, w, rows, events, at, t);
    FollowsTrans(w, events, 0, s, at, used);
    if !go { assert events[0..used] == events[..used]; return; }

    at, t := used, s';
    var diagnoses;
    go, diagnoses, used, s' := StepThree(ckpt, w, clusters, events, at, t);
    FollowsTrans(w, events, 0, s, at, used);
    if !go { assert events[0..used] == events[..used]; return; }

    at, t := used, s';
    var entries;
    go, entries, used, s' := StepsFourAndFive(ckpt, w, diagnoses, events, at, t);
    FollowsTrans(w, events, 0, s, at, used);
    if !go { assert events[0..used] == events[..used]; return; }

    at, t := used, s';
    go, used, s' := StepSix(ckpt, w, entries, events, at, t);
    FollowsTrans(w, events, 0, s, at, used);
    if !go { assert events[0..used] == events[..used]; return; }

    at, t := used, s';
    go, used, s' := StepSeven(ckpt, w, gradeIds, events, at, t);
    FollowsTrans(w, events, 0, s, at, used);
    assert events[0..used] == events[..used];
    completed := go;
    assert go ==> db.runs[t.proc.run].status == Done;
  }
}
