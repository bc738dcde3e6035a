/**
  What every history of the watcher keeps: checkpoints that can be resumed from, payloads that are
  determined by the covered grades, grades marked only by runs that updated the memory.
 */
module WatcherSafety {
  import opened Wrappers
  import opened Payloads
  import opened Watcher

  // ---------------------------------------------------------------- what a run must come to

  function RowsUsed(w: World, run: Run, t: Trail): seq<GradeId> {
    if t.reread then w.selectOrder(run.gradeIds) else run.gradeIds
  }

  function ClustersOf(w: World, run: Run, t: Trail): seq<QueryCluster> { w.cluster(RowsUsed(w, run, t)) }

  function DiagnosesOf(w: World, run: Run, t: Trail): seq<Diagnosis> { DiagnoseAll(w, ClustersOf(w, run, t)) }

  /** Only the diagnoses from the last start of the loop on are synthesized into entries. */
  function EntriesOf(w: World, run: Run, t: Trail): seq<MemoryEntry> {
    var diagnoses := DiagnosesOf(w, run, t);
    if t.from <= |diagnoses| then SynthesizeAll(w, diagnoses[t.from..]) else []
  }

  ghost predicate PayloadsOk(w: World, run: Run, t: Trail) {
    && run.clustersJson == (if run.lastStep >= 2 then Some(SerializeClusters(ClustersOf(w, run, t))) else None)
    && run.diagnosesJson == (if run.lastStep >= 3 then Some(SerializeDiagnoses(DiagnosesOf(w, run, t))) else None)
    && run.entriesJson == (if run.lastStep >= 5 then Some(SerializeEntries(EntriesOf(w, run, t))) else None)
  }

  ghost predicate CountersOk(w: World, run: Run, t: Trail) {
    && run.gradeIds != []
    && (run.lastStep == 0 || 2 <= run.lastStep <= 7)
    && run.lastClusterIdx <= |DiagnosesOf(w, run, t)|
    && (run.lastStep < 4 ==> run.lastClusterIdx == 0 && t.loops == 0)
    && (run.lastStep >= 4 ==> t.loops >= 1)
    && (run.lastStep >= 5 ==> run.lastClusterIdx == |DiagnosesOf(w, run, t)|)
    && t.from <= run.lastClusterIdx && (t.loops <= 1 ==> t.from == 0)
    && t.commits == seq(run.lastClusterIdx, i => i)
  }

  ghost predicate FlagsOk(run: Run, t: Trail) {
    && (run.status == Done <==> run.lastStep == 7)
    && (run.lastStep == 7 ==> t.marked)
    && (t.marked ==> run.lastStep >= 6)
    && (t.redone > 0 ==> run.lastStep >= 5)
  }

  ghost predicate RunOk(w: World, run: Run, t: Trail) {
    PayloadsOk(w, run, t) && CountersOk(w, run, t) && FlagsOk(run, t)
  }

  ghost predicate RunsOk(w: World, s: State) {
    InRange(s) && forall r :: 0 <= r < |s.db.runs| ==> RunOk(w, s.db.runs[r], s.trails[r])
  }

  // ---------------------------------------------------------------- what an attempt holds

  predicate Known(grades: seq<Grade>, ids: seq<GradeId>) {
    forall id :: id in ids ==> exists k :: 0 <= k < |grades| && grades[k].id == id
  }

  ghost predicate ProcOk(w: World, s: State)
    requires InRange(s)
  {
    if s.proc.HasRun() then
      var run, t := s.db.runs[s.proc.run], s.trails[s.proc.run];
      && run.status == Running && run.gradeIds == s.proc.ids
      && match s.proc
         case Clustering(_, _, rows) => run.lastStep < 2 ==> rows == RowsUsed(w, run, t)
         case Diagnosing(_, _, clusters) => run.lastStep >= 2 && clusters == ClustersOf(w, run, t)
         case Extracting(_, _, diagnoses) => run.lastStep >= 3 && diagnoses == DiagnosesOf(w, run, t)
         case Synthesizing(_, _, diagnoses, completed, next) =>
           && run.lastStep == 4 && diagnoses == DiagnosesOf(w, run, t)
           && next == run.lastClusterIdx && t.from <= next <= |diagnoses|
           && completed == SynthesizeAll(w, diagnoses[t.from..next])
         case Updating(_, _, entries) => run.lastStep >= 5 && entries == EntriesOf(w, run, t)
         case Updated(_, _) => run.lastStep == 5
         case Marking(_, _) => run.lastStep >= 6
         case Closing(_, _) => run.lastStep >= 6 && t.marked
         case _ => true
    else if s.proc.Selecting? || s.proc.Creating? then
      && s.proc.ids != [] && Known(s.db.grades, s.proc.ids)
      && (s.proc.rows == s.proc.ids || s.proc.rows == w.selectOrder(s.proc.ids))
      && (s.proc.Selecting? && LatestRunning(s.db.runs).Some? ==>
            s.proc.ids == s.db.runs[LatestRunning(s.db.runs).value].gradeIds &&
            s.proc.rows == w.selectOrder(s.proc.ids))
    else true
  }

  // ---------------------------------------------------------------- grades, memory, uniqueness

  ghost predicate MarkedBy(s: State, r: int, id: GradeId)
    requires InRange(s)
  {
    0 <= r < |s.db.runs| && s.trails[r].marked && id in s.db.runs[r].gradeIds
  }

  /** A grade is processed exactly when some run that covers it has marked its grades. */
  ghost predicate GradesOk(s: State)
    requires InRange(s)
  {
    && (forall i, j :: 0 <= i < j < |s.db.grades| ==> s.db.grades[i].id != s.db.grades[j].id)
    && (forall r :: 0 <= r < |s.db.runs| ==> Known(s.db.grades, s.db.runs[r].gradeIds))
    && (forall k :: 0 <= k < |s.db.grades| ==>
          (s.db.grades[k].processed <==> exists r :: MarkedBy(s, r, s.db.grades[k].id)))
  }

  function Count(log: seq<nat>, r: nat): nat { multiset(log)[r] }

  /** The attempt has updated the memory for this run but not saved that it did. */
  predicate Unsaved(proc: Proc, r: int) { proc.Updated? && proc.run == r }

  ghost predicate LogOk(s: State)
    requires InRange(s)
  {
    && (forall k :: 0 <= k < |s.log| ==> s.log[k] < |s.db.runs| && s.db.runs[s.log[k]].lastStep >= 5)
    && (forall r :: 0 <= r < |s.db.runs| ==>
          Count(s.log, r) == s.trails[r].redone +
            if s.db.runs[r].lastStep >= 6 || Unsaved(s.proc, r) then 1 else 0)
  }

  /** The memory holds the entries of the logged runs, in that order. */
  function MemoryOf(w: World, runs: seq<Run>, trails: seq<Trail>, log: seq<nat>): seq<MemoryEntry>
    requires |runs| == |trails| && forall k :: 0 <= k < |log| ==> log[k] < |runs|
  {
    if log == [] then []
    else
      var r := log[|log| - 1];
      MemoryOf(w, runs, trails, log[..|log| - 1]) + EntriesOf(w, runs[r], trails[r])
  }

  ghost predicate MemoryOk(w: World, s: State)
    requires InRange(s) && LogOk(s)
  {
    s.db.memory == MemoryOf(w, s.db.runs, s.trails, s.log)
  }

  ghost predicate OneRunning(runs: seq<Run>) {
    forall i, j :: 0 <= i < j < |runs| ==> !(runs[i].status == Running && runs[j].status == Running)
  }

  ghost predicate Inv(w: World, s: State) {
    RunsOk(w, s) && ProcOk(w, s) && GradesOk(s) && LogOk(s) && MemoryOk(w, s)
  }

  // ---------------------------------------------------------------- one event keeps the invariant

  /** Changing one run and its trail, leaving its identity and - once saved - its entries alone. */
  ghost predicate Touches(w: World, s: State, s': State, r: nat) {
    && InRange(s) && InRange(s') && r < |s.db.runs|
    && |s'.db.runs| == |s.db.runs|
    && (forall k :: 0 <= k < |s.db.runs| && k != r ==>
          s'.db.runs[k] == s.db.runs[k] && s'.trails[k] == s.trails[k])
    && s'.db.runs[r].gradeIds == s.db.runs[r].gradeIds
    && s'.db.runs[r].lastStep >= s.db.runs[r].lastStep
    && (s.db.runs[r].lastStep >= 5 ==>
          EntriesOf(w, s'.db.runs[r], s'.trails[r]) == EntriesOf(w, s.db.runs[r], s.trails[r]))
  }

  lemma {:induction false} MemoryOfKept(w: World, s: State, s': State, r: nat, log: seq<nat>)
    requires Touches(w, s, s', r)
    requires forall k :: 0 <= k < |log| ==> log[k] < |s.db.runs| && s.db.runs[log[k]].lastStep >= 5
    ensures MemoryOf(w, s'.db.runs, s'.trails, log) == MemoryOf(w, s.db.runs, s.trails, log)
  {
    if log != [] {
      MemoryOfKept(w, s, s', r, log[..|log| - 1]);
    }
  }

  lemma GradesKept(w: World, s: State, s': State, r: nat)
    requires Touches(w, s, s', r) && GradesOk(s) && s'.db.grades == s.db.grades
    requires s'.trails[r].marked == s.trails[r].marked
    ensures GradesOk(s')
  {
    forall k: nat, id | k < |s.db.runs| ensures MarkedBy(s', k, id) == MarkedBy(s, k, id) {}
    forall k | 0 <= k < |s.db.grades|
      ensures s.db.grades[k].processed <==> exists q :: MarkedBy(s', q, s.db.grades[k].id)
    {
      var id := s.db.grades[k].id;
      if s.db.grades[k].processed {
        var q :| MarkedBy(s, q, id);
        assert MarkedBy(s', q, id);
      }
      if q :| MarkedBy(s', q, id) {
        assert MarkedBy(s, q, id);
      }
    }
  }

  lemma LogKept(w: World, s: State, s': State, r: nat)
    requires Touches(w, s, s', r) && LogOk(s) && s'.log == s.log
    requires Count(s.log, r) == s'.trails[r].redone +
      if s'.db.runs[r].lastStep >= 6 || Unsaved(s'.proc, r) then 1 else 0
    requires forall k :: Unsaved(s.proc, k) || Unsaved(s'.proc, k) ==> k == r
    ensures LogOk(s')
  {
    hide EntriesOf;
  }

  lemma RunsKept(w: World, s: State, s': State, r: nat)
    requires Touches(w, s, s', r) && RunsOk(w, s) && RunOk(w, s'.db.runs[r], s'.trails[r])
    ensures RunsOk(w, s')
  {
    hide RunOk, EntriesOf;
  }

  /** A step that changes one run only, and neither grades, log nor memory. */
  lemma RunStepKeeps(w: World, s: State, s': State, r: nat)
    requires Inv(w, s) && Touches(w, s, s', r)
    requires s'.db.grades == s.db.grades && s'.db.memory == s.db.memory && s'.log == s.log
    requires s'.trails[r].marked == s.trails[r].marked && !s'.proc.Creating?
    requires s.db.runs[r].status == Running || s'.db.runs[r].status != Running
    requires RunOk(w, s'.db.runs[r], s'.trails[r]) && ProcOk(w, s')
    requires Count(s.log, r) == s'.trails[r].redone +
      if s'.db.runs[r].lastStep >= 6 || Unsaved(s'.proc, r) then 1 else 0
    requires forall k :: Unsaved(s.proc, k) || Unsaved(s'.proc, k) ==> k == r
    ensures Inv(w, s')
  {
    hide RunOk, EntriesOf, GradesOk, LogOk, MemoryOf, ProcOk, Touches;
    RunsKept(w, s, s', r);
    LogKept(w, s, s', r);
    LogRange(s);
    MemoryOfKept(w, s, s', r, s.log);
    GradesKept(w, s, s', r);
  }

  lemma LogRange(s: State)
    requires InRange(s) && LogOk(s)
    ensures forall k :: 0 <= k < |s.log| ==> s.log[k] < |s.db.runs| && s.db.runs[s.log[k]].lastStep >= 5
  {
  }

  // ---------------------------------------------------------------- what each commit does to a row

  lemma RowClustered(w: World, run: Run, t: Trail)
    requires RunOk(w, run, t) && run.lastStep < 2 && run.status == Running
    ensures RunOk(w, run.(lastStep := 2, clustersJson := Some(SerializeClusters(ClustersOf(w, run, t)))), t)
  {
  }

  lemma RowDiagnosed(w: World, run: Run, t: Trail)
    requires RunOk(w, run, t) && run.lastStep == 2 && run.status == Running
    ensures RunOk(w, run.(lastStep := 3, diagnosesJson := Some(SerializeDiagnoses(DiagnosesOf(w, run, t)))), t)
  {
  }

  lemma RowEntersLoop(w: World, run: Run, t: Trail)
    requires RunOk(w, run, t) && 3 <= run.lastStep <= 4 && run.status == Running
    ensures RunOk(w, run.(lastStep := 4), t.(loops := t.loops + 1, from := run.lastClusterIdx))
  {
    hide PayloadsOk, DiagnosesOf;
    var t' := t.(loops := t.loops + 1, from := run.lastClusterIdx);
    SameDiagnoses(w, run, run.(lastStep := 4), t, t');
    assert PayloadsOk(w, run.(lastStep := 4), t') by { PayloadsEnterLoop(w, run, t); }
  }

  lemma PayloadsEnterLoop(w: World, run: Run, t: Trail)
    requires PayloadsOk(w, run, t) && 3 <= run.lastStep <= 4
    ensures PayloadsOk(w, run.(lastStep := 4), t.(loops := t.loops + 1, from := run.lastClusterIdx))
  {
  }

  lemma SameDiagnoses(w: World, run: Run, run': Run, t: Trail, t': Trail)
    requires run'.gradeIds == run.gradeIds && t'.reread == t.reread
    ensures ClustersOf(w, run', t') == ClustersOf(w, run, t)
    ensures DiagnosesOf(w, run', t') == DiagnosesOf(w, run, t)
    ensures t'.from == t.from ==> EntriesOf(w, run', t') == EntriesOf(w, run, t)
  {
  }

  lemma RowCommitsCluster(w: World, run: Run, t: Trail)
    requires RunOk(w, run, t) && run.lastStep == 4 && run.lastClusterIdx < |DiagnosesOf(w, run, t)|
    requires run.status == Running
    ensures RunOk(w, run.(lastClusterIdx := run.lastClusterIdx + 1), t.(commits := t.commits + [run.lastClusterIdx]))
  {
    hide PayloadsOk, DiagnosesOf;
    var run', t' := run.(lastClusterIdx := run.lastClusterIdx + 1), t.(commits := t.commits + [run.lastClusterIdx]);
    SameDiagnoses(w, run, run', t, t');
    assert PayloadsOk(w, run', t') by { PayloadsKeep(w, run, run', t, t'); }
    assert t'.commits == seq(run'.lastClusterIdx, i => i);
  }

  lemma PayloadsKeep(w: World, run: Run, run': Run, t: Trail, t': Trail)
    requires PayloadsOk(w, run, t)
    requires run'.gradeIds == run.gradeIds && t'.reread == t.reread && t'.from == t.from
    requires run'.clustersJson == run.clustersJson && run'.diagnosesJson == run.diagnosesJson
    requires run'.entriesJson == run.entriesJson
    requires run'.lastStep == run.lastStep || (5 <= run.lastStep && 5 <= run'.lastStep)
    ensures PayloadsOk(w, run', t')
  {
    SameDiagnoses(w, run, run', t, t');
  }

  lemma RowSynthesized(w: World, run: Run, t: Trail)
    requires RunOk(w, run, t) && run.lastStep == 4 && run.lastClusterIdx == |DiagnosesOf(w, run, t)|
    requires run.status == Running
    ensures RunOk(w, run.(lastStep := 5, entriesJson := Some(SerializeEntries(EntriesOf(w, run, t)))), t)
  {
  }

  /** Changes past step 5 that leave the payloads alone. */
  lemma RowLate(w: World, run: Run, run': Run, t: Trail, t': Trail)
    requires RunOk(w, run, t) && FlagsOk(run', t')
    requires run' == run.(status := run'.status, lastStep := run'.lastStep)
    requires t' == t.(redone := t'.redone, marked := t'.marked)
    requires run'.lastStep == run.lastStep || 5 <= run.lastStep <= run'.lastStep <= 7
    ensures RunOk(w, run', t')
  {
    hide PayloadsOk, DiagnosesOf;
    SameDiagnoses(w, run, run', t, t');
    PayloadsKeep(w, run, run', t, t');
  }

  /** A row resumed before step 2 works on rows read back by id; before step 2 nothing depends on them. */
  lemma RowReread(w: World, run: Run, t: Trail, reread: bool)
    requires RunOk(w, run, t) && (run.lastStep < 2 || reread == t.reread)
    ensures RunOk(w, run, t.(reread := reread))
  {
  }

  // ---------------------------------------------------------------- the steps of a run

  /** The step rewrites one row and its trail and moves the attempt on. */
  ghost predicate Rewrites(s: State, s': State, r: nat) {
    && InRange(s) && InRange(s') && r < |s.db.runs| && s.db.runs[r].status == Running
    && s' == s.(db := s.db.(runs := s'.db.runs), trails := s'.trails, proc := s'.proc)
    && |s'.db.runs| == |s.db.runs|
    && s'.db.runs == s.db.runs[r := s'.db.runs[r]] && s'.trails == s.trails[r := s'.trails[r]]
    && s'.db.runs[r].gradeIds == s.db.runs[r].gradeIds && s'.db.runs[r].lastStep >= s.db.runs[r].lastStep
    && s'.trails[r].marked == s.trails[r].marked && !s'.proc.Creating?
    && (s.db.runs[r].lastStep >= 5 ==>
          s'.trails[r].reread == s.trails[r].reread && s'.trails[r].from == s.trails[r].from)
    && (forall k :: Unsaved(s.proc, k) || Unsaved(s'.proc, k) ==> k == r)
  }

  function Updates(proc: Proc, r: int, run: Run, t: Trail): nat {
    t.redone + if run.lastStep >= 6 || Unsaved(proc, r) then 1 else 0
  }

  lemma RewriteKeeps(w: World, s: State, s': State, r: nat)
    requires Inv(w, s) && Rewrites(s, s', r)
    requires RunOk(w, s'.db.runs[r], s'.trails[r]) && ProcOk(w, s')
    requires Updates(s'.proc, r, s'.db.runs[r], s'.trails[r]) == Updates(s.proc, r, s.db.runs[r], s.trails[r])
    ensures Inv(w, s')
  {
    hide RunOk, ProcOk, GradesOk, MemoryOf, EntriesOf, DiagnosesOf;
    SameDiagnoses(w, s.db.runs[r], s'.db.runs[r], s.trails[r], s.trails[r]);
    if s.db.runs[r].lastStep >= 5 {
      SameDiagnoses(w, s.db.runs[r], s'.db.runs[r], s.trails[r], s'.trails[r]);
    }
    assert Touches(w, s, s', r);
    RunStepKeeps(w, s, s', r);
  }

  lemma StepClusterKeeps(w: World, s: State)
    requires Inv(w, s) && s.proc.Clustering?
    ensures Inv(w, StepCluster(w, s))
  {
    hide RunOk, GradesOk, MemoryOf, LogOk, DiagnosesOf, SerializeClusters, DeserializeClusters, LatestRunning;
    var r := s.proc.run;
    var run, t, s' := s.db.runs[r], s.trails[r], StepCluster(w, s);
    assert RunOk(w, run, t);
    if run.lastStep < 2 {
      RowClustered(w, run, t);
    } else {
      SavedPayloads(w, run, t);
    }
    RewriteKeeps(w, s, s', r);
  }

  /** Whatever step a row has reached, the columns that step needs decode to what was saved. */
  lemma SavedPayloads(w: World, run: Run, t: Trail)
    requires RunOk(w, run, t)
    ensures run.lastStep >= 2 ==> DeserializeClusters(run.clustersJson) == Some(ClustersOf(w, run, t))
    ensures run.lastStep >= 3 ==> DeserializeDiagnoses(run.diagnosesJson) == Some(DiagnosesOf(w, run, t))
    ensures run.lastStep >= 5 ==> DeserializeEntries(run.entriesJson) == Some(EntriesOf(w, run, t))
  {
    hide DiagnosesOf, EntriesOf, ClustersOf;
    ClustersReadBack(ClustersOf(w, run, t));
    DiagnosesReadBack(DiagnosesOf(w, run, t));
    EntriesReadBack(EntriesOf(w, run, t));
  }

  lemma StepDiagnoseKeeps(w: World, s: State)
    requires Inv(w, s) && s.proc.Diagnosing?
    ensures Inv(w, StepDiagnose(w, s))
  {
    hide RunOk, GradesOk, MemoryOf, LogOk, ClustersOf, SerializeDiagnoses, DeserializeDiagnoses, LatestRunning;
    var r := s.proc.run;
    var run, t, s' := s.db.runs[r], s.trails[r], StepDiagnose(w, s);
    assert RunOk(w, run, t);
    if run.lastStep < 3 {
      RowDiagnosed(w, run, t);
      SameDiagnoses(w, run, s'.db.runs[r], t, t);
    } else {
      SavedPayloads(w, run, t);
    }
    RewriteKeeps(w, s, s', r);
  }

  lemma NothingSynthesized(w: World, diagnoses: seq<Diagnosis>, at: nat)
    requires at <= |diagnoses|
    ensures SynthesizeAll(w, diagnoses[at..at]) == []
  {
    assert diagnoses[at..at] == [];
  }

  lemma StepExtractKeeps(w: World, s: State)
    requires Inv(w, s) && s.proc.Extracting?
    ensures Inv(w, StepExtract(s))
  {
    hide RunOk, GradesOk, MemoryOf, MemoryOk, LogOk, DiagnosesOf, EntriesOf, DeserializeEntries, LatestRunning,
      Known, SynthesizeAll;
    var r := s.proc.run;
    var run, t, s' := s.db.runs[r], s.trails[r], StepExtract(s);
    assert RunOk(w, run, t);
    RowCounters(w, run, t);
    if run.lastStep < 5 {
      RowEntersLoop(w, run, t);
      SameDiagnoses(w, run, s'.db.runs[r], t, s'.trails[r]);
      NothingSynthesized(w, s.proc.diagnoses, run.lastClusterIdx);
    } else {
      SavedPayloads(w, run, t);
    }
    RewriteKeeps(w, s, s', r);
  }

  lemma RowCounters(w: World, run: Run, t: Trail)
    requires RunOk(w, run, t)
    ensures t.from <= run.lastClusterIdx <= |DiagnosesOf(w, run, t)|
  {
  }

  lemma SynthesizeNext(w: World, diagnoses: seq<Diagnosis>, from: nat, next: nat)
    requires from <= next < |diagnoses|
    ensures SynthesizeAll(w, diagnoses[from..next + 1]) ==
            SynthesizeAll(w, diagnoses[from..next]) + w.synthesize(diagnoses[next])
  {
    var more := diagnoses[from..next + 1];
    assert more[..|more| - 1] == diagnoses[from..next];
  }

  lemma StepSynthesizeKeeps(w: World, s: State)
    requires Inv(w, s) && s.proc.Synthesizing?
    ensures Inv(w, StepSynthesize(w, s))
  {
    if s.proc.next < |s.proc.diagnoses| {
      LoopTurnKeeps(w, s);
    } else {
      LoopEndKeeps(w, s);
    }
  }

  lemma LoopTurnKeeps(w: World, s: State)
    requires Inv(w, s) && s.proc.Synthesizing? && s.proc.next < |s.proc.diagnoses|
    ensures Inv(w, StepSynthesize(w, s))
  {
    hide RunOk, GradesOk, MemoryOf, LogOk, DiagnosesOf, EntriesOf, LatestRunning;
    var r := s.proc.run;
    var run, t, s' := s.db.runs[r], s.trails[r], StepSynthesize(w, s);
    assert RunOk(w, run, t);
    RowCommitsCluster(w, run, t);
    SameDiagnoses(w, run, s'.db.runs[r], t, s'.trails[r]);
    SynthesizeNext(w, s.proc.diagnoses, t.from, s.proc.next);
    RewriteKeeps(w, s, s', r);
  }

  lemma LoopEndKeeps(w: World, s: State)
    requires Inv(w, s) && s.proc.Synthesizing? && s.proc.next >= |s.proc.diagnoses|
    ensures Inv(w, StepSynthesize(w, s))
  {
    hide RunOk, GradesOk, MemoryOf, LogOk, DiagnosesOf, SerializeEntries, LatestRunning;
    var r := s.proc.run;
    var run, t, s' := s.db.runs[r], s.trails[r], StepSynthesize(w, s);
    assert RunOk(w, run, t);
    assert s.proc.diagnoses[t.from..s.proc.next] == s.proc.diagnoses[t.from..];
    RowSynthesized(w, run, t);
    SameDiagnoses(w, run, s'.db.runs[r], t, s'.trails[r]);
    RewriteKeeps(w, s, s', r);
  }

  lemma StepSaveUpdateKeeps(w: World, s: State)
    requires Inv(w, s) && s.proc.Updated?
    ensures Inv(w, StepSaveUpdate(s))
  {
    hide RunOk, GradesOk, MemoryOf, LogOk, DiagnosesOf;
    var r := s.proc.run;
    var run, t, s' := s.db.runs[r], s.trails[r], StepSaveUpdate(s);
    assert RunOk(w, run, t);
    RowFlags(w, run, t);
    RowLate(w, run, s'.db.runs[r], t, t);
    RewriteKeeps(w, s, s', r);
  }

  lemma RowFlags(w: World, run: Run, t: Trail)
    requires RunOk(w, run, t)
    ensures FlagsOk(run, t) && run.lastStep <= 7 && run.gradeIds != []
  {
  }

  lemma StepCloseKeeps(w: World, s: State)
    requires Inv(w, s) && s.proc.Closing?
    ensures Inv(w, StepClose(s))
  {
    hide RunOk, GradesOk, MemoryOf, LogOk, DiagnosesOf;
    var r := s.proc.run;
    var run, t, s' := s.db.runs[r], s.trails[r], StepClose(s);
    assert RunOk(w, run, t);
    RowFlags(w, run, t);
    RowLate(w, run, s'.db.runs[r], t, t);
    RewriteKeeps(w, s, s', r);
  }

  lemma StepUpdateKeeps(w: World, s: State)
    requires Inv(w, s) && s.proc.Updating?
    ensures Inv(w, StepUpdate(s))
  {
    hide RunOk, GradesOk, DiagnosesOf, EntriesOf, LogOk, MemoryOf, MemoryOk;
    var r := s.proc.run;
    assert RunOk(w, s.db.runs[r], s.trails[r]);
    if s.db.runs[r].lastStep < 6 {
      MemoryUpdateKeeps(w, s);
    } else {
      RewriteKeeps(w, s, StepUpdate(s), r);
    }
  }

  lemma MemoryUpdateKeeps(w: World, s: State)
    requires Inv(w, s) && s.proc.Updating? && s.db.runs[s.proc.run].lastStep < 6
    ensures Inv(w, StepUpdate(s))
  {
    hide RunOk, GradesOk, DiagnosesOf, EntriesOf, LogOk, MemoryOf;
    var r, s' := s.proc.run, StepUpdate(s);
    LogAppended(s, s', r);
    LogRange(s);
    MemoryOfAppended(w, s.db.runs, s.trails, s.log, r);
    SameGrades(s, s');
  }

  lemma MemoryOfAppended(w: World, runs: seq<Run>, trails: seq<Trail>, log: seq<nat>, r: nat)
    requires |runs| == |trails| && r < |runs| && forall k :: 0 <= k < |log| ==> log[k] < |runs|
    ensures MemoryOf(w, runs, trails, log + [r]) == MemoryOf(w, runs, trails, log) + EntriesOf(w, runs[r], trails[r])
  {
    hide EntriesOf;
    assert (log + [r])[..|log|] == log;
  }

  lemma LogAppended(s: State, s': State, r: nat)
    requires InRange(s) && InRange(s') && LogOk(s) && s.proc.Updating? && s.proc.run == r && s.db.runs[r].lastStep == 5
    requires s'.db.runs == s.db.runs && s'.trails == s.trails && s'.log == s.log + [r]
    requires s'.proc.Updated? && s'.proc.run == r
    ensures LogOk(s')
  {
    forall q | 0 <= q < |s.db.runs| ensures Count(s'.log, q) == Count(s.log, q) + if q == r then 1 else 0 {
      assert multiset(s.log + [r]) == multiset(s.log) + multiset{r};
    }
  }

  lemma SameGrades(s: State, s': State)
    requires InRange(s) && InRange(s') && GradesOk(s)
    requires s'.db.runs == s.db.runs && s'.trails == s.trails && s'.db.grades == s.db.grades
    ensures GradesOk(s')
  {
    assert forall r, id :: MarkedBy(s', r, id) == MarkedBy(s, r, id);
  }

  lemma StepMarkKeeps(w: World, s: State)
    requires Inv(w, s) && s.proc.Marking?
    ensures Inv(w, StepMark(s))
  {
    hide PayloadsOk, CountersOk, DiagnosesOf, EntriesOf;
    var r, ids, s' := s.proc.run, s.proc.ids, StepMark(s);
    var run, t := s.db.runs[r], s.trails[r];
    RowFlags(w, run, t);
    RowLate(w, run, run, t, s'.trails[r]);
    SameDiagnoses(w, run, run, t, s'.trails[r]);
    assert Touches(w, s, s', r);
    RunsKept(w, s, s', r);
    LogKept(w, s, s', r);
    MemoryOfKept(w, s, s', r, s.log);
    GradesMarked(s, s', r, ids);
  }

  lemma GradesMarked(s: State, s': State, r: nat, ids: seq<GradeId>)
    requires InRange(s) && InRange(s') && GradesOk(s) && r < |s.db.runs| && s.db.runs[r].gradeIds == ids
    requires s'.db.runs == s.db.runs && s'.db.grades == Mark(s.db.grades, ids)
    requires s'.trails == s.trails[r := s.trails[r].(marked := true)]
    ensures GradesOk(s')
  {
    hide Known;
    forall q | 0 <= q < |s.db.runs| ensures Known(s'.db.grades, s.db.runs[q].gradeIds) {
      KnownByIds(s.db.grades, s'.db.grades, s.db.runs[q].gradeIds, 0);
    }
    forall k | 0 <= k < |s.db.grades|
      ensures s'.db.grades[k].processed <==> exists q :: MarkedBy(s', q, s'.db.grades[k].id)
    {
      var id := s.db.grades[k].id;
      assert forall q :: MarkedBy(s', q, id) <==> MarkedBy(s, q, id) || (q == r && id in ids);
      assert MarkedBy(s', r, id) <==> id in ids || MarkedBy(s, r, id);
    }
  }

  lemma KnownByIds(grades: seq<Grade>, grades': seq<Grade>, ids: seq<GradeId>, shift: nat)
    requires Known(grades, ids) && |grades'| == |grades| + shift
    requires forall k :: 0 <= k < |grades| ==> grades[k].id == grades'[k + shift].id
    ensures Known(grades', ids)
  {
    forall id | id in ids ensures exists j :: 0 <= j < |grades'| && grades'[j].id == id {
      var k :| 0 <= k < |grades| && grades[k].id == id;
      assert grades'[k + shift].id == id;
    }
  }

  lemma HaltKeeps(w: World, s: State)
    requires Inv(w, s)
    ensures Inv(w, Halt(s))
  {
    hide RunOk, GradesOk, MemoryOf, LogOk, DiagnosesOf;
    if s.proc.Updated? {
      var r, s' := s.proc.run, Halt(s);
      assert RunOk(w, s.db.runs[r], s.trails[r]);
      RowFlags(w, s.db.runs[r], s.trails[r]);
      RowLate(w, s.db.runs[r], s.db.runs[r], s.trails[r], s'.trails[r]);
      RewriteKeeps(w, s, s', r);
    } else {
      ProcOnlyKeeps(w, s, Idle);
    }
  }

  lemma ProcOnlyKeeps(w: World, s: State, proc: Proc)
    requires Inv(w, s) && !s.proc.Updated? && !proc.Updated?
    requires InRange(s.(proc := proc)) && ProcOk(w, s.(proc := proc))
    ensures Inv(w, s.(proc := proc))
  {
    hide RunOk, Known;
    SameGrades(s, s.(proc := proc));
  }

  lemma FailKeeps(w: World, s: State)
    requires Inv(w, s)
    ensures Inv(w, Fail(s))
  {
    hide RunOk, GradesOk, MemoryOf, LogOk, DiagnosesOf;
    if s.proc.HasRun() {
      var r, s' := s.proc.run, Fail(s);
      assert RunOk(w, s.db.runs[r], s.trails[r]);
      RowFlags(w, s.db.runs[r], s.trails[r]);
      RowLate(w, s.db.runs[r], s'.db.runs[r], s.trails[r], s'.trails[r]);
      RewriteKeeps(w, s, s', r);
    } else {
      HaltKeeps(w, s);
    }
  }

  // ---------------------------------------------------------------- starting a run

  lemma SelectKeeps(w: World, s: State)
    requires Inv(w, s) && s.proc == Idle
    ensures Inv(w, Select(w, s))
  {
    hide GradesOk, MemoryOf, LogOk, PayloadsOk, CountersOk, DiagnosesOf;
    var s' := Select(w, s);
    var latest := LatestRunning(s.db.runs);
    if s'.proc.Selecting? {
      if latest.Some? {
        RowFlags(w, s.db.runs[latest.value], s.trails[latest.value]);
        assert Known(s.db.grades, s'.proc.ids) by {
          assert GradesKnown(s, latest.value) by { GradesAreKnown(s, latest.value); }
        }
      } else {
        FreshIdsKnown(s.db.grades);
      }
      ProcOnlyKeeps(w, s, s'.proc);
    }
  }

  ghost predicate GradesKnown(s: State, r: nat) {
    r < |s.db.runs| && Known(s.db.grades, s.db.runs[r].gradeIds)
  }

  lemma GradesAreKnown(s: State, r: nat)
    requires InRange(s) && GradesOk(s) && r < |s.db.runs|
    ensures GradesKnown(s, r)
  {
  }

  lemma {:induction false} UnprocessedKnown(grades: seq<Grade>)
    ensures Known(grades, Unprocessed(grades))
  {
    if grades != [] {
      UnprocessedKnown(grades[1..]);
      forall id | id in Unprocessed(grades) ensures exists k :: 0 <= k < |grades| && grades[k].id == id {
        if id in Unprocessed(grades[1..]) {
          var k :| 0 <= k < |grades[1..]| && grades[1..][k].id == id;
          assert grades[k + 1].id == id;
        } else {
          assert grades[0].id == id;
        }
      }
    }
  }

  lemma FreshIdsKnown(grades: seq<Grade>)
    ensures Known(grades, FreshIds(grades))
  {
    UnprocessedKnown(grades);
    assert forall id :: id in FreshIds(grades) ==> id in Unprocessed(grades);
  }

  lemma FindRunKeeps(w: World, s: State, age: Age)
    requires Inv(w, s) && s.proc.Selecting?
    ensures Inv(w, FindRun(s, age))
  {
    hide RunOk, GradesOk, MemoryOf, LogOk, DiagnosesOf;
    var latest, s' := LatestRunning(s.db.runs), FindRun(s, age);
    if latest.Some? && age == Young {
      var r := latest.value;
      RowReread(w, s.db.runs[r], s.trails[r], s'.trails[r].reread);
      RowLowFlags(w, s.db.runs[r], s.trails[r]);
      RewriteKeeps(w, s, s', r);
    } else if latest.Some? && age == Stale {
      var r := latest.value;
      var s1 := s'.(proc := Idle);
      RowFlags(w, s.db.runs[r], s.trails[r]);
      RowLate(w, s.db.runs[r], s1.db.runs[r], s.trails[r], s.trails[r]);
      RewriteKeeps(w, s, s1, r);
      ProcOnlyKeeps(w, s1, s'.proc);
    } else {
      PassingOverKeeps(w, s);
    }
  }

  lemma RowLowFlags(w: World, run: Run, t: Trail)
    requires RunOk(w, run, t)
    ensures t.redone > 0 ==> run.lastStep >= 5
  {
  }

  lemma PassingOverKeeps(w: World, s: State)
    requires Inv(w, s) && s.proc.Selecting?
    ensures Inv(w, s.(proc := Creating(s.proc.ids, s.proc.rows)))
  {
    hide RunOk, Known;
    SameGrades(s, s.(proc := Creating(s.proc.ids, s.proc.rows)));
  }

  lemma CreateRunKeeps(w: World, s: State)
    requires Inv(w, s) && s.proc.Creating?
    ensures Inv(w, CreateRun(s))
  {
    hide GradesOk, MemoryOf, LogOk, RunOk;
    var s' := CreateRun(s);
    var r := |s.db.runs|;
    NewRowOk(w, s.proc.ids, s'.trails[r]);
    assert RunsOk(w, s');
    GradesWithNewRun(s, s');
    LogWithNewRun(s, s');
    LogRange(s);
    MemoryOfLonger(w, s.db.runs, s.trails, s'.db.runs, s'.trails, s.log);
  }

  lemma NewRowOk(w: World, ids: seq<GradeId>, t: Trail)
    requires ids != [] && t == Trail(t.reread, [], 0, 0, 0, false)
    ensures RunOk(w, NewRun(ids), t)
  {
  }

  lemma GradesWithNewRun(s: State, s': State)
    requires InRange(s) && InRange(s') && GradesOk(s) && s'.db.grades == s.db.grades
    requires |s'.db.runs| == |s.db.runs| + 1 && s'.db.runs[..|s.db.runs|] == s.db.runs
    requires s'.trails[..|s.trails|] == s.trails && !s'.trails[|s.trails|].marked
    requires Known(s.db.grades, s'.db.runs[|s.db.runs|].gradeIds)
    ensures GradesOk(s')
  {
    hide Known;
    var n := |s.db.runs|;
    assert forall k :: 0 <= k < n ==> s'.db.runs[k] == s'.db.runs[..n][k] && s'.trails[k] == s'.trails[..n][k];
    assert forall r, id :: MarkedBy(s', r, id) == MarkedBy(s, r, id);
  }

  lemma LogWithNewRun(s: State, s': State)
    requires InRange(s) && InRange(s') && LogOk(s) && s'.log == s.log && !s.proc.Updated? && !s'.proc.Updated?
    requires |s'.db.runs| == |s.db.runs| + 1 && s'.db.runs[..|s.db.runs|] == s.db.runs
    requires s'.trails[..|s.trails|] == s.trails
    requires s'.trails[|s.trails|].redone == 0 && s'.db.runs[|s.db.runs|].lastStep == 0
    ensures LogOk(s')
  {
    var n := |s.db.runs|;
    assert forall k :: 0 <= k < n ==> s'.db.runs[k] == s'.db.runs[..n][k] && s'.trails[k] == s'.trails[..n][k];
    assert n !in s.log;
  }

  lemma {:induction false} MemoryOfLonger(w: World, runs: seq<Run>, trails: seq<Trail>, runs': seq<Run>,
                                          trails': seq<Trail>, log: seq<nat>)
    requires |runs| == |trails| && |runs'| == |trails'| && |runs| <= |runs'|
    requires runs'[..|runs|] == runs && trails'[..|runs|] == trails
    requires forall k :: 0 <= k < |log| ==> log[k] < |runs|
    ensures MemoryOf(w, runs', trails', log) == MemoryOf(w, runs, trails, log)
  {
    hide EntriesOf;
    if log != [] {
      var r := log[|log| - 1];
      assert runs'[r] == runs'[..|runs|][r] && trails'[r] == trails'[..|runs|][r];
      MemoryOfLonger(w, runs, trails, runs', trails', log[..|log| - 1]);
    }
  }

  lemma ArriveKeeps(w: World, s: State, id: GradeId)
    requires Inv(w, s) && forall g :: g in s.db.grades ==> g.id != id
    ensures Inv(w, s.(db := s.db.(grades := [Grade(id, false)] + s.db.grades)))
  {
    hide RunOk, MemoryOf, EntriesOf, DiagnosesOf, Known, ClustersOf, LatestRunning, ProcOk, LogOk, GradesOk;
    var grades' := [Grade(id, false)] + s.db.grades;
    var s' := s.(db := s.db.(grades := grades'));
    ArriveProc(w, s, s', id);
    SameLog(s, s');
    ArriveGrades(s, s', id);
  }

  lemma SameLog(s: State, s': State)
    requires InRange(s) && InRange(s') && LogOk(s)
    requires s'.db.runs == s.db.runs && s'.trails == s.trails && s'.log == s.log && s'.proc == s.proc
    ensures LogOk(s')
  {
  }

  lemma ArriveProc(w: World, s: State, s': State, id: GradeId)
    requires InRange(s) && InRange(s') && ProcOk(w, s)
    requires s' == s.(db := s.db.(grades := [Grade(id, false)] + s.db.grades))
    ensures ProcOk(w, s')
  {
    hide RowsUsed, EntriesOf, DiagnosesOf, Known, ClustersOf, LatestRunning, SynthesizeAll;
    if s.proc.Selecting? || s.proc.Creating? {
      KnownByIds(s.db.grades, s'.db.grades, s.proc.ids, 1);
    }
  }

  lemma SameMarks(s: State, s': State)
    requires InRange(s) && InRange(s') && s'.db.runs == s.db.runs && s'.trails == s.trails
    ensures forall r, id :: MarkedBy(s', r, id) == MarkedBy(s, r, id)
  {
  }

  lemma ArriveGrades(s: State, s': State, id: GradeId)
    requires InRange(s) && GradesOk(s) && s' == s.(db := s.db.(grades := [Grade(id, false)] + s.db.grades))
    requires forall g :: g in s.db.grades ==> g.id != id
    ensures GradesOk(s')
  {
    forall r | 0 <= r < |s.db.runs| ensures Known(s'.db.grades, s.db.runs[r].gradeIds) {
      KnownByIds(s.db.grades, s'.db.grades, s.db.runs[r].gradeIds, 1);
    }
    NewGradeIsUncovered(s, id);
    SameMarks(s, s');
    hide Known, MarkedBy;
    forall k | 0 <= k < |s'.db.grades|
      ensures s'.db.grades[k].processed <==> exists r :: MarkedBy(s', r, s'.db.grades[k].id)
    {
      assert k > 0 ==> s'.db.grades[k] == s.db.grades[k - 1];
    }
  }

  lemma NewGradeIsUncovered(s: State, id: GradeId)
    requires InRange(s) && GradesOk(s) && forall g :: g in s.db.grades ==> g.id != id
    ensures forall r :: !MarkedBy(s, r, id)
  {
    forall r | 0 <= r < |s.db.runs| ensures id !in s.db.runs[r].gradeIds {
      assert Known(s.db.grades, s.db.runs[r].gradeIds);
    }
  }

  /** Every event keeps the invariant. */
  lemma NextKeeps(w: World, s: State, e: Event)
    requires Inv(w, s)
    ensures Inv(w, Next(w, s, e))
  {
    hide Inv, RunsOk, ProcOk, GradesOk, LogOk, MemoryOk, Fail, Halt, FindRun, CreateRun, StepCluster,
      StepDiagnose, StepExtract, StepSynthesize, StepUpdate, StepSaveUpdate, StepMark, StepClose, Select;
    match e
    case Raise => FailKeeps(w, s);
    case Crash => HaltKeeps(w, s);
    case Arrive(id) =>
      if forall g :: g in s.db.grades ==> g.id != id { ArriveKeeps(w, s, id); }
    case Go(age) =>
      match s.proc
      case Idle => SelectKeeps(w, s);
      case Selecting(_, _) => FindRunKeeps(w, s, age);
      case Creating(_, _) => CreateRunKeeps(w, s);
      case Clustering(_, _, _) => StepClusterKeeps(w, s);
      case Diagnosing(_, _, _) => StepDiagnoseKeeps(w, s);
      case Extracting(_, _, _) => StepExtractKeeps(w, s);
      case Synthesizing(_, _, _, _, _) => StepSynthesizeKeeps(w, s);
      case Updating(_, _, _) => StepUpdateKeeps(w, s);
      case Updated(_, _) => StepSaveUpdateKeeps(w, s);
      case Marking(_, _) => StepMarkKeeps(w, s);
      case Closing(_, _) => StepCloseKeeps(w, s);
  }

  lemma {:induction false} ExecKeeps(w: World, s: State, events: seq<Event>)
    requires Inv(w, s)
    ensures Inv(w, Exec(w, s, events))
    decreases |events|
  {
    hide Next, Inv;
    if events != [] {
      InvInRange(w, s);
      NextKeeps(w, s, events[0]);
      ExecKeeps(w, Next(w, s, events[0]), events[1..]);
    }
  }

  lemma InvInRange(w: World, s: State)
    requires Inv(w, s)
    ensures InRange(s)
  {
  }

  /** Every reachable state satisfies the invariant. */
  lemma AlwaysInv(w: World, events: seq<Event>)
    ensures Inv(w, After(w, events))
  {
    assert Inv(w, START);
    ExecKeeps(w, START, events);
  }
}
