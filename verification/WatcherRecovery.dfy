/**
  What recovery achieves: how a finished run compares with the crash-free one, after any history of
  crashes, failures, stale rows and arriving grades; that progress is never undone; that an attempt
  left alone finishes; and what a crash does at the two places where it is visible.
 */
module WatcherRecovery {
  import opened Wrappers
  import opened Payloads
  import opened Watcher
  import opened WatcherSafety

  // ---------------------------------------------------------------- finished runs

  /** The row of a run that was never interrupted. */
  function CrashFreeRun(w: World, ids: seq<GradeId>): Run {
    var clusters := w.cluster(ids);
    var diagnoses := DiagnoseAll(w, clusters);
    Run(Done, ids, 7, |diagnoses|, Some(SerializeClusters(clusters)), Some(SerializeDiagnoses(diagnoses)),
        Some(SerializeEntries(SynthesizeAll(w, diagnoses))))
  }

  lemma {:induction false} SynthesizeSplit(w: World, a: seq<Diagnosis>, b: seq<Diagnosis>)
    ensures SynthesizeAll(w, a + b) == SynthesizeAll(w, a) + SynthesizeAll(w, b)
    decreases |b|
  {
    if b == [] {
      assert a + b == a;
    } else {
      assert (a + b)[..|a + b| - 1] == a + b[..|b| - 1];
      SynthesizeSplit(w, a, b[..|b| - 1]);
    }
  }

  /** Clusters are diagnosed in order, and the diagnoses' entries follow one another in that order. */
  lemma EachClusterHasItsEntries(w: World, clusters: seq<QueryCluster>, i: nat)
    requires i < |clusters|
    ensures var ds := DiagnoseAll(w, clusters);
      && |ds| == |clusters| && ds[i] == w.diagnose(clusters[i])
      && SynthesizeAll(w, ds) ==
           SynthesizeAll(w, ds[..i]) + w.synthesize(w.diagnose(clusters[i])) + SynthesizeAll(w, ds[i + 1..])
  {
    var ds := DiagnoseAll(w, clusters);
    assert ds[..i + 1][..i] == ds[..i] && ds == ds[..i + 1] + ds[i + 1..];
    SynthesizeSplit(w, ds[..i + 1], ds[i + 1..]);
  }

  lemma RunAt(w: World, events: seq<Event>, r: nat)
    requires r < |After(w, events).db.runs|
    ensures InRange(After(w, events))
    ensures RunOk(w, After(w, events).db.runs[r], After(w, events).trails[r])
  {
    AlwaysInv(w, events);
  }

  /** In every reachable state: whatever step a row has reached, resuming from it decodes the payloads
      that were saved, and the clusters of step 5 were committed one by one, each once, in order. */
  lemma CheckpointsCanBeResumed(w: World, events: seq<Event>, r: nat)
    requires r < |After(w, events).db.runs|
    ensures var s := After(w, events); var run, t := s.db.runs[r], s.trails[r];
      && (run.lastStep >= 2 ==> DeserializeClusters(run.clustersJson) == Some(ClustersOf(w, run, t)))
      && (run.lastStep >= 3 ==> DeserializeDiagnoses(run.diagnosesJson) == Some(DiagnosesOf(w, run, t)))
      && (run.lastStep >= 5 ==> DeserializeEntries(run.entriesJson) == Some(EntriesOf(w, run, t)))
      && t.commits == seq(run.lastClusterIdx, i => i)
      && (run.lastStep >= 5 ==> run.lastClusterIdx == |DiagnosesOf(w, run, t)|)
  {
    hide Exec;
    RunAt(w, events, r);
    var s := After(w, events);
    SavedPayloads(w, s.db.runs[r], s.trails[r]);
  }

  lemma LoggedOnce(s: State, r: nat)
    requires InRange(s) && LogOk(s) && r < |s.db.runs| && s.db.runs[r].lastStep >= 6
    ensures Count(s.log, r) == 1 + s.trails[r].redone
  {
  }

  lemma DoneRowExactly(w: World, run: Run, t: Trail)
    requires RunOk(w, run, t) && run.status == Done
    ensures t.from <= |DiagnosesOf(w, run, t)|
    ensures run == CrashFreeRun(w, run.gradeIds) <==>
              w.cluster(RowsUsed(w, run, t)) == w.cluster(run.gradeIds) &&
              SynthesizeAll(w, DiagnosesOf(w, run, t)[..t.from]) == []
  {
    hide SerializeClusters, SerializeDiagnoses, SerializeEntries, DeserializeClusters, DeserializeEntries;
    var clusters, diagnoses := ClustersOf(w, run, t), DiagnosesOf(w, run, t);
    assert diagnoses == diagnoses[..t.from] + diagnoses[t.from..];
    SynthesizeSplit(w, diagnoses[..t.from], diagnoses[t.from..]);
    ClustersReadBack(clusters);
    ClustersReadBack(w.cluster(run.gradeIds));
    var lost, kept := SynthesizeAll(w, diagnoses[..t.from]), EntriesOf(w, run, t);
    EntriesReadBack(kept);
    EntriesReadBack(lost + kept);
    assert SynthesizeAll(w, diagnoses) == lost + kept;
    assert lost == [] ==> lost + kept == kept;
    if run == CrashFreeRun(w, run.gradeIds) {
      assert clusters == w.cluster(run.gradeIds);
      assert |lost + kept| == |kept|;
    }
  }

  // ---------------------------------------------------------------- grades

  /** In every reachable state a grade is processed exactly when a run that covers it has marked its
      grades, and such a run has updated the memory and committed step 6. */
  lemma GradesAreMarkedByUpdatedRuns(w: World, events: seq<Event>, k: nat)
    requires k < |After(w, events).db.grades|
    ensures var s := After(w, events); var g := s.db.grades[k];
      && (g.processed <==> exists r :: MarkedBy(s, r, g.id))
      && (forall r :: MarkedBy(s, r, g.id) ==> s.db.runs[r].lastStep >= 6 && r in s.log)
  {
    hide Exec;
    AlwaysInv(w, events);
    var s := After(w, events);
    var g := s.db.grades[k];
    forall r | MarkedBy(s, r, g.id) ensures s.db.runs[r].lastStep >= 6 && r in s.log {
      assert RunOk(w, s.db.runs[r], s.trails[r]);
      LoggedOnce(s, r);
    }
  }

  lemma {:induction false} UnprocessedIsEligible(grades: seq<Grade>, k: nat)
    requires k < |grades| && !grades[k].processed
    ensures grades[k].id in Unprocessed(grades)
  {
    if k > 0 {
      UnprocessedIsEligible(grades[1..], k - 1);
    }
  }

  function UnprocessedCount(grades: seq<Grade>): nat {
    if grades == [] then 0
    else UnprocessedCount(grades[..|grades| - 1]) + if grades[|grades| - 1].processed then 0 else 1
  }

  lemma {:induction false} CountFromFront(grade: Grade, rest: seq<Grade>)
    ensures UnprocessedCount([grade] + rest) == (if grade.processed then 0 else 1) + UnprocessedCount(rest)
    decreases |rest|
  {
    var all := [grade] + rest;
    if rest == [] {
      assert all[..0] == [];
    } else {
      assert all[..|all| - 1] == [grade] + rest[..|rest| - 1];
      CountFromFront(grade, rest[..|rest| - 1]);
    }
  }

  lemma UnprocessedFirst(grades: seq<Grade>)
    requires grades != []
    ensures Unprocessed(grades) == (if grades[0].processed then [] else [grades[0].id]) + Unprocessed(grades[1..])
  {
  }

  lemma NoneUnprocessed()
    ensures UnprocessedCount([]) == 0 && Unprocessed([]) == []
  {
  }

  /** What is fetched are the unprocessed grades, each once, in the grades' order, and no other. */
  lemma {:induction false} UnprocessedInOrder(grades: seq<Grade>)
    ensures |Unprocessed(grades)| == UnprocessedCount(grades)
    ensures forall k :: 0 <= k < |grades| && !grades[k].processed ==>
      UnprocessedCount(grades[..k]) < |Unprocessed(grades)| &&
      Unprocessed(grades)[UnprocessedCount(grades[..k])] == grades[k].id
  {
    hide Unprocessed, UnprocessedCount;
    NoneUnprocessed();
    if grades != [] {
      var first, rest := grades[0], grades[1..];
      assert grades == [first] + rest;
      UnprocessedInOrder(rest);
      CountFromFront(first, rest);
      UnprocessedFirst(grades);
      forall k | 0 <= k < |grades| && !grades[k].processed
        ensures UnprocessedCount(grades[..k]) < |Unprocessed(grades)|
        ensures Unprocessed(grades)[UnprocessedCount(grades[..k])] == grades[k].id
      {
        if k > 0 {
          assert grades[..k] == [first] + rest[..k - 1] && grades[k] == rest[k - 1];
          CountFromFront(first, rest[..k - 1]);
        } else {
          assert grades[..k] == [];
        }
      }
    }
  }

  /** Some grade with this id is unprocessed. */
  predicate Eligible(grades: seq<Grade>, id: GradeId) {
    exists k :: 0 <= k < |grades| && grades[k].id == id && !grades[k].processed
  }

  lemma {:induction false} UnprocessedExactly(grades: seq<Grade>, id: GradeId)
    ensures id in Unprocessed(grades) <==> Eligible(grades, id)
  {
    if grades != [] {
      var rest := grades[1..];
      UnprocessedExactly(rest, id);
      if Eligible(rest, id) {
        var k :| 0 <= k < |rest| && rest[k].id == id && !rest[k].processed;
        assert grades[k + 1] == rest[k];
      }
      if Eligible(grades, id) {
        var k :| 0 <= k < |grades| && grades[k].id == id && !grades[k].processed;
        assert k > 0 ==> rest[k - 1] == grades[k];
      }
    }
  }

  /** The fresh grades are the first hundred of the unprocessed ones, or all of them if they are fewer. */
  lemma FreshIsNewestHundred(grades: seq<Grade>)
    ensures FreshIds(grades) <= Unprocessed(grades)
    ensures |FreshIds(grades)| == if UnprocessedCount(grades) < 100 then UnprocessedCount(grades) else 100
    ensures forall id :: id in FreshIds(grades) ==> Eligible(grades, id)
  {
    UnprocessedInOrder(grades);
    forall id | id in FreshIds(grades) ensures Eligible(grades, id) { UnprocessedExactly(grades, id); }
  }

  /** Runs that failed before marking their grades leave them to be picked up again. */
  lemma FailedRunsLeaveGradesEligible(w: World, events: seq<Event>, k: nat)
    requires k < |After(w, events).db.grades|
    requires var s := After(w, events);
      forall r :: 0 <= r < |s.db.runs| && s.db.grades[k].id in s.db.runs[r].gradeIds ==> s.db.runs[r].lastStep < 6
    ensures After(w, events).db.grades[k].id in Unprocessed(After(w, events).db.grades)
  {
    hide Exec;
    GradesAreMarkedByUpdatedRuns(w, events, k);
    UnprocessedIsEligible(After(w, events).db.grades, k);
  }

  // ---------------------------------------------------------------- progress is kept

  /** What may happen to a row: counters only grow, saved payloads stay, a closed row never changes. */
  ghost predicate Grows(run: Run, run': Run) {
    && run'.gradeIds == run.gradeIds
    && run.lastStep <= run'.lastStep && run.lastClusterIdx <= run'.lastClusterIdx
    && (run.clustersJson.Some? ==> run'.clustersJson == run.clustersJson)
    && (run.diagnosesJson.Some? ==> run'.diagnosesJson == run.diagnosesJson)
    && (run.entriesJson.Some? ==> run'.entriesJson == run.entriesJson)
    && (run.status != Running ==> run' == run)
  }

  ghost predicate AllGrow(runs: seq<Run>, runs': seq<Run>) {
    |runs| <= |runs'| && forall r :: 0 <= r < |runs| ==> Grows(runs[r], runs'[r])
  }

  /** One row grows and the others stay. */
  lemma OneGrows(s: State, s': State, r: nat)
    requires InRange(s) && InRange(s') && r < |s.db.runs| == |s'.db.runs|
    requires s'.db.runs == s.db.runs[r := s'.db.runs[r]] && Grows(s.db.runs[r], s'.db.runs[r])
    ensures AllGrow(s.db.runs, s'.db.runs)
  {
  }

  /** The row the attempt works on is running, and has the payloads of its step and no later ones. */
  lemma WorkingRow(w: World, s: State)
    requires Inv(w, s) && s.proc.HasRun()
    ensures InRange(s)
    ensures var run := s.db.runs[s.proc.run];
      && run.status == Running && run.lastStep <= 6
      && (run.clustersJson.Some? <==> run.lastStep >= 2)
      && (run.diagnosesJson.Some? <==> run.lastStep >= 3)
      && (run.entriesJson.Some? <==> run.lastStep >= 5)
      && (s.proc.Synthesizing? ==> run.lastStep == 4 && s.proc.next == run.lastClusterIdx)
      && (s.proc.Diagnosing? ==> run.lastStep >= 2)
      && (s.proc.Extracting? ==> run.lastStep >= 3)
      && (s.proc.Updated? ==> run.lastStep == 5)
  {
    assert RunOk(w, s.db.runs[s.proc.run], s.trails[s.proc.run]);
  }

  lemma FailGrows(w: World, s: State)
    requires Inv(w, s)
    ensures InRange(s) && AllGrow(s.db.runs, Fail(s).db.runs)
  {
    hide Inv;
    InvInRange(w, s);
    if s.proc.HasRun() {
      WorkingRow(w, s);
      OneGrows(s, Fail(s), s.proc.run);
    }
  }

  /** The steps that rewrite the row at work. */
  predicate RewritesRow(proc: Proc) {
    proc.HasRun() && !proc.Updating? && !proc.Marking?
  }

  lemma RewriteGrows(w: World, s: State, age: Age)
    requires Inv(w, s) && RewritesRow(s.proc)
    ensures InRange(s) && AllGrow(s.db.runs, Advance(w, s, age).db.runs)
  {
    hide Inv, LatestRunning, DiagnoseAll, SerializeClusters, SerializeDiagnoses, SerializeEntries,
      DeserializeClusters, DeserializeDiagnoses, DeserializeEntries;
    WorkingRow(w, s);
    FailGrows(w, s);
    OneGrows(s, Advance(w, s, age), s.proc.run);
  }

  lemma FindRunGrows(s: State, age: Age)
    requires InRange(s) && s.proc.Selecting?
    ensures AllGrow(s.db.runs, FindRun(s, age).db.runs)
  {
    var latest := LatestRunning(s.db.runs);
    if latest.Some? && age == Stale { OneGrows(s, FindRun(s, age).(proc := Idle), latest.value); }
  }

  lemma OtherStepsGrow(w: World, s: State, age: Age)
    requires InRange(s) && !RewritesRow(s.proc)
    ensures AllGrow(s.db.runs, Advance(w, s, age).db.runs)
  {
    hide FindRun, LatestRunning, FreshIds, Mark;
    if s.proc.Selecting? { FindRunGrows(s, age); }
  }

  lemma AdvanceGrows(w: World, s: State, age: Age)
    requires Inv(w, s)
    ensures InRange(s) && AllGrow(s.db.runs, Advance(w, s, age).db.runs)
  {
    hide Inv, AllGrow, Advance;
    InvInRange(w, s);
    if RewritesRow(s.proc) { RewriteGrows(w, s, age); } else { OtherStepsGrow(w, s, age); }
  }

  lemma QuietGrows(w: World, s: State, e: Event)
    requires InRange(s) && (e.Crash? || e.Arrive?)
    ensures AllGrow(s.db.runs, Next(w, s, e).db.runs)
  {
    hide Advance, Fail;
    assert Next(w, s, e).db.runs == s.db.runs;
  }

  lemma NextGrows(w: World, s: State, e: Event)
    requires Inv(w, s)
    ensures InRange(s) && AllGrow(s.db.runs, Next(w, s, e).db.runs)
  {
    hide Inv, AllGrow, Advance, Fail, Halt;
    InvInRange(w, s);
    match e
    case Go(age) => AdvanceGrows(w, s, age);
    case Raise => FailGrows(w, s);
    case Crash => QuietGrows(w, s, e);
    case Arrive(_) => QuietGrows(w, s, e);
  }

  lemma {:induction false} ExecGrows(w: World, s: State, events: seq<Event>)
    requires Inv(w, s)
    ensures InRange(s) && AllGrow(s.db.runs, Exec(w, s, events).db.runs)
    decreases |events|
  {
    hide Next, Inv;
    InvInRange(w, s);
    if events != [] {
      var s' := Next(w, s, events[0]);
      NextGrows(w, s, events[0]);
      NextKeeps(w, s, events[0]);
      ExecGrows(w, s', events[1..]);
      var end := Exec(w, s', events[1..]);
      forall r | 0 <= r < |s.db.runs| ensures Grows(s.db.runs[r], end.db.runs[r]) {
        assert Grows(s.db.runs[r], s'.db.runs[r]) && Grows(s'.db.runs[r], end.db.runs[r]);
      }
    }
  }

  /** No continuation of a history takes a checkpoint back or reopens a run. */
  lemma CheckpointsOnlyGrow(w: World, before: seq<Event>, after: seq<Event>)
    ensures AllGrow(After(w, before).db.runs, After(w, before + after).db.runs)
  {
    hide Exec;
    AlwaysInv(w, before);
    ExecAppend(w, START, before, after);
    ExecGrows(w, After(w, before), after);
  }

  // ---------------------------------------------------------------- closed runs

  lemma ClosedStays(w: World, before: seq<Event>, after: seq<Event>, r: nat)
    requires r < |After(w, before).db.runs| && After(w, before).db.runs[r].status != Running
    ensures var end := After(w, before + after);
      && r < |end.db.runs| && end.db.runs[r] == After(w, before).db.runs[r]
      && (end.proc.HasRun() ==> end.proc.run != r)
  {
    hide Exec, Inv;
    CheckpointsOnlyGrow(w, before, after);
    AlwaysInv(w, before + after);
    assert Grows(After(w, before).db.runs[r], After(w, before + after).db.runs[r]);
    if After(w, before + after).proc.HasRun() { WorkingRow(w, After(w, before + after)); }
  }

  /** A run whose attempt raised is failed, with its checkpoint as it was, and never taken up again. */
  lemma RaisedRunIsClosed(w: World, events: seq<Event>, more: seq<Event>)
    requires After(w, events).proc.HasRun()
    ensures var s, end := After(w, events), After(w, events + [Raise] + more);
      && InRange(s) && s.proc.run < |end.db.runs|
      && end.db.runs[s.proc.run] == s.db.runs[s.proc.run].(status := Failed)
      && (end.proc.HasRun() ==> end.proc.run != s.proc.run)
  {
    hide Exec;
    AfterNext(w, events, Raise);
    ClosedStays(w, events + [Raise], more, After(w, events).proc.run);
  }

  /** A row found to be stale is failed, with its checkpoint as it was, and never taken up again. */
  lemma StaleRowIsClosed(w: World, events: seq<Event>, more: seq<Event>, r: nat)
    requires After(w, events).proc.Selecting? && LatestRunning(After(w, events).db.runs) == Some(r)
    ensures var s, end := After(w, events), After(w, events + [Go(Stale)] + more);
      && r < |end.db.runs| && end.db.runs[r] == s.db.runs[r].(status := Failed)
      && (end.proc.HasRun() ==> end.proc.run != r)
  {
    hide Exec;
    AfterNext(w, events, Go(Stale));
    ClosedStays(w, events + [Go(Stale)], more, r);
  }

  // ---------------------------------------------------------------- one running row

  /** A row is inserted while another one is running. */
  predicate CreatesBeside(s: State, e: Event) {
    e.Go? && s.proc.Creating? && LatestRunning(s.db.runs).Some?
  }

  lemma OnlyCreateAdds(w: World, s: State, e: Event)
    requires InRange(s) && !(e.Go? && s.proc.Creating?)
    ensures |Next(w, s, e).db.runs| == |s.db.runs|
  {
    hide DiagnoseAll, SerializeClusters, SerializeDiagnoses, SerializeEntries, DeserializeClusters,
      DeserializeDiagnoses, DeserializeEntries, Mark, LatestRunning, FreshIds;
  }

  lemma CreateOneRunning(w: World, s: State, e: Event)
    requires InRange(s) && OneRunning(s.db.runs) && e.Go? && s.proc.Creating?
    ensures OneRunning(Next(w, s, e).db.runs) <==> LatestRunning(s.db.runs).None?
  {
    hide LatestRunning;
    var runs, latest := s.db.runs, LatestRunning(s.db.runs);
    var runs' := runs + [NewRun(s.proc.ids)];
    assert Next(w, s, e).db.runs == runs';
    assert forall k :: 0 <= k < |runs| ==> runs'[k] == runs[k];
    if latest.Some? {
      assert runs'[latest.value].status == Running && runs'[|runs|].status == Running;
    }
  }

  lemma NextOneRunning(w: World, s: State, e: Event)
    requires Inv(w, s) && OneRunning(s.db.runs)
    ensures InRange(s) && (OneRunning(Next(w, s, e).db.runs) <==> !CreatesBeside(s, e))
  {
    hide Inv, Next, LatestRunning;
    InvInRange(w, s);
    if e.Go? && s.proc.Creating? {
      CreateOneRunning(w, s, e);
    } else {
      NextGrows(w, s, e);
      OnlyCreateAdds(w, s, e);
      var s' := Next(w, s, e);
      assert forall k :: 0 <= k < |s'.db.runs| ==> Grows(s.db.runs[k], s'.db.runs[k]);
    }
  }

  /** No prefix of the history ends with inserting a row beside a running one. */
  ghost predicate NeverBeside(w: World, events: seq<Event>) {
    forall k: nat :: k < |events| ==> !CreatesBeside(After(w, events[..k]), events[k])
  }

  lemma {:induction false} OneRunningUpTo(w: World, events: seq<Event>, k: nat)
    requires k <= |events| && NeverBeside(w, events)
    ensures OneRunning(After(w, events[..k]).db.runs)
  {
    hide Inv, Next, OneRunning, CreatesBeside, Exec;
    if k == 0 {
      assert OneRunning(After(w, events[..0]).db.runs) by { NothingRuns(w); }
    } else {
      OneRunningUpTo(w, events, k - 1);
      AlwaysInv(w, events[..k - 1]);
      assert events[..k] == events[..k - 1] + [events[k - 1]];
      AfterNext(w, events[..k - 1], events[k - 1]);
      NextOneRunning(w, After(w, events[..k - 1]), events[k - 1]);
    }
  }

  lemma NothingRuns(w: World)
    ensures OneRunning(After(w, []).db.runs)
  {
  }

  /** Throughout a history at most one run of the project is running exactly when no row is ever inserted
      beside a running one. */
  lemma OneRunningExactly(w: World, events: seq<Event>)
    ensures (forall k: nat :: k <= |events| ==> OneRunning(After(w, events[..k]).db.runs)) <==>
            NeverBeside(w, events)
  {
    hide Inv, After, Next, OneRunning, CreatesBeside;
    if NeverBeside(w, events) {
      forall k: nat | k <= |events| ensures OneRunning(After(w, events[..k]).db.runs) {
        OneRunningUpTo(w, events, k);
      }
    }
    if forall k: nat :: k <= |events| ==> OneRunning(After(w, events[..k]).db.runs) {
      forall k: nat | k < |events| ensures !CreatesBeside(After(w, events[..k]), events[k]) {
        AlwaysInv(w, events[..k]);
        assert events[..k + 1] == events[..k] + [events[k]];
        AfterNext(w, events[..k], events[k]);
        NextOneRunning(w, After(w, events[..k]), events[k]);
      }
    }
  }

  /** An attempt comes to insert a row only when none is running. */
  ghost predicate Alone(s: State) {
    OneRunning(s.db.runs) && (s.proc.Creating? ==> LatestRunning(s.db.runs) == None)
  }

  lemma NextAlone(w: World, s: State, e: Event)
    requires Inv(w, s) && InRange(s) && Alone(s) && e != Go(PassedOver)
    ensures Alone(Next(w, s, e))
  {
    hide Inv, Next, LatestRunning, OneRunning;
    NextOneRunning(w, s, e);
    if Next(w, s, e).proc.Creating? { NoneLeftRunning(w, s, e); }
  }

  lemma NoneLeftRunning(w: World, s: State, e: Event)
    requires InRange(s) && Alone(s) && e != Go(PassedOver) && Next(w, s, e).proc.Creating?
    ensures LatestRunning(Next(w, s, e).db.runs) == None
  {
    hide FreshIds, LatestRunning, Mark, DiagnoseAll, SerializeClusters, SerializeDiagnoses, SerializeEntries,
      DeserializeClusters, DeserializeDiagnoses, DeserializeEntries;
  }

  lemma {:induction false} AlwaysAlone(w: World, events: seq<Event>, k: nat)
    requires Go(PassedOver) !in events && k <= |events|
    ensures Alone(After(w, events[..k]))
  {
    hide Inv, Next, Exec, Alone;
    if k == 0 {
      assert Alone(After(w, events[..0])) by { StartsAlone(w); }
    } else {
      AlwaysAlone(w, events, k - 1);
      AlwaysInv(w, events[..k - 1]);
      assert events[..k] == events[..k - 1] + [events[k - 1]];
      AfterNext(w, events[..k - 1], events[k - 1]);
      NextAlone(w, After(w, events[..k - 1]), events[k - 1]);
    }
  }

  lemma StartsAlone(w: World)
    ensures Alone(After(w, []))
  {
  }

  /** As long as no running row is passed over, at most one run of the project is running. */
  lemma AtMostOneRunning(w: World, events: seq<Event>)
    requires Go(PassedOver) !in events
    ensures OneRunning(After(w, events).db.runs)
  {
    hide After, OneRunning, LatestRunning;
    forall k: nat | k < |events| ensures !CreatesBeside(After(w, events[..k]), events[k]) {
      AlwaysAlone(w, events, k);
    }
    OneRunningExactly(w, events);
    assert events[..|events|] == events;
  }

  // ---------------------------------------------------------------- an attempt left alone finishes

  /** Atomic steps left: those of the remaining steps and one per remaining cluster. */
  function StepsLeft(w: World, s: State): (n: nat)
    requires InRange(s) && s.proc.HasRun()
    ensures n > 0
  {
    match s.proc
    case Clustering(r, _, _) => |ClustersOf(w, s.db.runs[r], s.trails[r])| + 8
    case Diagnosing(_, _, clusters) => |clusters| + 7
    case Extracting(_, _, diagnoses) => |diagnoses| + 6
    case Synthesizing(_, _, diagnoses, _, next) => if next <= |diagnoses| then |diagnoses| - next + 5 else 5
    case Updating(_, _, _) => 4
    case Updated(_, _) => 3
    case Marking(_, _) => 2
    case Closing(_, _) => 1
  }

  predicate PastLoopEntry(proc: Proc) {
    proc.Synthesizing? || proc.Updating? || proc.Updated? || proc.Marking? || proc.Closing?
  }

  /** How often an uninterrupted attempt can still enter the step-5 loop. */
  function EntriesLeft(proc: Proc): int {
    if proc.Clustering? || proc.Diagnosing? || proc.Extracting? then 1 else 0
  }

  /** One step nearer to the end of the same run. */
  ghost predicate Nearer(w: World, s: State, s': State)
    requires InRange(s) && InRange(s') && s.proc.HasRun()
  {
    var r := s.proc.run;
    && |s'.db.runs| == |s.db.runs|
    && (PastLoopEntry(s.proc) ==> s'.trails[r].from == s.trails[r].from)
    && s'.trails[r].reread == s.trails[r].reread && s'.trails[r].redone == s.trails[r].redone
    && s'.trails[r].loops <= s.trails[r].loops + EntriesLeft(s.proc) - EntriesLeft(s'.proc)
    && s'.db.runs[r].gradeIds == s.db.runs[r].gradeIds
    && (if s'.proc.HasRun() then
          && s'.proc.run == r && StepsLeft(w, s') < StepsLeft(w, s)
          && (PastLoopEntry(s.proc) ==> PastLoopEntry(s'.proc))
        else s'.proc == Idle && s'.db.runs[r].status == Done)
  }

  lemma EarlyStepNearer(w: World, s: State, age: Age)
    requires Inv(w, s) && (s.proc.Clustering? || s.proc.Diagnosing? || s.proc.Extracting? || s.proc.Synthesizing?)
    ensures InRange(s) && Nearer(w, s, Advance(w, s, age))
  {
    hide Inv, RunOk, ClustersOf, DiagnosesOf, SerializeClusters, SerializeDiagnoses, SerializeEntries,
      DeserializeClusters, DeserializeDiagnoses, DeserializeEntries, LatestRunning, Fail, EntriesOf;
    HeldByAttempt(w, s);
  }

  lemma LateStepNearer(w: World, s: State, age: Age)
    requires Inv(w, s) && (s.proc.Updating? || s.proc.Updated? || s.proc.Marking? || s.proc.Closing?)
    ensures InRange(s) && Nearer(w, s, Advance(w, s, age))
  {
    hide Inv, DiagnosesOf, ClustersOf, LatestRunning, Fail, Mark;
    InvInRange(w, s);
  }

  /** Nothing the engine does on its own can fail, because every payload it resumes from decodes. */
  lemma GoIsNearer(w: World, s: State, age: Age)
    requires Inv(w, s) && s.proc.HasRun()
    ensures InRange(s) && Nearer(w, s, Next(w, s, Go(age)))
  {
    hide Inv, Nearer, Advance;
    InvInRange(w, s);
    if s.proc.Clustering? || s.proc.Diagnosing? || s.proc.Extracting? || s.proc.Synthesizing? {
      EarlyStepNearer(w, s, age);
    } else {
      LateStepNearer(w, s, age);
    }
  }

  /** What the attempt needs next is in its row, and what it holds has the right size. */
  lemma HeldByAttempt(w: World, s: State)
    requires Inv(w, s) && s.proc.HasRun()
    ensures InRange(s)
    ensures var run, t := s.db.runs[s.proc.run], s.trails[s.proc.run];
      && (run.lastStep >= 2 ==> DeserializeClusters(run.clustersJson) == Some(ClustersOf(w, run, t)))
      && (run.lastStep >= 3 ==> DeserializeDiagnoses(run.diagnosesJson) == Some(DiagnosesOf(w, run, t)))
      && (run.lastStep >= 5 ==> DeserializeEntries(run.entriesJson) == Some(EntriesOf(w, run, t)))
      && |DiagnosesOf(w, run, t)| == |ClustersOf(w, run, t)|
      && (s.proc.Clustering? && run.lastStep < 2 ==> w.cluster(s.proc.rows) == ClustersOf(w, run, t))
      && (s.proc.Diagnosing? ==> run.lastStep >= 2 && s.proc.clusters == ClustersOf(w, run, t))
      && (s.proc.Extracting? ==> run.lastStep >= 3 && s.proc.diagnoses == DiagnosesOf(w, run, t))
      && run.lastClusterIdx <= |DiagnosesOf(w, run, t)|
  {
    var run, t := s.db.runs[s.proc.run], s.trails[s.proc.run];
    assert RunOk(w, run, t);
    SavedPayloads(w, run, t);
    RowCounters(w, run, t);
    hide EntriesOf, RunOk, DeserializeClusters, DeserializeDiagnoses, DeserializeEntries, LatestRunning;
  }

  function Gos(n: nat): seq<Event> { seq(n, _ => Go(Young)) }

  lemma GosStep(w: World, s: State, n: nat)
    requires InRange(s)
    ensures Exec(w, s, Gos(n + 1)) == Exec(w, Next(w, s, Go(Young)), Gos(n))
    ensures Exec(w, s, Gos(0)) == s
  {
    hide Next;
    assert Gos(n + 1)[0] == Go(Young) && Gos(n + 1)[1..] == Gos(n);
  }

  lemma {:induction false} DriveToEnd(w: World, s: State) returns (n: nat)
    requires Inv(w, s) && s.proc.HasRun()
    ensures InRange(s) && n <= StepsLeft(w, s)
    ensures var end := Exec(w, s, Gos(n));
      && Inv(w, end) && end.proc == Idle && |end.db.runs| == |s.db.runs|
      && end.db.runs[s.proc.run].status == Done
      && (PastLoopEntry(s.proc) ==> end.trails[s.proc.run].from == s.trails[s.proc.run].from)
      && end.trails[s.proc.run].reread == s.trails[s.proc.run].reread
      && end.trails[s.proc.run].redone == s.trails[s.proc.run].redone
      && end.trails[s.proc.run].loops <= s.trails[s.proc.run].loops + EntriesLeft(s.proc)
      && end.db.runs[s.proc.run].gradeIds == s.db.runs[s.proc.run].gradeIds
    decreases StepsLeft(w, s)
  {
    hide Inv, Next, StepsLeft, Exec, Gos;
    InvInRange(w, s);
    GoIsNearer(w, s, Young);
    NextKeeps(w, s, Go(Young));
    var s' := Next(w, s, Go(Young));
    if s'.proc.HasRun() {
      var rest := DriveToEnd(w, s');
      n := rest + 1;
      GosStep(w, s, rest);
    } else {
      n := 1;
      GosStep(w, s, 0);
      GosStep(w, s', 0);
    }
  }

  /** After any history that left an attempt at work on a run, at most (remaining steps + remaining
      clusters) further steps without interruption complete that run. */
  lemma InterruptedRunCanFinish(w: World, events: seq<Event>) returns (n: nat)
    requires After(w, events).proc.HasRun()
    ensures var s := After(w, events);
      && n <= StepsLeft(w, s)
      && After(w, events + Gos(n)).proc == Idle
      && s.proc.run < |After(w, events + Gos(n)).db.runs|
      && After(w, events + Gos(n)).db.runs[s.proc.run].status == Done
  {
    hide Exec;
    AlwaysInv(w, events);
    n := DriveToEnd(w, After(w, events));
    ExecAppend(w, START, events, Gos(n));
  }

  // ---------------------------------------------------------------- an attempt that is never interrupted

  lemma FreshStart(w: World, s: State)
    requires InRange(s) && s.proc == Idle && LatestRunning(s.db.runs) == None && FreshIds(s.db.grades) != []
    ensures var ids, s' := FreshIds(s.db.grades), Exec(w, s, Gos(3));
      && s'.proc == Clustering(|s.db.runs|, ids, ids)
      && s'.db == s.db.(runs := s.db.runs + [NewRun(ids)])
      && s'.trails == s.trails + [Trail(false, [], 0, 0, 0, false)] && s'.log == s.log
  {
    hide LatestRunning, FreshIds, Exec, Gos;
    var s1 := Next(w, s, Go(Young));
    var s2 := Next(w, s1, Go(Young));
    GosStep(w, s, 2);
    GosStep(w, s1, 1);
    GosStep(w, s2, 0);
    GosStep(w, Next(w, s2, Go(Young)), 0);
  }

  lemma GosAppend(w: World, s: State, m: nat, n: nat)
    requires InRange(s)
    ensures Exec(w, s, Gos(m + n)) == Exec(w, Exec(w, s, Gos(m)), Gos(n))
  {
    hide Next, Exec;
    assert Gos(m + n) == Gos(m) + Gos(n);
    ExecAppend(w, s, Gos(m), Gos(n));
  }

  lemma FreshRunEnds(w: World, s: State, started: State, end: State, r: nat)
    requires InRange(started) && Inv(w, end) && r < |started.db.runs| == |end.db.runs|
    requires started.proc.Clustering? && started.proc.run == r
    requires started.trails[r] == Trail(false, [], 0, 0, 0, false)
    requires end.db.runs[r].status == Done && end.db.runs[r].gradeIds == started.db.runs[r].gradeIds
    requires !end.trails[r].reread && end.trails[r].redone == 0
    requires end.trails[r].loops <= started.trails[r].loops + EntriesLeft(started.proc)
    ensures end.db.runs[r] == CrashFreeRun(w, started.db.runs[r].gradeIds)
    ensures Count(end.log, r) == 1
  {
    hide DiagnosesOf, PayloadsOk, GradesOk, MemoryOk, CrashFreeRun;
    assert RunOk(w, end.db.runs[r], end.trails[r]);
    LoggedOnce(end, r);
    DoneRowExactly(w, end.db.runs[r], end.trails[r]);
    assert DiagnosesOf(w, end.db.runs[r], end.trails[r])[..0] == [];
    assert SynthesizeAll(w, []) == [];
  }

  // ---------------------------------------------------------------- the run at work is the one found

  /** A new attempt would find the run that is being worked on. */
  ghost predicate FindsItsRun(s: State) {
    s.proc.HasRun() ==> LatestRunning(s.db.runs) == Some(s.proc.run)
  }

  lemma LatestIsTheLast(runs: seq<Run>, r: nat)
    requires r < |runs| && runs[r].status == Running
    requires forall k :: r < k < |runs| ==> runs[k].status != Running
    ensures LatestRunning(runs) == Some(r)
  {
    hide LatestRunning;
    assert LatestRunning(runs).Some?;
  }

  lemma LatestBySameStatus(runs: seq<Run>, runs': seq<Run>)
    requires |runs| == |runs'| && forall k :: 0 <= k < |runs| ==> runs'[k].status == runs[k].status
    ensures LatestRunning(runs') == LatestRunning(runs)
  {
    hide LatestRunning;
    var latest := LatestRunning(runs);
    if latest.Some? { LatestIsTheLast(runs', latest.value); }
  }

  /** The steps of an attempt leave the status of every row as it is, until they end it. */
  lemma GoKeepsStatuses(w: World, s: State, age: Age)
    requires InRange(s) && s.proc.HasRun() && Next(w, s, Go(age)).proc.HasRun()
    ensures var s' := Next(w, s, Go(age));
      && s'.proc.run == s.proc.run && |s'.db.runs| == |s.db.runs|
      && forall k :: 0 <= k < |s.db.runs| ==> s'.db.runs[k].status == s.db.runs[k].status
  {
    hide DiagnoseAll, SerializeClusters, SerializeDiagnoses, SerializeEntries, DeserializeClusters,
      DeserializeDiagnoses, DeserializeEntries, Fail, Mark, LatestRunning;
  }

  lemma NextFindsItsRun(w: World, s: State, e: Event)
    requires InRange(s) && FindsItsRun(s)
    ensures FindsItsRun(Next(w, s, e))
  {
    hide Next, LatestRunning;
    var s' := Next(w, s, e);
    if s'.proc.HasRun() {
      if e.Go? && s.proc.HasRun() {
        GoKeepsStatuses(w, s, e.age);
        LatestBySameStatus(s.db.runs, s'.db.runs);
      } else {
        StartFindsItsRun(w, s, e);
      }
    }
  }

  lemma StartFindsItsRun(w: World, s: State, e: Event)
    requires InRange(s) && FindsItsRun(s) && Next(w, s, e).proc.HasRun()
    requires !(e.Go? && s.proc.HasRun())
    ensures FindsItsRun(Next(w, s, e))
  {
    hide FreshIds;
  }

  lemma {:induction false} ExecFindsItsRun(w: World, s: State, events: seq<Event>)
    requires InRange(s) && FindsItsRun(s)
    ensures FindsItsRun(Exec(w, s, events))
    decreases |events|
  {
    hide Next, FindsItsRun;
    if events != [] {
      NextFindsItsRun(w, s, events[0]);
      ExecFindsItsRun(w, Next(w, s, events[0]), events[1..]);
    }
  }

  /** After every history - also one in which rows were passed over and several are running -
      the run at work is the one that a new attempt would find. */
  lemma RunAtWorkIsFound(w: World, events: seq<Event>)
    requires After(w, events).proc.HasRun()
    ensures LatestRunning(After(w, events).db.runs) == Some(After(w, events).proc.run)
  {
    hide Exec;
    ExecFindsItsRun(w, START, events);
  }

  // ---------------------------------------------------------------- a crash and the next attempt

  lemma SelectRunning(w: World, s: State, r: nat)
    requires InRange(s) && s.proc == Idle && LatestRunning(s.db.runs) == Some(r)
    requires s.db.runs[r].gradeIds != [] && w.selectOrder(s.db.runs[r].gradeIds) != []
    ensures Next(w, s, Go(Young)) == s.(proc := Selecting(s.db.runs[r].gradeIds, w.selectOrder(s.db.runs[r].gradeIds)))
  {
    hide LatestRunning, FreshIds;
  }

  lemma FindRunning(w: World, s: State, r: nat)
    requires InRange(s) && s.proc.Selecting? && LatestRunning(s.db.runs) == Some(r)
    ensures Next(w, s, Go(Young)) ==
              s.(proc := Clustering(r, s.proc.ids, s.proc.rows),
                 trails := s.trails[r := s.trails[r].(reread := s.trails[r].reread || s.db.runs[r].lastStep < 2)])
  {
    hide LatestRunning, FreshIds;
  }

  function RedoneBy(proc: Proc): nat { if proc.Updated? then 1 else 0 }

  lemma CrashStep(w: World, s: State)
    requires InRange(s) && s.proc.HasRun()
    ensures var r, t := s.proc.run, s.trails[s.proc.run];
      Next(w, s, Crash) == s.(proc := Idle, trails := s.trails[r := t.(redone := t.redone + RedoneBy(s.proc))])
  {
    if !s.proc.Updated? { assert s.trails[s.proc.run := s.trails[s.proc.run]] == s.trails; }
  }

  /** After a crash the next attempt finds the run and everything durable as it was. Only three things
      are lost: before step 2 the order of the grades, inside step 5 the entries made so far, and
      between the memory update and its checkpoint the fact that it was made. */
  lemma CrashAndResume(w: World, s: State)
    requires InRange(s) && s.proc.HasRun() && LatestRunning(s.db.runs) == Some(s.proc.run)
    requires s.db.runs[s.proc.run].gradeIds == s.proc.ids != [] && w.selectOrder(s.proc.ids) != []
    ensures var r, run, t := s.proc.run, s.db.runs[s.proc.run], s.trails[s.proc.run];
      Exec(w, s, [Crash] + Gos(2)) ==
        s.(proc := Clustering(r, s.proc.ids, w.selectOrder(s.proc.ids)),
           trails := s.trails[r := t.(reread := t.reread || run.lastStep < 2, redone := t.redone + RedoneBy(s.proc))])
  {
    hide LatestRunning, FreshIds, Exec, Gos, Next, RedoneBy;
    CrashStep(w, s);
    var r := s.proc.run;
    var s0 := Next(w, s, Crash);
    SelectRunning(w, s0, r);
    var s1 := Next(w, s0, Go(Young));
    FindRunning(w, s1, r);
    CrashThenGos(w, s, 2);
    GosStep(w, s0, 1);
    GosStep(w, s1, 0);
    GosStep(w, Next(w, s1, Go(Young)), 0);
  }

  lemma CrashThenGos(w: World, s: State, n: nat)
    requires InRange(s)
    ensures Exec(w, s, [Crash] + Gos(n)) == Exec(w, Next(w, s, Crash), Gos(n))
  {
    hide Next;
    assert ([Crash] + Gos(n))[0] == Crash && ([Crash] + Gos(n))[1..] == Gos(n);
  }

  /** What a crash finds: the run that was being worked on is the one to resume, and its grades still exist. */
  ghost predicate Resumable(w: World, s: State) {
    && Inv(w, s) && s.proc.HasRun() && FindsItsRun(s) && w.selectOrder(s.proc.ids) != []
  }

  lemma ResumableIsFound(w: World, s: State)
    requires Resumable(w, s)
    ensures InRange(s) && LatestRunning(s.db.runs) == Some(s.proc.run)
    ensures s.db.runs[s.proc.run].gradeIds == s.proc.ids != []
  {
    hide PayloadsOk, LogOk, MemoryOk, GradesOk, DiagnosesOf;
    assert RunOk(w, s.db.runs[s.proc.run], s.trails[s.proc.run]);
  }

  /** The crash in the loop, from the state it finds. */
  lemma CrashInLoop(w: World, s: State) returns (n: nat)
    requires Resumable(w, s) && s.proc.Synthesizing?
    ensures InRange(s)
    ensures var end := Exec(w, s, [Crash] + Gos(n));
      && end.proc == Idle && s.proc.run < |end.db.runs| && end.db.runs[s.proc.run].status == Done
      && s.proc.next <= |s.proc.diagnoses|
      && end.db.runs[s.proc.run].entriesJson ==
           Some(SerializeEntries(SynthesizeAll(w, s.proc.diagnoses[s.proc.next..])))
  {
    hide Inv, Exec, Gos, Next, StepsLeft, SerializeEntries, LatestRunning, EntriesLeft;
    ResumableIsFound(w, s);
    CrashAndResume(w, s);
    var resumed := Exec(w, s, [Crash] + Gos(2));
    ExecKeeps(w, s, [Crash] + Gos(2));
    LoopState(w, s);
    BackToLoop(w, s, resumed);
    var inLoop := Exec(w, resumed, Gos(3));
    ExecKeeps(w, resumed, Gos(3));
    var rest := DriveToEnd(w, inLoop);
    n := 2 + 3 + rest;
    CrashGosAppend(w, s, 2, 3 + rest);
    GosAppend(w, resumed, 3, rest);
    LoopEnds(w, s, inLoop, Exec(w, inLoop, Gos(rest)));
  }

  lemma CrashGosAppend(w: World, s: State, m: nat, n: nat)
    requires InRange(s)
    ensures Exec(w, s, [Crash] + Gos(m + n)) == Exec(w, Exec(w, s, [Crash] + Gos(m)), Gos(n))
  {
    hide Next, Exec;
    assert [Crash] + Gos(m + n) == ([Crash] + Gos(m)) + Gos(n);
    ExecAppend(w, s, [Crash] + Gos(m), Gos(n));
  }

  /** From the resumed attempt back into the loop: three steps that load what was saved. */
  lemma BackToLoop(w: World, s: State, resumed: State)
    requires Inv(w, s) && s.proc.Synthesizing? && Inv(w, resumed) && InRange(s) && InRange(resumed)
    requires resumed.db == s.db && resumed.proc.Clustering? && resumed.proc.run == s.proc.run
    requires resumed.trails[s.proc.run].reread == s.trails[s.proc.run].reread
    ensures var s3 := Exec(w, resumed, Gos(3));
      && s3.proc.Synthesizing? && s3.proc.run == s.proc.run && s3.proc.completed == []
      && s3.proc.diagnoses == s.proc.diagnoses && s3.proc.next == s.proc.next
      && InRange(s3) && s3.trails[s.proc.run].from == s.proc.next
  {
    hide Inv, Exec, Gos, LatestRunning, SerializeClusters, SerializeDiagnoses, SerializeEntries, DeserializeClusters,
      DeserializeDiagnoses, DeserializeEntries, ClustersOf, DiagnosesOf, EntriesOf, Fail;
    LoopState(w, s);
    HeldByAttempt(w, resumed);
    SameDiagnoses(w, s.db.runs[s.proc.run], s.db.runs[s.proc.run], s.trails[s.proc.run], resumed.trails[s.proc.run]);
    var s1 := Next(w, resumed, Go(Young));
    var s2 := Next(w, s1, Go(Young));
    GosStep(w, resumed, 2);
    GosStep(w, s1, 1);
    GosStep(w, s2, 0);
    GosStep(w, Next(w, s2, Go(Young)), 0);
  }

  lemma LoopState(w: World, s: State)
    requires Inv(w, s) && s.proc.Synthesizing?
    ensures InRange(s)
    ensures var run, t := s.db.runs[s.proc.run], s.trails[s.proc.run];
      && run.lastStep == 4 && s.proc.next == run.lastClusterIdx <= |s.proc.diagnoses|
      && s.proc.diagnoses == DiagnosesOf(w, run, t) && s.proc.ids == run.gradeIds
  {
    hide RunOk, GradesOk, LogOk, MemoryOk, MemoryOf, DiagnosesOf, EntriesOf, Known, SynthesizeAll;
  }

  lemma LoopEnds(w: World, s: State, inLoop: State, end: State)
    requires Inv(w, s) && Inv(w, inLoop) && Inv(w, end) && InRange(s) && InRange(inLoop) && InRange(end)
    requires s.proc.Synthesizing? && inLoop.proc.Synthesizing? && inLoop.proc.run == s.proc.run < |end.db.runs|
    requires inLoop.proc.diagnoses == s.proc.diagnoses && inLoop.proc.next == s.proc.next
    requires inLoop.proc.completed == []
    requires end.db.runs[s.proc.run].status == Done
    requires end.trails[s.proc.run].from == inLoop.trails[s.proc.run].from == s.proc.next
    requires end.trails[s.proc.run].reread == inLoop.trails[s.proc.run].reread
    requires end.db.runs[s.proc.run].gradeIds == inLoop.db.runs[s.proc.run].gradeIds
    ensures s.proc.next <= |s.proc.diagnoses|
    ensures end.db.runs[s.proc.run].entriesJson ==
              Some(SerializeEntries(SynthesizeAll(w, s.proc.diagnoses[s.proc.next..])))
  {
    hide Inv, DiagnosesOf, SerializeEntries, RunOk;
    var r := s.proc.run;
    LoopState(w, s);
    LoopState(w, inLoop);
    SameDiagnoses(w, inLoop.db.runs[r], end.db.runs[r], inLoop.trails[r], end.trails[r]);
    DoneEntries(w, end, r);
  }

  lemma DoneEntries(w: World, s: State, r: nat)
    requires Inv(w, s) && InRange(s) && r < |s.db.runs| && s.db.runs[r].status == Done
    ensures s.db.runs[r].entriesJson == Some(SerializeEntries(EntriesOf(w, s.db.runs[r], s.trails[r])))
  {
    assert RunOk(w, s.db.runs[r], s.trails[r]);
  }

  /** The crash before step 2, from the state it finds. */
  lemma CrashBeforeClustering(w: World, s: State)
    requires Resumable(w, s) && s.proc.Clustering? && s.db.runs[s.proc.run].lastStep < 2
    ensures var s' := Exec(w, s, [Crash] + Gos(3));
      && s.proc.run < |s'.db.runs|
      && s'.db.runs[s.proc.run].clustersJson == Some(SerializeClusters(w.cluster(w.selectOrder(s.proc.ids))))
  {
    hide Inv, Exec, Gos, SerializeClusters, LatestRunning, RedoneBy;
    ResumableIsFound(w, s);
    CrashAndResume(w, s);
    CrashGosAppend(w, s, 2, 1);
    var resumed := Exec(w, s, [Crash] + Gos(2));
    GosStep(w, resumed, 0);
    GosStep(w, Next(w, resumed, Go(Young)), 0);
  }

  /** From step 5 on, a resumed attempt loads its payloads and updates the memory. */
  lemma UpdateAgain(w: World, s: State)
    requires Inv(w, s) && s.proc.Clustering? && InRange(s) && s.db.runs[s.proc.run].lastStep == 5
    ensures var entries := EntriesOf(w, s.db.runs[s.proc.run], s.trails[s.proc.run]);
      Exec(w, s, Gos(4)) == s.(db := s.db.(memory := s.db.memory + entries), log := s.log + [s.proc.run],
                               proc := Updated(s.proc.run, s.proc.ids))
  {
    hide Inv, Exec, Gos, LatestRunning, DeserializeClusters, DeserializeDiagnoses, DeserializeEntries, ClustersOf,
      DiagnosesOf, EntriesOf, Fail;
    HeldByAttempt(w, s);
    var s1 := Next(w, s, Go(Young));
    var s2 := Next(w, s1, Go(Young));
    var s3 := Next(w, s2, Go(Young));
    GosStep(w, s, 3);
    GosStep(w, s1, 2);
    GosStep(w, s2, 1);
    GosStep(w, s3, 0);
    GosStep(w, Next(w, s3, Go(Young)), 0);
  }

  /** The crash between the memory update and its checkpoint, from the state it finds. */
  lemma CrashBeforeCheckpoint(w: World, s: State)
    requires Resumable(w, s) && s.proc.Updated?
    ensures InRange(s)
    ensures var s', run := Exec(w, s, [Crash] + Gos(6)), s.db.runs[s.proc.run];
      && run.entriesJson == Some(SerializeEntries(EntriesOf(w, run, s.trails[s.proc.run])))
      && s'.db.memory == s.db.memory + EntriesOf(w, run, s.trails[s.proc.run]) && s'.log == s.log + [s.proc.run]
  {
    hide Inv, Exec, Gos, LatestRunning, RedoneBy, Next, EntriesOf, SerializeEntries;
    ResumableIsFound(w, s);
    CrashAndResume(w, s);
    ExecKeeps(w, s, [Crash] + Gos(2));
    UpdatedState(w, s);
    var resumed := Exec(w, s, [Crash] + Gos(2));
    UpdateAgain(w, resumed);
    CrashGosAppend(w, s, 2, 4);
    SameEntries(w, s.db.runs[s.proc.run], s.trails[s.proc.run], resumed.trails[s.proc.run]);
  }

  lemma UpdatedState(w: World, s: State)
    requires Inv(w, s) && s.proc.Updated?
    ensures InRange(s)
    ensures var run := s.db.runs[s.proc.run];
      run.lastStep == 5 && run.entriesJson == Some(SerializeEntries(EntriesOf(w, run, s.trails[s.proc.run])))
  {
    assert RunOk(w, s.db.runs[s.proc.run], s.trails[s.proc.run]);
  }

  lemma SameEntries(w: World, run: Run, t: Trail, t': Trail)
    requires t'.reread == t.reread && t'.from == t.from
    ensures EntriesOf(w, run, t') == EntriesOf(w, run, t)
  {
  }

  lemma MarkTwice(grades: seq<Grade>, ids: seq<GradeId>)
    requires forall k :: 0 <= k < |grades| && grades[k].id in ids ==> grades[k].processed
    ensures Mark(grades, ids) == grades
  {
  }

  /** The crash before the run is closed, from the state it finds. */
  lemma CrashBeforeClose(w: World, s: State)
    requires Resumable(w, s) && s.proc.Closing?
    ensures InRange(s) && Exec(w, s, [Crash] + Gos(8)).db == Next(w, s, Go(Young)).db
  {
    hide Inv, Exec, Gos, LatestRunning, RedoneBy, Next;
    ResumableIsFound(w, s);
    CrashAndResume(w, s);
    ExecKeeps(w, s, [Crash] + Gos(2));
    ClosingState(w, s);
    var resumed := Exec(w, s, [Crash] + Gos(2));
    LateResume(w, resumed);
    ExecKeeps(w, resumed, Gos(4));
    var late := Exec(w, resumed, Gos(4));
    CloseAgain(w, s, late);
    GosAppend(w, resumed, 4, 2);
    CrashGosAppend(w, s, 2, 6);
  }

  lemma ClosingState(w: World, s: State)
    requires Inv(w, s) && s.proc.Closing?
    ensures InRange(s)
    ensures s.db.runs[s.proc.run].lastStep == 6 && s.proc.ids == s.db.runs[s.proc.run].gradeIds
    ensures forall k :: 0 <= k < |s.db.grades| && s.db.grades[k].id in s.proc.ids ==> s.db.grades[k].processed
  {
    hide PayloadsOk, LogOk, MemoryOk, DiagnosesOf, Known;
    assert RunOk(w, s.db.runs[s.proc.run], s.trails[s.proc.run]);
    forall k | 0 <= k < |s.db.grades| && s.db.grades[k].id in s.proc.ids ensures s.db.grades[k].processed {
      assert MarkedBy(s, s.proc.run, s.db.grades[k].id);
    }
  }

  /** From step 6 on, a resumed attempt loads its payloads and comes to marking the grades. */
  lemma LateResume(w: World, s: State)
    requires Inv(w, s) && s.proc.Clustering? && InRange(s) && s.db.runs[s.proc.run].lastStep >= 6
    ensures Exec(w, s, Gos(4)) == s.(proc := Marking(s.proc.run, s.proc.ids))
  {
    hide Inv, Exec, Gos, LatestRunning, DeserializeClusters, DeserializeDiagnoses, DeserializeEntries, ClustersOf,
      DiagnosesOf, EntriesOf, Fail;
    HeldByAttempt(w, s);
    var s1 := Next(w, s, Go(Young));
    var s2 := Next(w, s1, Go(Young));
    var s3 := Next(w, s2, Go(Young));
    GosStep(w, s, 3);
    GosStep(w, s1, 2);
    GosStep(w, s2, 1);
    GosStep(w, s3, 0);
    GosStep(w, Next(w, s3, Go(Young)), 0);
  }

  lemma CloseAgain(w: World, s: State, late: State)
    requires InRange(s) && InRange(late) && s.proc.Closing? && late.db == s.db
    requires late.proc == Marking(s.proc.run, s.proc.ids)
    requires forall k :: 0 <= k < |s.db.grades| && s.db.grades[k].id in s.proc.ids ==> s.db.grades[k].processed
    ensures Exec(w, late, Gos(2)).db == Next(w, s, Go(Young)).db
  {
    hide Exec, Gos, Mark;
    MarkTwice(s.db.grades, s.proc.ids);
    var s1 := Next(w, late, Go(Young));
    GosStep(w, late, 1);
    GosStep(w, s1, 0);
    GosStep(w, Next(w, s1, Go(Young)), 0);
  }

  // ---------------------------------------------------------------- crashes in any history

  /** After this history an attempt is at work on a run that a new attempt would find. */
  ghost predicate AtWork(w: World, events: seq<Event>) {
    var s := After(w, events);
    s.proc.HasRun() && w.selectOrder(s.proc.ids) != []
  }

  lemma AtWorkIsResumable(w: World, events: seq<Event>)
    requires AtWork(w, events)
    ensures Resumable(w, After(w, events))
  {
    hide Inv, After;
    AlwaysInv(w, events);
    RunAtWorkIsFound(w, events);
  }

  /** A crash after any history: the next attempt works on the same run, with everything durable as it
      was; only the order of the grades may differ. */
  lemma CrashResumesTheRun(w: World, events: seq<Event>)
    requires AtWork(w, events)
    ensures var s, s' := After(w, events), After(w, events + ([Crash] + Gos(2)));
      s'.db == s.db && s'.proc == Clustering(s.proc.run, s.proc.ids, w.selectOrder(s.proc.ids)) && s'.log == s.log
  {
    hide Inv, Exec, Gos, LatestRunning, RedoneBy;
    AtWorkIsResumable(w, events);
    ResumableIsFound(w, After(w, events));
    CrashAndResume(w, After(w, events));
    ExecAppend(w, START, events, [Crash] + Gos(2));
  }

  /** A crash inside the step-5 loop, after any history: the run completes, and its entries are exactly
      those of the diagnoses from the interrupted one on. */
  lemma CrashInLoopLosesCommitted(w: World, events: seq<Event>) returns (n: nat)
    requires AtWork(w, events) && After(w, events).proc.Synthesizing?
    ensures var s, end := After(w, events), After(w, events + ([Crash] + Gos(n)));
      && end.proc == Idle && s.proc.run < |end.db.runs| && end.db.runs[s.proc.run].status == Done
      && s.proc.next <= |s.proc.diagnoses|
      && end.db.runs[s.proc.run].entriesJson ==
           Some(SerializeEntries(SynthesizeAll(w, s.proc.diagnoses[s.proc.next..])))
  {
    hide Inv, Exec, Gos, SynthesizeAll, SerializeEntries, Resumable;
    AtWorkIsResumable(w, events);
    n := CrashInLoop(w, After(w, events));
    ExecAppend(w, START, events, [Crash] + Gos(n));
  }

  /** A crash before step 2 is committed, after any history: the clusters saved are those of the grades in
      the order in which the selection by id returns them. */
  lemma CrashBeforeClusteringReorders(w: World, events: seq<Event>)
    requires AtWork(w, events) && After(w, events).proc.Clustering?
    requires After(w, events).db.runs[After(w, events).proc.run].lastStep < 2
    ensures var s, s' := After(w, events), After(w, events + ([Crash] + Gos(3)));
      && s.proc.run < |s'.db.runs|
      && s'.db.runs[s.proc.run].clustersJson == Some(SerializeClusters(w.cluster(w.selectOrder(s.proc.ids))))
  {
    hide Inv, Exec, Gos, SerializeClusters, Resumable;
    AtWorkIsResumable(w, events);
    CrashBeforeClustering(w, After(w, events));
    ExecAppend(w, START, events, [Crash] + Gos(3));
  }

  /** A crash between the memory update and its checkpoint, after any history: the next attempt appends
      the saved entries to the memory again. */
  lemma CrashBeforeCheckpointAppendsAgain(w: World, events: seq<Event>)
    requires AtWork(w, events) && After(w, events).proc.Updated?
    ensures var s, s' := After(w, events), After(w, events + ([Crash] + Gos(6)));
      && s.db.runs[s.proc.run].entriesJson ==
           Some(SerializeEntries(EntriesOf(w, s.db.runs[s.proc.run], s.trails[s.proc.run])))
      && s'.db.memory == s.db.memory + EntriesOf(w, s.db.runs[s.proc.run], s.trails[s.proc.run])
      && s'.log == s.log + [s.proc.run]
  {
    hide Inv, Exec, Gos, SerializeEntries, EntriesOf, Resumable;
    AtWorkIsResumable(w, events);
    CrashBeforeCheckpoint(w, After(w, events));
    ExecAppend(w, START, events, [Crash] + Gos(6));
  }

  /** A crash after the grades were marked but before the run was closed, after any history: the database
      ends as if there had been no crash. */
  lemma CrashBeforeCloseIsHarmless(w: World, events: seq<Event>)
    requires AtWork(w, events) && After(w, events).proc.Closing?
    ensures After(w, events + ([Crash] + Gos(8))).db == After(w, events + Gos(1)).db
  {
    hide Inv, Exec, Gos, Next, Resumable;
    AtWorkIsResumable(w, events);
    CrashBeforeClose(w, After(w, events));
    ExecAppend(w, START, events, [Crash] + Gos(8));
    ExecAppend(w, START, events, Gos(1));
    GosStep(w, After(w, events), 0);
    GosStep(w, Next(w, After(w, events), Go(Young)), 0);
  }

  // ---------------------------------------------------------------- a loss that happens

  function OneEach(ids: seq<GradeId>): (r: seq<QueryCluster>)
    ensures |r| == |ids|
  {
    seq(|ids|, i requires 0 <= i < |ids| => QueryCluster(ids[i], [], [ids[i]], 0.0, []))
  }

  /** Two grades, one cluster and one entry for each, and selections that keep the order. */
  const EXAMPLE := World(
    ids => OneEach(ids),
    (c: QueryCluster) => Diagnosis(c, "terminology_gap", [], [], ""),
    (d: Diagnosis) => [MemoryEntry("## Terminology Map", "note", [], d.cluster.representativeQuery)],
    ids => ids)

  lemma ExampleArrivals(w: World) returns (s: State)
    ensures s == After(w, [Arrive("a"), Arrive("b")])
    ensures s == START.(db := Db([], [Grade("b", false), Grade("a", false)], []))
    ensures FreshIds(s.db.grades) == ["b", "a"]
  {
    var one := Next(w, START, Arrive("a"));
    assert one == START.(db := Db([], [Grade("a", false)], []));
    assert "a"[0] != "b"[0];
    s := Next(w, one, Arrive("b"));
    assert [Arrive("a"), Arrive("b")][1..] == [Arrive("b")] && [Arrive("b")][1..] == [];
    var grades := s.db.grades;
    assert grades == [Grade("b", false), Grade("a", false)];
    assert grades[1..] == [Grade("a", false)] && grades[1..][1..] == [];
    assert Unprocessed(grades[1..]) == ["a"] + Unprocessed([]);
  }

  lemma ExampleDiagnosed(arrived: State) returns (s: State)
    requires arrived == START.(db := Db([], [Grade("b", false), Grade("a", false)], []))
    requires FreshIds(arrived.db.grades) == ["b", "a"]
    ensures InRange(s) && s == Exec(EXAMPLE, arrived, Gos(5)) && |s.db.runs| == 1
    ensures s.proc == Extracting(0, ["b", "a"], DiagnoseAll(EXAMPLE, OneEach(["b", "a"])))
    ensures s.db.runs[0].lastStep == 3 && s.db.runs[0].lastClusterIdx == 0 && s.log == []
  {
    hide Exec, Gos, FreshIds, SerializeClusters, SerializeDiagnoses, OneEach, DiagnoseAll;
    FreshStart(EXAMPLE, arrived);
    var s0 := Exec(EXAMPLE, arrived, Gos(3));
    var s1 := Next(EXAMPLE, s0, Go(Young));
    s := Next(EXAMPLE, s1, Go(Young));
    GosStep(EXAMPLE, s0, 1);
    GosStep(EXAMPLE, s1, 0);
    GosStep(EXAMPLE, s, 0);
    GosAppend(EXAMPLE, arrived, 3, 2);
  }

  /** From the selected grades to the second turn of the loop. */
  lemma ExampleTurns(arrived: State) returns (s: State)
    requires arrived == START.(db := Db([], [Grade("b", false), Grade("a", false)], []))
    requires FreshIds(arrived.db.grades) == ["b", "a"]
    ensures s == Exec(EXAMPLE, arrived, Gos(7))
    ensures s.proc.Synthesizing? && s.proc.ids == ["b", "a"] && s.proc.next == 1 && s.proc.run == 0 && s.log == []
    ensures |s.proc.diagnoses| == 2 && s.proc.diagnoses == DiagnoseAll(EXAMPLE, OneEach(["b", "a"]))
  {
    hide Exec, Gos, FreshIds, OneEach, DiagnoseAll;
    var s0 := ExampleDiagnosed(arrived);
    var s1 := Next(EXAMPLE, s0, Go(Young));
    s := Next(EXAMPLE, s1, Go(Young));
    GosStep(EXAMPLE, s0, 1);
    GosStep(EXAMPLE, s1, 0);
    GosStep(EXAMPLE, s, 0);
    GosAppend(EXAMPLE, arrived, 5, 2);
  }

  lemma ExampleLoop() returns (s: State, events: seq<Event>)
    ensures s == After(EXAMPLE, events) && Resumable(EXAMPLE, s)
    ensures s.proc.Synthesizing? && s.proc.next == 1 && |s.proc.diagnoses| == 2 && s.proc.run == 0 && s.log == []
    ensures s.proc.diagnoses == DiagnoseAll(EXAMPLE, OneEach(["b", "a"]))
  {
    hide Exec, Gos, Inv, DiagnoseAll, OneEach;
    var arrived := ExampleArrivals(EXAMPLE);
    s := ExampleTurns(arrived);
    events := [Arrive("a"), Arrive("b")] + Gos(7);
    ExecAppend(EXAMPLE, START, [Arrive("a"), Arrive("b")], Gos(7));
    AlwaysInv(EXAMPLE, events);
    RunAtWorkIsFound(EXAMPLE, events);
  }

  /** Recovery is not always loss-free: here a run interrupted after its first cluster is marked done
      with one entry, where the crash-free run has two. */
  lemma InterruptedRunCanLoseEntries() returns (events: seq<Event>)
    ensures var s := After(EXAMPLE, events);
      && |s.db.runs| > 0 && s.db.runs[0].status == Done
      && s.db.runs[0].entriesJson != CrashFreeRun(EXAMPLE, ["b", "a"]).entriesJson
  {
    hide Exec, Gos, Inv, DeserializeEntries, SerializeEntries, Resumable;
    var s, before := ExampleLoop();
    var n := CrashInLoop(EXAMPLE, s);
    events := before + ([Crash] + Gos(n));
    ExecAppend(EXAMPLE, START, before, [Crash] + Gos(n));
    ExampleEntries(s.proc.diagnoses);
    EntriesReadBack(SynthesizeAll(EXAMPLE, s.proc.diagnoses[1..]));
    EntriesReadBack(SynthesizeAll(EXAMPLE, s.proc.diagnoses));
    assert CrashFreeRun(EXAMPLE, ["b", "a"]).entriesJson ==
      Some(SerializeEntries(SynthesizeAll(EXAMPLE, s.proc.diagnoses)));
  }

  lemma ExampleEntries(ds: seq<Diagnosis>)
    requires |ds| == 2
    ensures |SynthesizeAll(EXAMPLE, ds[1..])| == 1 && |SynthesizeAll(EXAMPLE, ds)| == 2
  {
    assert ds[1..][..0] == [] && ds[..1][..0] == [] && ds[..|ds| - 1] == ds[..1];
  }
}
