/**
  How a finished run depends on where the crashes fell: read off the history of events, a run is the
  crash-free one exactly when no crash, and no re-reading of its grades, made a difference.
 */
module WatcherCrashes {
  import opened Wrappers
  import opened Payloads
  import opened Watcher
  import opened WatcherSafety
  import opened WatcherRecovery

  // ---------------------------------------------------------------- what a crash can change

  /** In the step-5 loop: the entries of the committed clusters are lost. */
  predicate CrashesInLoop(s: State, e: Event, r: nat) {
    e == Crash && s.proc.Synthesizing? && s.proc.run == r
  }

  /** Before step 2 is committed: the grades will be selected again, by id. */
  predicate CrashesBeforeClusters(s: State, e: Event, r: nat)
    requires InRange(s)
  {
    e == Crash && s.proc.Clustering? && s.proc.run == r && s.db.runs[r].lastStep < 2
  }

  /** The row is made from the grades of a row that was found but not resumed, in another order. */
  predicate CreatesReordered(s: State, e: Event, r: nat) {
    e.Go? && s.proc.Creating? && |s.db.runs| == r && s.proc.rows != s.proc.ids
  }

  /** Between the memory update and its checkpoint: the update will be made again. */
  predicate CrashesUnsaved(s: State, e: Event, r: nat) {
    e == Crash && s.proc.Updated? && s.proc.run == r
  }

  /** How many diagnoses the last crash in the loop of this run left without entries. */
  function LostBefore(w: World, events: seq<Event>, r: nat): nat {
    if events == [] then 0
    else
      var before, e := events[..|events| - 1], events[|events| - 1];
      var s := After(w, before);
      if CrashesInLoop(s, e, r) then s.proc.next else LostBefore(w, before, r)
  }

  /** The clusters of this run are made from grades in the order of a selection by id. */
  predicate Reordered(w: World, events: seq<Event>, r: nat) {
    events != [] &&
    var before, e := events[..|events| - 1], events[|events| - 1];
    var s := After(w, before);
    CrashesBeforeClusters(s, e, r) || CreatesReordered(s, e, r) || Reordered(w, before, r)
  }

  /** How often the entries of this run were appended to the memory without being checkpointed. */
  function Repeats(w: World, events: seq<Event>, r: nat): nat {
    if events == [] then 0
    else
      var before, e := events[..|events| - 1], events[|events| - 1];
      Repeats(w, before, r) + if CrashesUnsaved(After(w, before), e, r) then 1 else 0
  }

  // ---------------------------------------------------------------- trails are told by the events

  predicate WorksOn(proc: Proc, r: nat) { proc.HasRun() && proc.run == r }

  /** What the history says of a run is what its trail says - or, in an attempt that was cut off, what it
      will say when the run is resumed. */
  ghost predicate Told(s: State, r: nat, lost: nat, reordered: bool, repeats: nat)
    requires InRange(s) && r < |s.db.runs|
  {
    var run, t := s.db.runs[r], s.trails[r];
    var inLoop := s.proc.Synthesizing? && s.proc.run == r;
    && (run.status != Failed ==> t.redone == repeats)
    && (run.lastStep >= 5 || inLoop ==> t.from == lost)
    && (run.status == Running && run.lastStep < 5 && !inLoop ==> run.lastClusterIdx == lost)
    && (run.lastStep >= 2 || (s.proc.Clustering? && s.proc.run == r) ==> t.reread == reordered)
    && (run.status == Running && run.lastStep < 2 && !WorksOn(s.proc, r) ==> reordered)
  }

  /** One event, for a run that exists. */
  lemma NextTold(w: World, s: State, e: Event, r: nat, lost: nat, reordered: bool, repeats: nat)
    requires Inv(w, s) && InRange(s) && r < |s.db.runs| && Told(s, r, lost, reordered, repeats)
    ensures var s' := Next(w, s, e);
      && |s.db.runs| <= |s'.db.runs|
      && Told(s', r, if CrashesInLoop(s, e, r) then s.proc.next else lost,
              CrashesBeforeClusters(s, e, r) || CreatesReordered(s, e, r) || reordered,
              repeats + if CrashesUnsaved(s, e, r) then 1 else 0)
  {
    hide Inv, Told, Advance, Fail, Halt;
    match e
    case Go(age) => GoTold(w, s, age, r, lost, reordered, repeats);
    case Raise => RaiseTold(w, s, r, lost, reordered, repeats);
    case Crash => CrashTold(w, s, r, lost, reordered, repeats);
    case Arrive(_) => ArriveTold(w, s, e, r, lost, reordered, repeats);
  }

  lemma ArriveTold(w: World, s: State, e: Event, r: nat, lost: nat, reordered: bool, repeats: nat)
    requires InRange(s) && e.Arrive? && r < |s.db.runs| && Told(s, r, lost, reordered, repeats)
    ensures Told(Next(w, s, e), r, lost, reordered, repeats)
  {
  }

  lemma RaiseTold(w: World, s: State, r: nat, lost: nat, reordered: bool, repeats: nat)
    requires Inv(w, s) && InRange(s) && r < |s.db.runs| && Told(s, r, lost, reordered, repeats)
    ensures |Fail(s).db.runs| == |s.db.runs| && Told(Fail(s), r, lost, reordered, repeats)
  {
    hide Inv;
    if WorksOn(s.proc, r) { AtWorkRow(w, s); }
  }

  lemma CrashTold(w: World, s: State, r: nat, lost: nat, reordered: bool, repeats: nat)
    requires Inv(w, s) && InRange(s) && r < |s.db.runs| && Told(s, r, lost, reordered, repeats)
    ensures |Halt(s).db.runs| == |s.db.runs|
    ensures Told(Halt(s), r, if CrashesInLoop(s, Crash, r) then s.proc.next else lost,
                 CrashesBeforeClusters(s, Crash, r) || reordered,
                 repeats + if CrashesUnsaved(s, Crash, r) then 1 else 0)
  {
    hide Inv;
    if WorksOn(s.proc, r) { AtWorkRow(w, s); }
  }

  lemma AtWorkRow(w: World, s: State)
    requires Inv(w, s) && s.proc.HasRun()
    ensures InRange(s)
    ensures var run := s.db.runs[s.proc.run];
      && run.status == Running
      && (s.proc.Synthesizing? ==> run.lastStep == 4 && s.proc.next == run.lastClusterIdx)
      && (!s.proc.Clustering? ==> run.lastStep >= 2)
      && (s.proc.Extracting? ==> run.lastStep >= 3)
      && (s.proc.Updating? || s.proc.Updated? || s.proc.Marking? || s.proc.Closing? ==> run.lastStep >= 5)
  {
    hide RunOk, GradesOk, LogOk, MemoryOk, DiagnosesOf, EntriesOf, ClustersOf, Known, SynthesizeAll;
  }

  lemma GoTold(w: World, s: State, age: Age, r: nat, lost: nat, reordered: bool, repeats: nat)
    requires Inv(w, s) && InRange(s) && r < |s.db.runs| && Told(s, r, lost, reordered, repeats)
    ensures var s' := Advance(w, s, age);
      |s.db.runs| <= |s'.db.runs| && Told(s', r, lost, reordered, repeats)
  {
    hide Inv, Told;
    if s.proc.HasRun() {
      WorkTold(w, s, age, r, lost, reordered, repeats);
    } else {
      StartTold(w, s, age, r, lost, reordered, repeats);
    }
  }

  lemma StartTold(w: World, s: State, age: Age, r: nat, lost: nat, reordered: bool, repeats: nat)
    requires InRange(s) && !s.proc.HasRun() && r < |s.db.runs| && Told(s, r, lost, reordered, repeats)
    ensures var s' := Advance(w, s, age);
      |s.db.runs| <= |s'.db.runs| && Told(s', r, lost, reordered, repeats)
  {
    hide FreshIds;
  }

  lemma WorkTold(w: World, s: State, age: Age, r: nat, lost: nat, reordered: bool, repeats: nat)
    requires Inv(w, s) && InRange(s) && s.proc.HasRun() && r < |s.db.runs| && Told(s, r, lost, reordered, repeats)
    ensures var s' := Advance(w, s, age);
      |s.db.runs| <= |s'.db.runs| && Told(s', r, lost, reordered, repeats)
  {
    hide Inv, Told;
    if s.proc.Clustering? || s.proc.Diagnosing? {
      EarlyStepTold(w, s, age, r, lost, reordered, repeats);
    } else if s.proc.Extracting? || s.proc.Synthesizing? {
      LoopStepTold(w, s, age, r, lost, reordered, repeats);
    } else {
      LateStepTold(w, s, age, r, lost, reordered, repeats);
    }
  }

  lemma EarlyStepTold(w: World, s: State, age: Age, r: nat, lost: nat, reordered: bool, repeats: nat)
    requires Inv(w, s) && InRange(s) && r < |s.db.runs| && Told(s, r, lost, reordered, repeats)
    requires s.proc.Clustering? || s.proc.Diagnosing?
    ensures var s' := Advance(w, s, age);
      |s.db.runs| <= |s'.db.runs| && Told(s', r, lost, reordered, repeats)
  {
    hide Inv, DiagnoseAll, SerializeClusters, SerializeDiagnoses, SerializeEntries, DeserializeClusters,
      DeserializeDiagnoses, DeserializeEntries, LatestRunning;
    AtWorkRow(w, s);
  }

  lemma LoopStepTold(w: World, s: State, age: Age, r: nat, lost: nat, reordered: bool, repeats: nat)
    requires Inv(w, s) && InRange(s) && r < |s.db.runs| && Told(s, r, lost, reordered, repeats)
    requires s.proc.Extracting? || s.proc.Synthesizing?
    ensures var s' := Advance(w, s, age);
      |s.db.runs| <= |s'.db.runs| && Told(s', r, lost, reordered, repeats)
  {
    hide Inv, DiagnoseAll, SerializeClusters, SerializeDiagnoses, SerializeEntries, DeserializeClusters,
      DeserializeDiagnoses, DeserializeEntries, LatestRunning;
    AtWorkRow(w, s);
  }

  lemma LateStepTold(w: World, s: State, age: Age, r: nat, lost: nat, reordered: bool, repeats: nat)
    requires Inv(w, s) && InRange(s) && r < |s.db.runs| && Told(s, r, lost, reordered, repeats)
    requires s.proc.Updating? || s.proc.Updated? || s.proc.Marking? || s.proc.Closing?
    ensures var s' := Advance(w, s, age);
      |s.db.runs| <= |s'.db.runs| && Told(s', r, lost, reordered, repeats)
  {
    hide Inv, Mark, LatestRunning, Fail;
    AtWorkRow(w, s);
  }

  /** A run in its first state. */
  lemma BornTold(w: World, s: State, e: Event)
    requires InRange(s) && |Next(w, s, e).db.runs| > |s.db.runs|
    ensures |Next(w, s, e).db.runs| == |s.db.runs| + 1
    ensures Told(Next(w, s, e), |s.db.runs|, 0, CreatesReordered(s, e, |s.db.runs|), 0)
  {
    hide DiagnoseAll, SerializeClusters, SerializeDiagnoses, SerializeEntries, DeserializeClusters,
      DeserializeDiagnoses, DeserializeEntries, Mark, LatestRunning, FreshIds;
  }

  lemma AfterNothing(w: World)
    ensures After(w, []) == START
  {
  }

  /** Nothing is told of a run before it exists. */
  lemma {:induction false} NotYetTold(w: World, events: seq<Event>, r: nat)
    requires r >= |After(w, events).db.runs|
    ensures LostBefore(w, events, r) == 0 && !Reordered(w, events, r) && Repeats(w, events, r) == 0
    decreases |events|
  {
    hide Exec, Inv, Next;
    if events != [] {
      var before, e := events[..|events| - 1], events[|events| - 1];
      assert events == before + [e];
      AfterNext(w, before, e);
      AlwaysInv(w, before);
      NextGrows(w, After(w, before), e);
      NotYetTold(w, before, r);
      if e.Go? && After(w, before).proc.Creating? { NothingBorn(w, After(w, before), e); }
    }
  }

  lemma NothingBorn(w: World, s: State, e: Event)
    requires InRange(s) && e.Go? && s.proc.Creating?
    ensures |Next(w, s, e).db.runs| == |s.db.runs| + 1
  {
  }

  lemma {:induction false} EventsTell(w: World, events: seq<Event>, r: nat)
    requires r < |After(w, events).db.runs|
    ensures InRange(After(w, events))
    ensures Told(After(w, events), r, LostBefore(w, events, r), Reordered(w, events, r), Repeats(w, events, r))
    decreases |events|
  {
    hide Exec, Inv, Next, Told;
    AfterNothing(w);
    if events != [] {
      var before, e := events[..|events| - 1], events[|events| - 1];
      assert events == before + [e];
      AfterNext(w, before, e);
      AlwaysInv(w, before);
      var s := After(w, before);
      if r < |s.db.runs| {
        EventsTell(w, before, r);
        NextTold(w, s, e, r, LostBefore(w, before, r), Reordered(w, before, r), Repeats(w, before, r));
      } else {
        BornTold(w, s, e);
        NotYetTold(w, before, r);
      }
    }
  }

  // ---------------------------------------------------------------- finished runs

  /** The row of a finished run whose rows were reordered or not, and whose last start of the step-5 loop
      was at this position. */
  function FinishedRun(w: World, ids: seq<GradeId>, reordered: bool, lost: nat): Run {
    var clusters := w.cluster(if reordered then w.selectOrder(ids) else ids);
    var diagnoses := DiagnoseAll(w, clusters);
    Run(Done, ids, 7, |diagnoses|, Some(SerializeClusters(clusters)), Some(SerializeDiagnoses(diagnoses)),
        Some(SerializeEntries(if lost <= |diagnoses| then SynthesizeAll(w, diagnoses[lost..]) else [])))
  }

  /** A finished run is determined by its grades, by whether they were reordered, and by where the last
      crash in its step-5 loop fell; its entries were appended to the memory once, and once more for every
      crash between that update and its checkpoint. */
  lemma FinishedRunIsDetermined(w: World, events: seq<Event>, r: nat)
    requires r < |After(w, events).db.runs| && After(w, events).db.runs[r].status == Done
    ensures var s := After(w, events); var run := s.db.runs[r];
      && run == FinishedRun(w, run.gradeIds, Reordered(w, events, r), LostBefore(w, events, r))
      && Count(s.log, r) == 1 + Repeats(w, events, r)
  {
    hide Exec, SerializeClusters, SerializeDiagnoses, SerializeEntries, LostBefore, Reordered, Repeats;
    EventsTell(w, events, r);
    RunAt(w, events, r);
    AlwaysInv(w, events);
    LoggedOnce(After(w, events), r);
  }

  /** A finished run is the crash-free run of its grades exactly when clustering does not see the
      difference between the grades in their order and the order they were used in, and the diagnoses
      before the last crash in the loop give no entries. */
  lemma FinishedRunIsCrashFreeExactly(w: World, events: seq<Event>, r: nat)
    requires r < |After(w, events).db.runs| && After(w, events).db.runs[r].status == Done
    ensures var run, lost := After(w, events).db.runs[r], LostBefore(w, events, r);
      var used := w.cluster(if Reordered(w, events, r) then w.selectOrder(run.gradeIds) else run.gradeIds);
      && lost <= |used|
      && (run == CrashFreeRun(w, run.gradeIds) <==>
            used == w.cluster(run.gradeIds) && SynthesizeAll(w, DiagnoseAll(w, used)[..lost]) == [])
  {
    hide Exec, LostBefore, Reordered, Repeats, SynthesizeAll, CrashFreeRun, DiagnoseAll;
    RunAt(w, events, r);
    EventsTell(w, events, r);
    DoneRowExactly(w, After(w, events).db.runs[r], After(w, events).trails[r]);
  }

  /** A crash at this point can be seen in the run. */
  predicate Vulnerable(s: State, r: nat)
    requires InRange(s)
  {
    WorksOn(s.proc, r) && (
      || (s.proc.Clustering? && s.db.runs[r].lastStep < 2)
      || (s.proc.Synthesizing? && s.proc.next > 0)
      || s.proc.Updated?)
  }

  /** No crash falls on a point of this run where it can be seen, and its row was not made from the
      grades of another. */
  ghost predicate CrashedElsewhere(w: World, events: seq<Event>, r: nat) {
    forall k: nat :: k < |events| ==>
      (events[k] == Crash ==> !Vulnerable(After(w, events[..k]), r)) &&
      !CreatesReordered(After(w, events[..k]), events[k], r)
  }

  lemma {:induction false} NothingLost(w: World, events: seq<Event>, r: nat)
    requires CrashedElsewhere(w, events, r)
    ensures LostBefore(w, events, r) == 0 && !Reordered(w, events, r) && Repeats(w, events, r) == 0
    decreases |events|
  {
    hide After;
    if events != [] {
      var n: nat := |events| - 1;
      assert !CreatesReordered(After(w, events[..n]), events[n], r);
      forall k: nat | k < n
        ensures (events[..n][k] == Crash ==> !Vulnerable(After(w, events[..n][..k]), r)) &&
                !CreatesReordered(After(w, events[..n][..k]), events[..n][k], r)
      {
        assert events[..n][..k] == events[..k];
        assert !CreatesReordered(After(w, events[..k]), events[k], r);
      }
      NothingLost(w, events[..n], r);
    }
  }

  /** Crashes - of other runs, between steps 2 and 5, before the first commit of the loop, after the
      memory checkpoint - and raising calls change nothing: the finished run is the crash-free one and its
      entries are in the memory once. */
  lemma CrashesElsewhereAreHarmless(w: World, events: seq<Event>, r: nat)
    requires r < |After(w, events).db.runs| && After(w, events).db.runs[r].status == Done
    requires CrashedElsewhere(w, events, r)
    ensures var s := After(w, events);
      s.db.runs[r] == CrashFreeRun(w, s.db.runs[r].gradeIds) && Count(s.log, r) == 1
  {
    hide After, FinishedRun, LostBefore, Reordered, Repeats, CrashFreeRun;
    NothingLost(w, events, r);
    FinishedRunIsDetermined(w, events, r);
    FinishedRunIsCrashFreeExactly(w, events, r);
    assert SynthesizeAll(w, []) == [];
    assert DiagnoseAll(w, w.cluster(After(w, events).db.runs[r].gradeIds))[..0] == [];
  }

  // ---------------------------------------------------------------- the order of the grades

  lemma GradeIdsStay(w: World, s: State, e: Event)
    requires InRange(s) && !e.Arrive?
    ensures var grades, grades' := s.db.grades, Next(w, s, e).db.grades;
      |grades'| == |grades| && forall k :: 0 <= k < |grades| ==> grades'[k].id == grades[k].id
  {
    hide DiagnoseAll, SerializeClusters, SerializeDiagnoses, SerializeEntries, DeserializeClusters,
      DeserializeDiagnoses, DeserializeEntries, LatestRunning, FreshIds;
  }

  /** The `k`-th event brings this grade for the first time. */
  ghost predicate Brings(events: seq<Event>, k: nat, id: GradeId) {
    k < |events| && events[k] == Arrive(id) && forall m :: 0 <= m < k ==> events[m] != Arrive(id)
  }

  predicate Has(grades: seq<Grade>, id: GradeId) {
    exists k :: 0 <= k < |grades| && grades[k].id == id
  }

  /** The grades are those that arrived, `at` saying when, each once, the newest first. */
  ghost predicate NewestFirst(grades: seq<Grade>, events: seq<Event>, at: seq<nat>) {
    && |at| == |grades| && (forall i, j :: 0 <= i < j < |at| ==> at[i] > at[j])
    && (forall k :: 0 <= k < |at| ==> Brings(events, at[k], grades[k].id))
    && (forall m :: 0 <= m < |events| && events[m].Arrive? ==> Has(grades, events[m].id))
  }

  lemma BringsMore(before: seq<Event>, e: Event, k: nat, id: GradeId)
    requires Brings(before, k, id)
    ensures Brings(before + [e], k, id) && k < |before|
  {
  }

  lemma NothingNewer(grades: seq<Grade>, grades': seq<Grade>, before: seq<Event>, e: Event, at: seq<nat>)
    requires NewestFirst(grades, before, at) && |grades'| == |grades|
    requires forall k :: 0 <= k < |grades| ==> grades'[k].id == grades[k].id
    requires e.Arrive? ==> Has(grades, e.id)
    ensures NewestFirst(grades', before + [e], at)
  {
    hide Brings;
    forall k | 0 <= k < |at| ensures Brings(before + [e], at[k], grades'[k].id) {
      BringsMore(before, e, at[k], grades[k].id);
    }
    forall id | Has(grades, id) ensures Has(grades', id) {
      var k :| 0 <= k < |grades| && grades[k].id == id;
      assert grades'[k].id == id;
    }
  }

  lemma OneNewer(grades: seq<Grade>, before: seq<Event>, id: GradeId, at: seq<nat>)
    requires NewestFirst(grades, before, at) && !Has(grades, id)
    ensures NewestFirst([Grade(id, false)] + grades, before + [Arrive(id)], [|before|] + at)
  {
    hide Brings;
    var grades', events, now := [Grade(id, false)] + grades, before + [Arrive(id)], [|before|] + at;
    forall k | 0 <= k < |at| ensures Brings(events, at[k], grades[k].id) && at[k] < |before| {
      BringsMore(before, Arrive(id), at[k], grades[k].id);
    }
    assert Brings(events, |before|, id) by { BringsLast(before, id); }
    forall x | Has(grades, x) ensures Has(grades', x) {
      var k :| 0 <= k < |grades| && grades[k].id == x;
      assert grades'[k + 1] == grades[k];
    }
    assert grades'[0].id == id;
  }

  lemma BringsLast(before: seq<Event>, id: GradeId)
    requires Arrive(id) !in before
    ensures Brings(before + [Arrive(id)], |before|, id)
  {
  }

  /** After every history the grades are those that arrived, each once, the newest first. */
  lemma {:induction false} GradesAreNewestFirst(w: World, events: seq<Event>) returns (at: seq<nat>)
    ensures NewestFirst(After(w, events).db.grades, events, at)
    decreases |events|
  {
    hide Exec, Inv, Next, NewestFirst, Brings;
    AfterNothing(w);
    if events == [] {
      at := [];
      assert NewestFirst([], [], []) by { NoneNewest(); }
    } else {
      var before, e := events[..|events| - 1], events[|events| - 1];
      assert events == before + [e];
      AfterNext(w, before, e);
      at := GradesAreNewestFirst(w, before);
      var s := After(w, before);
      AlwaysInv(w, before);
      InvInRange(w, s);
      if !e.Arrive? {
        GradeIdsStay(w, s, e);
        NothingNewer(s.db.grades, Next(w, s, e).db.grades, before, e, at);
      } else {
        ArriveAdds(w, s, e.id);
        if Has(s.db.grades, e.id) {
          NothingNewer(s.db.grades, s.db.grades, before, e, at);
        } else {
          OneNewer(s.db.grades, before, e.id, at);
          at := [|before|] + at;
        }
      }
    }
  }

  lemma NoneNewest()
    ensures NewestFirst([], [], [])
  {
  }

  lemma ArriveAdds(w: World, s: State, id: GradeId)
    requires InRange(s)
    ensures Next(w, s, Arrive(id)).db.grades ==
            if Has(s.db.grades, id) then s.db.grades else [Grade(id, false)] + s.db.grades
  {
    if g :| g in s.db.grades && g.id == id {
      var k :| 0 <= k < |s.db.grades| && s.db.grades[k] == g;
      assert s.db.grades[k].id == id;
    }
  }

  // ---------------------------------------------------------------- what a new row covers

  predicate Chosen(proc: Proc) { proc.Selecting? || proc.Creating? }

  /** The selection at this point chose these grades: those of a running row, or the fresh ones. */
  predicate Selects(s: State, e: Event, ids: seq<GradeId>) {
    s.proc == Idle && e.Go? &&
    match LatestRunning(s.db.runs)
    case Some(r) => ids == s.db.runs[r].gradeIds
    case None => ids == FreshIds(s.db.grades)
  }

  /** What the attempt holds before it has a row was selected at some point, and if no row was running then,
      its grades were unprocessed and still are. */
  lemma {:induction false} SelectedAt(w: World, events: seq<Event>) returns (j: nat)
    requires Chosen(After(w, events).proc)
    ensures j < |events| && Selects(After(w, events[..j]), events[j], After(w, events).proc.ids)
    ensures LatestRunning(After(w, events[..j]).db.runs) == None ==>
      forall id :: id in After(w, events).proc.ids ==> Eligible(After(w, events).db.grades, id)
    decreases |events|
  {
    hide Exec, Inv, Next, FreshIds, LatestRunning, Eligible;
    AfterNothing(w);
    j := |events| - 1;
    var before, e := events[..j], events[j];
    assert events == before + [e];
    AfterNext(w, before, e);
    AlwaysInv(w, before);
    InvInRange(w, After(w, before));
    var s := After(w, before);
    if Chosen(s.proc) {
      StaysChosen(w, s, e);
      j := SelectedAt(w, before);
      assert before[..j] == events[..j];
    } else {
      GetsChosen(w, s, e);
      FreshIsNewestHundred(s.db.grades);
    }
  }

  lemma StaysChosen(w: World, s: State, e: Event)
    requires InRange(s) && Chosen(s.proc) && Chosen(Next(w, s, e).proc)
    ensures Next(w, s, e).proc.ids == s.proc.ids
    ensures forall id :: Eligible(s.db.grades, id) ==> Eligible(Next(w, s, e).db.grades, id)
  {
    hide Next, Eligible;
    ChosenKeeps(w, s, e);
    forall id | Eligible(s.db.grades, id) ensures Eligible(Next(w, s, e).db.grades, id) {
      if e.Arrive? { EligibleBefore(Grade(e.id, false), s.db.grades, id); }
    }
  }

  lemma ChosenKeeps(w: World, s: State, e: Event)
    requires InRange(s) && Chosen(s.proc) && Chosen(Next(w, s, e).proc)
    ensures Next(w, s, e).proc.ids == s.proc.ids
    ensures var grades := s.db.grades;
      Next(w, s, e).db.grades in {grades, if e.Arrive? then [Grade(e.id, false)] + grades else grades}
  {
    hide LatestRunning, FreshIds;
  }

  lemma EligibleBefore(grade: Grade, grades: seq<Grade>, id: GradeId)
    requires Eligible(grades, id)
    ensures Eligible([grade] + grades, id)
  {
    var k :| 0 <= k < |grades| && grades[k].id == id && !grades[k].processed;
    assert ([grade] + grades)[k + 1] == grades[k];
  }

  lemma GetsChosen(w: World, s: State, e: Event)
    requires Inv(w, s) && InRange(s) && !Chosen(s.proc) && Chosen(Next(w, s, e).proc)
    ensures Selects(s, e, Next(w, s, e).proc.ids) && Next(w, s, e).db.grades == s.db.grades
  {
    hide Inv, FreshIds, DiagnoseAll, SerializeClusters, SerializeDiagnoses, SerializeEntries, DeserializeClusters,
      DeserializeDiagnoses, DeserializeEntries, Mark, LatestRunning;
    var latest := LatestRunning(s.db.runs);
    if latest.Some? { GradesOfRow(w, s, latest.value); }
  }

  /** Whenever a row is inserted, some earlier selection chose its grades. If no row was running then, they
      were the newest unprocessed grades, a hundred at most, and all of them are unprocessed still. */
  lemma NewRowCoversFreshGrades(w: World, events: seq<Event>, k: nat) returns (j: nat)
    requires k < |events| && events[k].Go? && After(w, events[..k]).proc.Creating?
    ensures var t := After(w, events[..k]);
      var row := After(w, events[..k + 1]).db.runs;
      && j < k && |row| == |t.db.runs| + 1
      && match LatestRunning(After(w, events[..j]).db.runs)
         case Some(r) => row[|t.db.runs|].gradeIds == After(w, events[..j]).db.runs[r].gradeIds
         case None =>
           && row[|t.db.runs|].gradeIds == FreshIds(After(w, events[..j]).db.grades)
           && forall id :: id in row[|t.db.runs|].gradeIds ==> Eligible(t.db.grades, id)
  {
    hide Exec, Inv, FreshIds, LatestRunning, Eligible;
    j := SelectedAt(w, events[..k]);
    assert events[..k + 1] == events[..k] + [events[k]] && events[..k][..j] == events[..j];
    AfterNext(w, events[..k], events[k]);
  }

  // ---------------------------------------------------------------- an attempt that is not interrupted

  lemma {:induction false} GosTellNothing(w: World, events: seq<Event>, n: nat, r: nat)
    requires r < |After(w, events).db.runs|
    ensures LostBefore(w, events + Gos(n), r) == LostBefore(w, events, r)
    ensures Reordered(w, events + Gos(n), r) == Reordered(w, events, r)
    ensures Repeats(w, events + Gos(n), r) == Repeats(w, events, r)
  {
    hide After;
    if n == 0 {
      assert events + Gos(0) == events;
    } else {
      var all := events + Gos(n);
      assert all[..|all| - 1] == events + Gos(n - 1) && all[|all| - 1] == Go(Young);
      CheckpointsOnlyGrow(w, events, Gos(n - 1));
      GosTellNothing(w, events, n - 1, r);
    }
  }

  /** A running row that has grades is taken up by the next attempt. */
  lemma TakenUp(w: World, s: State, r: nat)
    requires Inv(w, s) && s.proc == Idle && InRange(s) && LatestRunning(s.db.runs) == Some(r)
    requires Next(w, s, Go(Young)).proc.Selecting?
    ensures var s' := Exec(w, s, Gos(2));
      s'.proc.HasRun() && s'.proc.run == r && s'.db == s.db
  {
    hide Inv, LatestRunning, FreshIds, Exec, Gos;
    GradesOfRow(w, s, r);
    var s1 := Next(w, s, Go(Young));
    FindRunning(w, s1, r);
    GosStep(w, s, 1);
    GosStep(w, s1, 0);
    GosStep(w, Next(w, s1, Go(Young)), 0);
  }

  lemma GradesOfRow(w: World, s: State, r: nat)
    requires Inv(w, s) && InRange(s) && r < |s.db.runs|
    ensures s.db.runs[r].gradeIds != []
  {
    assert RunOk(w, s.db.runs[r], s.trails[r]);
  }

  lemma ResumedAttempt(w: World, events: seq<Event>, r: nat) returns (n: nat)
    requires After(w, events).proc == Idle && LatestRunning(After(w, events).db.runs) == Some(r)
    requires Next(w, After(w, events), Go(Young)).proc.Selecting?
    ensures var before, after := After(w, events), After(w, events + Gos(n));
      && after.proc == Idle && |after.db.runs| == |before.db.runs|
      && after.db.runs[r] ==
           FinishedRun(w, before.db.runs[r].gradeIds, Reordered(w, events, r), LostBefore(w, events, r))
      && Count(after.log, r) == 1 + Repeats(w, events, r)
  {
    hide Exec, Gos, Inv, LatestRunning, FinishedRun, Next, LostBefore, Reordered, Repeats;
    AlwaysInv(w, events);
    var s := After(w, events);
    TakenUp(w, s, r);
    ExecKeeps(w, s, Gos(2));
    var rest := DriveToEnd(w, Exec(w, s, Gos(2)));
    n := 2 + rest;
    GosAppend(w, s, 2, rest);
    ExecAppend(w, START, events, Gos(n));
    GosTellNothing(w, events, n, r);
    FinishedRunIsDetermined(w, events + Gos(n), r);
  }

  lemma FreshAttempt(w: World, events: seq<Event>) returns (n: nat)
    requires After(w, events).proc == Idle && LatestRunning(After(w, events).db.runs) == None
    requires FreshIds(After(w, events).db.grades) != []
    ensures var before, after := After(w, events), After(w, events + Gos(n));
      && after.proc == Idle && |after.db.runs| == |before.db.runs| + 1
      && after.db.runs[|before.db.runs|] == CrashFreeRun(w, FreshIds(before.db.grades))
      && Count(after.log, |before.db.runs|) == 1
  {
    hide Exec, Gos, Inv, CrashFreeRun, LatestRunning, FreshIds, EntriesLeft;
    AlwaysInv(w, events);
    var s := After(w, events);
    FreshStart(w, s);
    ExecKeeps(w, s, Gos(3));
    var started := Exec(w, s, Gos(3));
    var rest := DriveToEnd(w, started);
    n := 3 + rest;
    GosAppend(w, s, 3, rest);
    ExecAppend(w, START, events, Gos(n));
    FreshRunEnds(w, s, started, Exec(w, started, Gos(rest)), |s.db.runs|);
  }

  /** Without interruption an attempt that has grades to work on finishes one run. If no run was running
      that is a new one: the crash-free run of the fresh grades. Otherwise it is the latest running run,
      finished as the crashes so far left it. Its entries are appended once more than they were. */
  lemma UninterruptedAttempt(w: World, events: seq<Event>) returns (n: nat)
    requires After(w, events).proc == Idle && Next(w, After(w, events), Go(Young)).proc.Selecting?
    ensures var before, after := After(w, events), After(w, events + Gos(n));
      var found := LatestRunning(before.db.runs);
      var r: nat := if found.Some? then found.value else |before.db.runs|;
      && after.proc == Idle && |after.db.runs| == (if found.Some? then |before.db.runs| else |before.db.runs| + 1)
      && after.db.runs[r] ==
           (if found.Some? then
              FinishedRun(w, before.db.runs[r].gradeIds, Reordered(w, events, r), LostBefore(w, events, r))
            else CrashFreeRun(w, FreshIds(before.db.grades)))
      && Count(after.log, r) == 1 + Repeats(w, events, r)
  {
    hide Exec, Gos, FinishedRun, CrashFreeRun, LatestRunning, LostBefore, Reordered, Repeats, FreshIds;
    var s := After(w, events);
    var found := LatestRunning(s.db.runs);
    if found.Some? {
      n := ResumedAttempt(w, events, found.value);
    } else {
      n := FreshAttempt(w, events);
      NotYetTold(w, events, |s.db.runs|);
    }
  }

  // ---------------------------------------------------------------- crashes that can be seen

  /** The crash leaves the run to be taken up by the next attempt. */
  lemma CrashLeavesRun(w: World, events: seq<Event>)
    requires AtWork(w, events)
    ensures var s, s' := After(w, events), After(w, events + [Crash]);
      && s'.proc == Idle && s'.db == s.db && LatestRunning(s'.db.runs) == Some(s.proc.run)
      && s.db.runs[s.proc.run].gradeIds == s.proc.ids && Next(w, s', Go(Young)).proc.Selecting?
  {
    hide After, Inv, LatestRunning, Next;
    AtWorkIsResumable(w, events);
    var s := After(w, events);
    ResumableIsFound(w, s);
    CrashStep(w, s);
    AfterNext(w, events, Crash);
    SelectRunning(w, After(w, events + [Crash]), s.proc.run);
  }

  /** From the second turn of the loop to the memory update. */
  lemma ExampleUpdated() returns (events: seq<Event>)
    ensures AtWork(EXAMPLE, events)
    ensures var s := After(EXAMPLE, events); s.proc.Updated? && s.proc.run == 0 && s.log == [0]
  {
    hide Exec, Gos, Inv, DiagnoseAll, OneEach, SerializeEntries, LatestRunning;
    var s0, before := ExampleLoop();
    ResumableIsFound(EXAMPLE, s0);
    LoopRow(EXAMPLE, s0);
    var s1 := Next(EXAMPLE, s0, Go(Young));
    var s2 := Next(EXAMPLE, s1, Go(Young));
    var s3 := Next(EXAMPLE, s2, Go(Young));
    GosStep(EXAMPLE, s0, 2);
    GosStep(EXAMPLE, s1, 1);
    GosStep(EXAMPLE, s2, 0);
    GosStep(EXAMPLE, s3, 0);
    events := before + Gos(3);
    ExecAppend(EXAMPLE, START, before, Gos(3));
  }

  lemma LoopRow(w: World, s: State)
    requires Inv(w, s) && s.proc.Synthesizing?
    ensures InRange(s) && s.db.runs[s.proc.run].lastStep == 4
  {
    hide Inv;
    AtWorkRow(w, s);
  }

  /** Entries can be appended to the memory twice: here a crash between the update and its checkpoint is
      followed by an attempt that finishes the run. */
  lemma EntriesCanBeAppendedTwice() returns (events: seq<Event>)
    ensures var s := After(EXAMPLE, events);
      |s.db.runs| > 0 && s.db.runs[0].status == Done && Count(s.log, 0) == 2
  {
    hide After, Gos, Inv, LatestRunning, FinishedRun, Next, Told;
    var before := ExampleUpdated();
    var s := After(EXAMPLE, before);
    CrashLeavesRun(EXAMPLE, before);
    var n := UninterruptedAttempt(EXAMPLE, before + [Crash]);
    events := before + [Crash] + Gos(n);
    assert (before + [Crash])[..|before + [Crash]| - 1] == before;
    OnceSoFar(EXAMPLE, before);
    var crashed := before + [Crash];
    FinishedIsDone(EXAMPLE, s.proc.ids, Reordered(EXAMPLE, crashed, 0), LostBefore(EXAMPLE, crashed, 0));
  }

  lemma FinishedIsDone(w: World, ids: seq<GradeId>, reordered: bool, lost: nat)
    ensures FinishedRun(w, ids, reordered, lost).status == Done
  {
  }

  lemma OnceSoFar(w: World, events: seq<Event>)
    requires var s := After(w, events); s.proc.Updated? && s.proc.run == 0 && s.log == [0]
    ensures Repeats(w, events, 0) == 0
  {
    hide After, RunOk, ProcOk, GradesOk, MemoryOk, LostBefore, Reordered, Repeats;
    EventsTell(w, events, 0);
    AlwaysInv(w, events);
    AtWorkRow(w, After(w, events));
    assert Count([0], 0) == 1;
  }

  function Backwards(ids: seq<GradeId>): (r: seq<GradeId>)
    ensures |r| == |ids|
  {
    seq(|ids|, i requires 0 <= i < |ids| => ids[|ids| - 1 - i])
  }

  /** As `EXAMPLE`, but selections by id return the grades in the opposite order. */
  const REVERSING := EXAMPLE.(selectOrder := ids => Backwards(ids))

  /** A finished run can have other clusters than the crash-free run: here a crash before step 2 makes the
      next attempt read the grades in another order. */
  lemma ClustersCanBeReordered() returns (events: seq<Event>)
    ensures var s := After(REVERSING, events);
      && |s.db.runs| > 0 && s.db.runs[0].status == Done
      && s.db.runs[0].clustersJson != CrashFreeRun(REVERSING, ["b", "a"]).clustersJson
  {
    hide After, Gos, Inv, LatestRunning, Next, OneEach, SerializeClusters, LostBefore, Repeats, FreshIds;
    var before := ExampleStarted(REVERSING);
    CrashLeavesRun(REVERSING, before);
    var n := UninterruptedAttempt(REVERSING, before + [Crash]);
    events := before + [Crash] + Gos(n);
    assert (before + [Crash])[..|before + [Crash]| - 1] == before;
    assert Reordered(REVERSING, before + [Crash], 0);
    ClustersReadBack(OneEach(Backwards(["b", "a"])));
    ClustersReadBack(OneEach(["b", "a"]));
    assert OneEach(Backwards(["b", "a"]))[0] != OneEach(["b", "a"])[0] by { TwoClusters(); }
  }

  lemma TwoClusters()
    ensures OneEach(Backwards(["b", "a"]))[0] != OneEach(["b", "a"])[0]
  {
    assert "a"[0] != "b"[0];
  }

  /** Two grades, and a run that has been created for them. */
  lemma ExampleStarted(w: World) returns (events: seq<Event>)
    requires w.selectOrder(["b", "a"]) != []
    ensures AtWork(w, events)
    ensures var s := After(w, events);
      && s.proc.Clustering? && s.proc.run == 0 && s.proc.ids == ["b", "a"] && s.db.runs == [NewRun(["b", "a"])]
  {
    hide Exec, Gos, LatestRunning, FreshIds, OneEach;
    var arrived := ExampleArrivals(w);
    FreshStart(w, arrived);
    events := [Arrive("a"), Arrive("b")] + Gos(3);
    ExecAppend(w, START, [Arrive("a"), Arrive("b")], Gos(3));
  }

  /** Two rows can be running: here a crash leaves one, and the next attempt passes it over. */
  lemma TwoRowsCanBeRunning() returns (events: seq<Event>)
    ensures var runs := After(EXAMPLE, events).db.runs;
      |runs| == 2 && runs[0].status == Running && runs[1].status == Running
  {
    hide After, Gos, Inv, LatestRunning, FreshIds;
    var started := ExampleStarted(EXAMPLE);
    CrashLeavesRun(EXAMPLE, started);
    var crashed := started + [Crash];
    var selected := crashed + [Go(Young)];
    AfterNext(EXAMPLE, crashed, Go(Young));
    var passed := selected + [Go(PassedOver)];
    AfterNext(EXAMPLE, selected, Go(PassedOver));
    events := passed + [Go(Young)];
    AfterNext(EXAMPLE, passed, Go(Young));
  }
}
