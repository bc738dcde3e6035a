/**
  Greedy clustering of poorly answered queries (backend/watcher/clustering.py): each grade that is not in
  a cluster yet leads a new one and takes in every later free grade similar enough to it.
 */
module Clustering {
  import opened Wrappers
  import opened Results
  import opened Sequences
  import opened Payloads

  datatype Grade = Grade(id: string, query: string, retrievalGrade: Option<real>, chunkIds: seq<string>)

  /** The queries' vectors, the similarity of two normalised vectors, how much of it puts two queries
      together, and the order in which the runtime lists a set. */
  datatype Space = Space(vecs: seq<Vector>, sim: (Vector, Vector) -> real, threshold: real,
                         listing: set<string> -> seq<string>) {
    predicate Similar(i: nat, j: nat)
      requires i < |vecs| && j < |vecs|
    {
      sim(vecs[i], vecs[j]) >= threshold
    }
  }

  /** The leader of grade `i`: the earliest leader before it that is similar enough, or itself. */
  function LeaderOf(s: Space, i: nat): (leader: nat)
    requires i < |s.vecs|
    ensures leader <= i
    decreases i, i + 1
  {
    LeaderFrom(s, i, 0)
  }

  function LeaderFrom(s: Space, i: nat, from: nat): (leader: nat)
    requires from <= i < |s.vecs|
    ensures from <= leader <= i
    decreases i, i - from
  {
    if from == i then i
    else if LeaderOf(s, from) == from && s.Similar(from, i) then from
    else LeaderFrom(s, i, from + 1)
  }

  predicate Leads(s: Space, i: nat) {
    i < |s.vecs| && LeaderOf(s, i) == i
  }

  lemma {:induction false} LeaderFromIsEarliest(s: Space, i: nat, from: nat)
    requires from <= i < |s.vecs|
    ensures var leader := LeaderFrom(s, i, from);
      && (leader < i ==> Leads(s, leader) && s.Similar(leader, i))
      && forall l :: from <= l < leader && Leads(s, l) ==> !s.Similar(l, i)
    decreases i - from
  {
    if from < i && !(LeaderOf(s, from) == from && s.Similar(from, i)) {
      LeaderFromIsEarliest(s, i, from + 1);
    }
  }

  /** Every grade goes to the earliest leader similar enough to it, and leads its own cluster when there is
      none. */
  lemma EarliestLeaderTakesIt(s: Space, i: nat)
    requires i < |s.vecs|
    ensures var leader := LeaderOf(s, i);
      && Leads(s, leader) && (leader < i ==> s.sim(s.vecs[leader], s.vecs[i]) >= s.threshold)
      && forall l :: 0 <= l < leader && Leads(s, l) ==> s.sim(s.vecs[l], s.vecs[i]) < s.threshold
  {
    LeaderFromIsEarliest(s, i, 0);
  }

  /** No leader is similar to an earlier one. */
  lemma LeadersAreApart(s: Space, l: nat, m: nat)
    requires l < m && Leads(s, l) && Leads(s, m)
    ensures s.sim(s.vecs[l], s.vecs[m]) < s.threshold
  {
    EarliestLeaderTakesIt(s, m);
  }

  /** The members of a leader's cluster among the first `n`, in order. */
  function Members(s: Space, leader: nat, n: nat): (members: seq<nat>)
    requires n <= |s.vecs|
    ensures forall i: nat :: i in members <==> i < n && LeaderOf(s, i) == leader
    ensures forall a, b :: 0 <= a < b < |members| ==> members[a] < members[b]
  {
    if n == 0 then []
    else
      var before := Members(s, leader, n - 1);
      assert forall a :: 0 <= a < |before| ==> before[a] in before;
      if LeaderOf(s, n - 1) == leader then before + [n - 1] else before
  }

  /** The leaders among the first `n`, in order. */
  function Leaders(s: Space, n: nat): (leaders: seq<nat>)
    requires n <= |s.vecs|
    ensures forall i: nat :: i in leaders <==> i < n && Leads(s, i)
    ensures forall a, b :: 0 <= a < b < |leaders| ==> leaders[a] < leaders[b]
  {
    if n == 0 then []
    else
      var before := Leaders(s, n - 1);
      assert forall a :: 0 <= a < |before| ==> before[a] in before;
      if Leads(s, n - 1) then before + [n - 1] else before
  }

  /** Every grade is in exactly one cluster. */
  lemma EachGradeIsInOneCluster(s: Space, i: nat)
    requires i < |s.vecs|
    ensures exists c :: 0 <= c < |Leaders(s, |s.vecs|)| && i in Members(s, Leaders(s, |s.vecs|)[c], |s.vecs|)
    ensures forall c, d :: 0 <= c < d < |Leaders(s, |s.vecs|)| ==>
      !(i in Members(s, Leaders(s, |s.vecs|)[c], |s.vecs|) && i in Members(s, Leaders(s, |s.vecs|)[d], |s.vecs|))
  {
    hide Members, Leaders, LeaderOf;
    EarliestLeaderTakesIt(s, i);
    var leaders := Leaders(s, |s.vecs|);
    assert LeaderOf(s, i) in leaders;
    var c :| 0 <= c < |leaders| && leaders[c] == LeaderOf(s, i);
    assert i in Members(s, leaders[c], |s.vecs|);
    forall c, d | 0 <= c < d < |leaders|
      ensures !(i in Members(s, leaders[c], |s.vecs|) && i in Members(s, leaders[d], |s.vecs|))
    {
      assert leaders[c] < leaders[d];
    }
  }

  // ---------------------------------------------------------------- the loops

  function Queries(grades: seq<Grade>, members: seq<nat>): seq<string>
    requires forall i :: i in members ==> i < |grades|
  {
    seq(|members|, i requires 0 <= i < |members| => assert members[i] in members; grades[members[i]].query)
  }

  function GradeIds(grades: seq<Grade>, members: seq<nat>): seq<string>
    requires forall i :: i in members ==> i < |grades|
  {
    seq(|members|, i requires 0 <= i < |members| => assert members[i] in members; grades[members[i]].id)
  }

  function ToSet(items: seq<string>): set<string> {
    set x | x in items
  }

  function ChunkIds(grades: seq<Grade>, members: seq<nat>): set<string>
    requires forall i :: i in members ==> i < |grades|
  {
    set i, x | i in members && x in grades[i].chunkIds :: x
  }

  function GradeOrZero(grade: Grade): real {
    if grade.retrievalGrade.Some? then grade.retrievalGrade.value else 0.0
  }

  /** The cluster of a leader with these members; its average is the leader's grade. */
  function ClusterOf(grades: seq<Grade>, s: Space, leader: nat, members: seq<nat>): QueryCluster
    requires leader < |grades| && forall i :: i in members ==> i < |grades|
  {
    QueryCluster(grades[leader].query, Queries(grades, members), GradeIds(grades, members), GradeOrZero(grades[leader]),
                 s.listing(ChunkIds(grades, members)))
  }

  /** The lists collected for the members seen so far. */
  ghost predicate Collected(queries: seq<string>, gradeIds: seq<string>, chunkIds: seq<string>, grades: seq<Grade>,
                            members: seq<nat>)
  {
    && (forall i :: i in members ==> i < |grades|)
    && queries == Queries(grades, members) && gradeIds == GradeIds(grades, members)
    && ToSet(chunkIds) == ChunkIds(grades, members)
  }

  lemma CollectsOne(queries: seq<string>, gradeIds: seq<string>, chunkIds: seq<string>, grades: seq<Grade>,
                    members: seq<nat>, j: nat)
    requires Collected(queries, gradeIds, chunkIds, grades, members) && j < |grades|
    ensures Collected(queries + [grades[j].query], gradeIds + [grades[j].id], chunkIds + grades[j].chunkIds, grades,
                      members + [j])
  {
    var more := members + [j];
    assert forall i :: i in more <==> i in members || i == j;
    assert ChunkIds(grades, more) == ChunkIds(grades, members) + ToSet(grades[j].chunkIds);
    assert ToSet(chunkIds + grades[j].chunkIds) == ToSet(chunkIds) + ToSet(grades[j].chunkIds);
    assert Queries(grades, more) == Queries(grades, members) + [grades[j].query];
    assert GradeIds(grades, more) == GradeIds(grades, members) + [grades[j].id];
  }

  lemma NothingCollected(grades: seq<Grade>)
    ensures Collected([], [], [], grades, [])
  {
  }

  lemma {:induction false} NoMembersBefore(s: Space, leader: nat, n: nat)
    requires n <= leader < |s.vecs|
    ensures Members(s, leader, n) == []
  {
    HasItem(Members(s, leader, n));
  }

  /** Which grades are taken when leader `i` has looked at the grades before `j`. */
  ghost predicate Marks(taken: seq<bool>, s: Space, i: nat, j: nat) {
    && |taken| == |s.vecs|
    && forall m :: 0 <= m < |taken| ==> (taken[m] <==> LeaderOf(s, m) < i || (LeaderOf(s, m) == i && m < j))
  }

  /** A free grade that reaches leader `i` belongs to it exactly when it is similar. */
  lemma MarksNext(taken: seq<bool>, s: Space, i: nat, j: nat)
    requires Marks(taken, s, i, j) && i < j < |taken| && Leads(s, i)
    ensures taken[j] ==> Marks(taken, s, i, j + 1) && LeaderOf(s, j) != i
    ensures !taken[j] ==> (s.Similar(i, j) <==> LeaderOf(s, j) == i)
    ensures !taken[j] ==> Marks(if s.Similar(i, j) then taken[j := true] else taken, s, i, j + 1)
  {
    hide LeaderOf;
    EarliestLeaderTakesIt(s, j);
  }

  lemma MarksDone(taken: seq<bool>, s: Space, i: nat)
    requires i < |taken|
    ensures Marks(taken, s, i, |taken|) ==> Marks(taken, s, i + 1, 0)
    ensures Marks(taken, s, i, 0) && taken[i] ==> !Leads(s, i) && Marks(taken, s, i + 1, 0)
    ensures Marks(taken, s, i, 0) && !taken[i] ==> Leads(s, i) && Marks(taken[i := true], s, i, i + 1)
  {
    hide LeaderOf;
    forall m | 0 <= m < |s.vecs| ensures Leads(s, LeaderOf(s, m)) && LeaderOf(s, m) <= m {
      EarliestLeaderTakesIt(s, m);
    }
  }

  /** The clusters of the leaders among the first `i` grades, each complete. */
  ghost predicate Clustered(clusters: seq<QueryCluster>, grades: seq<Grade>, s: Space, i: nat)
    requires |s.vecs| == |grades| && i <= |grades|
  {
    var leaders := Leaders(s, i);
    && |clusters| == |leaders|
    && forall c :: 0 <= c < |clusters| ==>
         leaders[c] in leaders && clusters[c] == ClusterOf(grades, s, leaders[c], Members(s, leaders[c], |grades|))
  }

  lemma ClusteredNext(clusters: seq<QueryCluster>, grades: seq<Grade>, s: Space, i: nat)
    requires |s.vecs| == |grades| && i < |grades| && Clustered(clusters, grades, s, i)
    ensures !Leads(s, i) ==> Clustered(clusters, grades, s, i + 1)
    ensures Clustered(clusters + [ClusterOf(grades, s, i, Members(s, i, |grades|))], grades, s, i + 1) || !Leads(s, i)
  {
    hide ClusterOf, Members, LeaderOf, Leaders;
    LeadersNext(s, i);
    var leaders := Leaders(s, i);
    assert forall x :: x in leaders ==> x in Leaders(s, i + 1);
  }

  lemma LeadersNext(s: Space, i: nat)
    requires i < |s.vecs|
    ensures Leaders(s, i + 1) == if Leads(s, i) then Leaders(s, i) + [i] else Leaders(s, i)
  {
    hide LeaderOf, Leads;
  }

  /** The space of the first `n` vectors. */
  function First(s: Space, n: nat): Space
    requires n <= |s.vecs|
  {
    s.(vecs := s.vecs[..n])
  }

  /** Clusters the grades. With fewer vectors than grades the first cluster's loop reads past them and
      raises; without any vector nothing is clustered. */
  method ClusterPoorQueries(grades: seq<Grade>, s: Space) returns (outcome: Result<seq<QueryCluster>, string>)
    ensures |s.vecs| >= |grades| ==>
      outcome.Ok? && Clustered(outcome.value, grades, First(s, |grades|), |grades|)
    ensures |s.vecs| < |grades| ==>
      outcome == if s.vecs == [] then Ok([]) else Err("list index out of range")
  {
    hide LeaderOf, Members, ClusterOf, Marks, Leads;
    if grades == [] { return Ok([]); }
    var clusters: seq<QueryCluster> := [];
    var n := if |s.vecs| < |grades| then |s.vecs| else |grades|;
    ghost var v := First(s, n);
    var taken := new bool[|grades|](_ => false);
    NoMarks(taken[..n], v);
    assert n == |grades| ==> taken[..n] == taken[..];
    for i := 0 to n
      invariant n < |grades| ==> i == 0 && clusters == [] && forall m :: 0 <= m < |grades| ==> !taken[m]
      invariant n == |grades| ==> Marks(taken[..], v, i, 0) && Clustered(clusters, grades, v, i)
    {
      if n == |grades| {
        MarksDone(taken[..], v, i);
        ClusteredNext(clusters, grades, v, i);
      }
      if taken[i] { continue; }
      var cluster := TakeMembers(grades, s, i, taken, v);
      if cluster.Err? { return Err(cluster.error); }
      clusters := clusters + [cluster.value];
    }
    return Ok(clusters);
  }

  lemma NoMarks(taken: seq<bool>, s: Space)
    requires |taken| == |s.vecs| && forall m :: 0 <= m < |taken| ==> !taken[m]
    ensures Marks(taken, s, 0, 0)
  {
    hide LeaderOf;
  }

  lemma MembersNext(s: Space, i: nat, j: nat)
    requires i < j < |s.vecs| && Leads(s, i)
    ensures Members(s, i, j + 1) == if LeaderOf(s, j) == i then Members(s, i, j) + [j] else Members(s, i, j)
  {
    hide LeaderOf;
  }

  lemma MembersFirst(s: Space, i: nat)
    requires Leads(s, i)
    ensures Members(s, i, i + 1) == [i]
  {
    hide LeaderOf;
    NoMembersBefore(s, i, i);
  }

  /** The cluster led by grade `i`, from the grades that are still free; a free grade without a vector
      raises. */
  method TakeMembers(grades: seq<Grade>, s: Space, i: nat, taken: array<bool>, ghost v: Space)
    returns (cluster: Result<QueryCluster, string>)
    requires |v.vecs| <= |s.vecs| && v == First(s, |v.vecs|) && i < |v.vecs| <= |grades| == taken.Length && !taken[i]
    requires |v.vecs| < |grades| ==> |v.vecs| == |s.vecs| && !taken[|s.vecs|]
    requires |v.vecs| == |grades| ==> Leads(v, i) && Marks(taken[..], v, i, 0)
    modifies taken
    ensures |v.vecs| < |grades| ==> cluster == Err("list index out of range")
    ensures |v.vecs| == |grades| ==>
      cluster == Ok(ClusterOf(grades, v, i, Members(v, i, |grades|))) && Marks(taken[..], v, i + 1, 0)
  {
    hide LeaderOf, Members, Marks, Collected, Leads;
    ghost var enough := |v.vecs| == |grades|;
    if enough {
      NothingCollected(grades);
      CollectsOne([], [], [], grades, [], i);
      MembersFirst(v, i);
      MarksDone(taken[..], v, i);
    }
    var queries, gradeIds, chunkIds := [grades[i].query], [grades[i].id], grades[i].chunkIds;
    assert [] + [grades[i].query] == queries && [] + [grades[i].id] == gradeIds && [] + chunkIds == chunkIds;
    assert [] + [i] == [i];
    ghost var before := taken[..];
    taken[i] := true;
    assert taken[..] == before[i := true];
    for j := i + 1 to |grades|
      invariant enough ==> Marks(taken[..], v, i, j)
      invariant enough ==> Collected(queries, gradeIds, chunkIds, grades, Members(v, i, j))
      invariant !enough ==> j <= |s.vecs| && !taken[|s.vecs|]
    {
      if enough {
        MarksNext(taken[..], v, i, j);
        MembersNext(v, i, j);
      }
      if taken[j] { continue; }
      if j >= |s.vecs| { return Err("list index out of range"); }
      if s.Similar(i, j) {
        if enough { CollectsOne(queries, gradeIds, chunkIds, grades, Members(v, i, j), j); }
        queries := queries + [grades[j].query];
        gradeIds := gradeIds + [grades[j].id];
        chunkIds := chunkIds + grades[j].chunkIds;
        before := taken[..];
        taken[j] := true;
        assert taken[..] == before[j := true];
      }
    }
    MarksDone(taken[..], v, i);
    CollectedCluster(queries, gradeIds, chunkIds, grades, v, i, Members(v, i, |grades|));
    cluster := Ok(QueryCluster(grades[i].query, queries, gradeIds, GradeOrZero(grades[i]), s.listing(ToSet(chunkIds))));
  }

  lemma CollectedCluster(queries: seq<string>, gradeIds: seq<string>, chunkIds: seq<string>, grades: seq<Grade>,
                         s: Space, leader: nat, members: seq<nat>)
    requires leader < |grades| && Collected(queries, gradeIds, chunkIds, grades, members)
    ensures (forall i :: i in members ==> i < |grades|) && ClusterOf(grades, s, leader, members) ==
      QueryCluster(grades[leader].query, queries, gradeIds, GradeOrZero(grades[leader]), s.listing(ToSet(chunkIds)))
  {
  }

  // ---------------------------------------------------------------- what a cluster holds

  /** Each cluster lists its members' queries and identifiers in their order, is represented by its leader's
      query, and has exactly the chunks retrieved for its members. */
  lemma ClustersHoldTheirMembers(clusters: seq<QueryCluster>, grades: seq<Grade>, s: Space, c: nat)
    requires |s.vecs| == |grades| && Clustered(clusters, grades, s, |grades|) && c < |clusters|
    ensures |clusters| == |Leaders(s, |grades|)|
    ensures var leader := Leaders(s, |grades|)[c];
      leader < |grades| && var members := Members(s, leader, |grades|);
      && members != [] && members[0] == leader && clusters[c].representativeQuery == grades[leader].query
      && (grades[leader].retrievalGrade == None ==> clusters[c].avgRetrievalGrade == 0.0)
      && (grades[leader].retrievalGrade.Some? ==> grades[leader].retrievalGrade == Some(clusters[c].avgRetrievalGrade))
      && |clusters[c].queries| == |members| == |clusters[c].gradeIds|
      && (forall a :: 0 <= a < |members| ==>
            members[a] < |grades| && clusters[c].queries[a] == grades[members[a]].query &&
            clusters[c].gradeIds[a] == grades[members[a]].id)
      && exists chunks :: clusters[c].retrievedChunkIds == s.listing(chunks) &&
           forall x :: x in chunks <==> exists a :: 0 <= a < |members| && x in grades[members[a]].chunkIds
  {
    hide LeaderOf, Members, Leaders;
    var leader := Leaders(s, |grades|)[c];
    assert leader in Leaders(s, |grades|);
    var members := Members(s, leader, |grades|);
    assert leader in members;
    LeaderIsFirst(s, leader);
    forall a | 0 <= a < |members| ensures members[a] < |grades| { assert members[a] in members; }
    var chunks := ChunkIds(grades, members);
    forall x ensures x in chunks <==> exists a :: 0 <= a < |members| && x in grades[members[a]].chunkIds {
      if x in chunks {
        var i :| i in members && x in grades[i].chunkIds;
        var a :| 0 <= a < |members| && members[a] == i;
      }
    }
    assert clusters[c].retrievedChunkIds == s.listing(chunks);
  }

  lemma LeaderIsFirst(s: Space, leader: nat)
    requires Leads(s, leader)
    ensures var members := Members(s, leader, |s.vecs|); members != [] && members[0] == leader
  {
    hide LeaderOf, Members;
    var members := Members(s, leader, |s.vecs|);
    assert leader in members && members[0] in members;
    EarliestLeaderTakesIt(s, members[0]);
    assert members[0] >= leader by { assert LeaderOf(s, members[0]) == leader; }
    var a :| 0 <= a < |members| && members[a] == leader;
  }

  // ---------------------------------------------------------------- the average

  /** The grades of the members, summed. */
  function GradeSum(grades: seq<Grade>, members: seq<nat>): real
    requires forall i :: i in members ==> i < |grades|
  {
    if members == [] then 0.0
    else
      var front, last := members[..|members| - 1], members[|members| - 1];
      assert last in members && forall i :: i in front ==> i in members;
      GradeSum(grades, front) + GradeOrZero(grades[last])
  }

  /** A cluster's average is the mean of its members' grades exactly when they sum to as many times the
      leader's grade as there are members. */
  lemma AverageIsTheMeanExactly(clusters: seq<QueryCluster>, grades: seq<Grade>, s: Space, c: nat)
    requires |s.vecs| == |grades| && Clustered(clusters, grades, s, |grades|) && c < |clusters|
    ensures var leader := Leaders(s, |grades|)[c];
      leader < |grades| && var members := Members(s, leader, |grades|);
      members != [] && (forall i :: i in members ==> i < |grades|) &&
      (clusters[c].avgRetrievalGrade == GradeSum(grades, members) / |members| as real <==>
       GradeSum(grades, members) == |members| as real * GradeOrZero(grades[leader]))
  {
    hide LeaderOf, Members, Leaders, GradeSum, GradeOrZero, ClusterOf;
    var leader := Leaders(s, |grades|)[c];
    assert leader in Leaders(s, |grades|);
    var members := Members(s, leader, |grades|);
    assert leader in members;
    LeadersAverage(grades, s, leader, members);
    Divides(GradeSum(grades, members), |members| as real, GradeOrZero(grades[leader]));
  }

  lemma LeadersAverage(grades: seq<Grade>, s: Space, leader: nat, members: seq<nat>)
    requires leader < |grades| && forall i :: i in members ==> i < |grades|
    ensures ClusterOf(grades, s, leader, members).avgRetrievalGrade == GradeOrZero(grades[leader])
  {
  }

  lemma Divides(sum: real, n: real, x: real)
    requires n > 0.0
    ensures x == sum / n <==> sum == n * x
  {
    if sum == n * x { assert sum / n == x * (n / n); }
  }

  lemma TwoSimilar(s: Space)
    requires |s.vecs| == 2 && s.Similar(0, 1)
    ensures Leaders(s, 2) == [0] && Members(s, 0, 2) == [0, 1]
  {
    assert LeaderOf(s, 0) == 0 && LeaderOf(s, 1) == 0;
    LeadersNext(s, 0);
    LeadersNext(s, 1);
    MembersFirst(s, 0);
    MembersNext(s, 0, 1);
  }

  /** Two similar queries graded differently: their cluster's average is the first one's grade. */
  lemma AverageCanMissTheMean() returns (grades: seq<Grade>, s: Space, cluster: QueryCluster)
    ensures |s.vecs| == |grades| == 2 && Clustered([cluster], grades, s, 2)
    ensures cluster.gradeIds == ["a", "b"] && cluster.avgRetrievalGrade == 1.0
    ensures GradeSum(grades, [0, 1]) / 2.0 == 0.5
  {
    hide LeaderOf, Leaders, Members;
    grades := [Grade("a", "q", Some(1.0), []), Grade("b", "r", Some(0.0), [])];
    s := Space([[], []], (_, _) => 1.0, 0.8, _ => []);
    TwoSimilar(s);
    cluster := ClusterOf(grades, s, 0, [0, 1]);
    assert [0, 1][..1] == [0] && [0][..0] == [];
    assert GradeSum(grades, [0]) == 1.0;
  }
}
