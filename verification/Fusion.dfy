/**
  Reciprocal rank fusion (backend/memory/hybrid.py): merges ranked lists by summing, for each result,
  the reciprocals of its shifted ranks.
 */
module Fusion {
  import opened Wrappers
  import opened Ranking
  import opened Results

  /** A result at its rank in one of the lists, the first rank being one. */
  datatype Entry = Entry(rank: nat, result: SearchResult)

  function Ranked(list: seq<SearchResult>): seq<Entry> {
    seq(|list|, i requires 0 <= i < |list| => Entry(i + 1, list[i]))
  }

  function Entries(lists: seq<seq<SearchResult>>): seq<Entry> {
    if lists == [] then [] else Entries(lists[..|lists| - 1]) + Ranked(lists[|lists| - 1])
  }

  function Share(k: int, rank: nat): real {
    if k + rank == 0 then 0.0 else 1.0 / (k + rank) as real
  }

  /** The score of an identifier. */
  function Score(entries: seq<Entry>, k: int, id: string): real {
    if entries == [] then 0.0
    else
      var last := entries[|entries| - 1];
      Score(entries[..|entries| - 1], k, id) + if last.result.chunkId == id then Share(k, last.rank) else 0.0
  }

  function ByScore(entries: seq<Entry>, k: int): string -> real { id => Score(entries, k, id) }

  /** The identifiers in the order of their first appearance. */
  function FirstIds(entries: seq<Entry>): seq<string> {
    if entries == [] then []
    else
      var ids, id := FirstIds(entries[..|entries| - 1]), entries[|entries| - 1].result.chunkId;
      if id in ids then ids else ids + [id]
  }

  /** The first result with the identifier. */
  function FirstOf(entries: seq<Entry>, id: string): Option<SearchResult> {
    if entries == [] then None
    else if FirstOf(entries[..|entries| - 1], id).Some? then FirstOf(entries[..|entries| - 1], id)
    else if entries[|entries| - 1].result.chunkId == id then Some(entries[|entries| - 1].result) else None
  }

  lemma {:induction false} FirstIdsAreTheIds(entries: seq<Entry>)
    ensures forall id :: id in FirstIds(entries) <==> exists i :: 0 <= i < |entries| && entries[i].result.chunkId == id
    ensures forall id :: id in FirstIds(entries) <==> FirstOf(entries, id).Some?
    ensures forall i, j :: 0 <= i < j < |FirstIds(entries)| ==> FirstIds(entries)[i] != FirstIds(entries)[j]
    decreases |entries|
  {
    if entries != [] {
      var front, last := entries[..|entries| - 1], entries[|entries| - 1];
      FirstIdsAreTheIds(front);
      assert forall i :: 0 <= i < |front| ==> front[i] == entries[i];
      forall id ensures id in FirstIds(entries) <==> exists i :: 0 <= i < |entries| && entries[i].result.chunkId == id {
        if id in FirstIds(front) {
          var i :| 0 <= i < |front| && front[i].result.chunkId == id;
          assert entries[i].result.chunkId == id;
        } else if id == last.result.chunkId {
          assert entries[|entries| - 1].result.chunkId == id;
        } else if i :| 0 <= i < |entries| && entries[i].result.chunkId == id {
          assert front[i].result.chunkId == id;
        }
      }
    }
  }

  // ---------------------------------------------------------------- the fusion loop

  /** The dictionaries after some entries: scores in insertion order, and the first result of each. */
  ghost predicate Accumulated(order: seq<string>, scores: map<string, real>, first: map<string, SearchResult>,
                              entries: seq<Entry>, k: int)
  {
    && order == FirstIds(entries)
    && (forall id :: id in scores <==> id in order) && (forall id :: id in first <==> id in order)
    && (forall id :: id in scores ==> scores[id] == Score(entries, k, id))
    && (forall id :: id in first ==> Some(first[id]) == FirstOf(entries, id))
  }

  lemma OneMoreEntry(entries: seq<Entry>, e: Entry, k: int)
    ensures FirstIds(entries + [e]) ==
            if e.result.chunkId in FirstIds(entries) then FirstIds(entries) else FirstIds(entries) + [e.result.chunkId]
    ensures forall id :: Score(entries + [e], k, id) ==
              Score(entries, k, id) + if e.result.chunkId == id then Share(k, e.rank) else 0.0
    ensures forall id :: FirstOf(entries + [e], id) ==
              if FirstOf(entries, id).Some? then FirstOf(entries, id)
              else if e.result.chunkId == id then Some(e.result) else None
  {
    assert (entries + [e])[..|entries|] == entries;
  }

  lemma AccumulatesOne(order: seq<string>, scores: map<string, real>, first: map<string, SearchResult>,
                       entries: seq<Entry>, k: int, rank: nat, r: SearchResult)
    requires Accumulated(order, scores, first, entries, k) && k + rank != 0
    ensures var id := r.chunkId;
      Accumulated(if id in scores then order else order + [id],
                  scores[id := (if id in scores then scores[id] else 0.0) + 1.0 / (k + rank) as real],
                  if id in first then first else first[id := r], entries + [Entry(rank, r)], k)
  {
    hide FirstIds, FirstOf, Score;
    OneMoreEntry(entries, Entry(rank, r), k);
    FirstIdsAreTheIds(entries);
    if r.chunkId !in scores { AbsentScoresNothing(entries, k, r.chunkId); }
  }

  lemma {:induction false} AbsentScoresNothing(entries: seq<Entry>, k: int, id: string)
    requires forall i :: 0 <= i < |entries| ==> entries[i].result.chunkId != id
    ensures Score(entries, k, id) == 0.0
    decreases |entries|
  {
    if entries != [] { AbsentScoresNothing(entries[..|entries| - 1], k, id); }
  }

  lemma RankedOneMore(list: seq<SearchResult>, i: nat)
    requires i < |list|
    ensures Ranked(list[..i + 1]) == Ranked(list[..i]) + [Entry(i + 1, list[i])]
  {
  }

  lemma EntriesOneMore(lists: seq<seq<SearchResult>>, m: nat)
    requires m < |lists|
    ensures Entries(lists[..m + 1]) == Entries(lists[..m]) + Ranked(lists[m])
  {
    assert lists[..m + 1][..m] == lists[..m];
  }

  lemma NothingAccumulated(k: int)
    ensures Accumulated([], map[], map[], [], k) && Entries([]) == [] && Ranked([]) == []
  {
  }

  /** The identifiers in falling order of score, ties in the order of first appearance. */
  function Order(lists: seq<seq<SearchResult>>, k: int): seq<string> {
    SortDesc(FirstIds(Entries(lists)), ByScore(Entries(lists), k))
  }

  /** Merges the lists: each identifier once, as its first result, with its score. A shifted rank of zero
      raises. */
  method ReciprocalRankFusion(lists: seq<seq<SearchResult>>, k: int) returns (merged: Result<seq<SearchResult>, string>)
    ensures merged.Err? <==> k < 0 && exists m :: 0 <= m < |lists| && |lists[m]| >= -k
    ensures merged.Ok? ==>
      && |merged.value| == |Order(lists, k)|
      && forall i :: 0 <= i < |merged.value| ==>
           && FirstOf(Entries(lists), Order(lists, k)[i]).Some?
           && merged.value[i] == FirstOf(Entries(lists), Order(lists, k)[i]).value
                                   .(score := Score(Entries(lists), k, Order(lists, k)[i]))
  {
    hide Accumulated, SortDesc, Entries, Ranked;
    var order: seq<string>, scores: map<string, real>, first: map<string, SearchResult> := [], map[], map[];
    NothingAccumulated(k);
    assert lists[..0] == [];
    for m := 0 to |lists|
      invariant Accumulated(order, scores, first, Entries(lists[..m]), k)
      invariant k < 0 ==> forall l :: 0 <= l < m ==> |lists[l]| < -k
    {
      var list := lists[m];
      assert list[..0] == [];
      assert Entries(lists[..m]) + [] == Entries(lists[..m]);
      for i := 0 to |list|
        invariant Accumulated(order, scores, first, Entries(lists[..m]) + Ranked(list[..i]), k)
        invariant k < 0 ==> i < -k
      {
        var r := list[i];
        if k + i + 1 == 0 { return Err("division by zero"); }
        AccumulatesOne(order, scores, first, Entries(lists[..m]) + Ranked(list[..i]), k, i + 1, r);
        RankedOneMore(list, i);
        assert Entries(lists[..m]) + Ranked(list[..i]) + [Entry(i + 1, r)] ==
               Entries(lists[..m]) + (Ranked(list[..i]) + [Entry(i + 1, r)]);
        order := if r.chunkId in scores then order else order + [r.chunkId];
        var share := 1.0 / (k + i + 1) as real;
        scores := scores[r.chunkId := (if r.chunkId in scores then scores[r.chunkId] else 0.0) + share];
        if r.chunkId !in first { first := first[r.chunkId := r]; }
      }
      assert list[..|list|] == list;
      EntriesOneMore(lists, m);
    }
    assert lists[..|lists|] == lists;
    ghost var entries := Entries(lists);
    var sorted := SortByScore(order, scores, first, entries, k);
    var results: seq<SearchResult> := [];
    for i := 0 to |sorted|
      invariant |results| == i
      invariant forall j :: 0 <= j < i ==>
        && FirstOf(entries, sorted[j]).Some?
        && results[j] == FirstOf(entries, sorted[j]).value.(score := Score(entries, k, sorted[j]))
    {
      results := results + [first[sorted[i]].(score := scores[sorted[i]])];
    }
    return Ok(results);
  }

  method SortByScore(order: seq<string>, scores: map<string, real>, first: map<string, SearchResult>,
                     ghost entries: seq<Entry>, ghost k: int) returns (sorted: seq<string>)
    requires Accumulated(order, scores, first, entries, k)
    ensures sorted == SortDesc(FirstIds(entries), ByScore(entries, k))
    ensures forall id :: id in sorted ==>
      && id in first && id in scores && scores[id] == Score(entries, k, id) && FirstOf(entries, id) == Some(first[id])
  {
    hide SortDesc, Insert, Score, FirstIds, FirstOf;
    var score := id => if id in scores then scores[id] else 0.0;
    sorted := SortDesc(order, score);
    SameRankingSameOrder(order, score, ByScore(entries, k));
    SortSorts(order, score);
    forall id | id in sorted ensures id in order {
      assert id in multiset(sorted);
    }
  }

  // ---------------------------------------------------------------- what the fused order is

  function Ids(list: seq<SearchResult>): (ids: seq<string>)
    ensures |ids| == |list| && forall i :: 0 <= i < |ids| ==> ids[i] == list[i].chunkId
  {
    seq(|list|, i requires 0 <= i < |list| => list[i].chunkId)
  }

  ghost predicate NoDuplicates(ids: seq<string>) {
    forall i, j :: 0 <= i < j < |ids| ==> ids[i] != ids[j]
  }

  /** Every identifier of the lists comes out once, in falling order of score; equal scores keep the order
      of first appearance. */
  lemma OrderIsTheIdsByScore(lists: seq<seq<SearchResult>>, k: int, x: real)
    ensures var order, entries := Order(lists, k), Entries(lists);
      && multiset(order) == multiset(FirstIds(entries)) && NoDuplicates(order)
      && (forall id :: id in order <==> exists i :: 0 <= i < |entries| && entries[i].result.chunkId == id)
      && Descending(order, ByScore(entries, k))
      && Scoring(order, ByScore(entries, k), x) == Scoring(FirstIds(entries), ByScore(entries, k), x)
  {
    hide SortDesc, FirstIds, Scoring, Descending, ByScore;
    var entries := Entries(lists);
    FirstIdsAreTheIds(entries);
    SortSorts(FirstIds(entries), ByScore(entries, k));
    SortIsStable(FirstIds(entries), ByScore(entries, k), x);
    SameItemsNoDuplicates(FirstIds(entries), Order(lists, k));
  }

  /** The identifiers stand in the order of the first entries that have them, and each comes with the result of
      that entry. */
  lemma {:induction false} FirstAppearances(entries: seq<Entry>) returns (at: seq<nat>)
    ensures |at| == |FirstIds(entries)| && forall i, j :: 0 <= i < j < |at| ==> at[i] < at[j]
    ensures forall i :: 0 <= i < |at| ==>
      && at[i] < |entries| && entries[at[i]].result.chunkId == FirstIds(entries)[i]
      && FirstOf(entries, FirstIds(entries)[i]) == Some(entries[at[i]].result)
      && forall j :: 0 <= j < at[i] ==> entries[j].result.chunkId != FirstIds(entries)[i]
    decreases |entries|
  {
    if entries == [] {
      at := [];
    } else {
      var front, last := entries[..|entries| - 1], entries[|entries| - 1];
      assert entries == front + [last];
      at := FirstAppearances(front);
      FirstIdsAreTheIds(front);
      assert forall i :: 0 <= i < |at| ==> FirstIds(front)[i] in FirstIds(front);
      if last.result.chunkId !in FirstIds(front) { at := at + [|front|]; }
    }
  }

  /** The score of an identifier, occurrence by occurrence: each at position `n` of its list, from zero, adds
      the reciprocal of `k + n + 1`. */
  lemma ScoreOfOneMore(lists: seq<seq<SearchResult>>, list: seq<SearchResult>, r: SearchResult, k: int, id: string)
    requires k + |list| + 1 != 0
    ensures Score(Entries(lists + [list + [r]]), k, id) ==
            Score(Entries(lists + [list]), k, id) +
            if r.chunkId == id then 1.0 / (k + |list| + 1) as real else 0.0
    ensures Score(Entries(lists + [[]]), k, id) == Score(Entries(lists), k, id) && Score(Entries([]), k, id) == 0.0
    ensures FirstIds(Entries([])) == []
  {
    hide FirstIds;
    var one, two := lists + [list], lists + [list + [r]];
    EntriesOneMore(one, |lists|);
    EntriesOneMore(two, |lists|);
    EntriesOneMore(lists + [[]], |lists|);
    assert one[..|one|] == one && two[..|two|] == two && (lists + [[]])[..|lists| + 1] == lists + [[]];
    assert one[..|lists|] == lists && two[..|lists|] == lists && (lists + [[]])[..|lists|] == lists;
    assert (list + [r])[..|list|] == list && (list + [r])[..|list| + 1] == list + [r];
    RankedOneMore(list + [r], |list|);
    var before, e := Entries(lists), Entry(|list| + 1, r);
    assert Entries(two) == Entries(one) + [e];
    OneMoreEntry(Entries(one), e, k);
    assert before + Ranked([]) == before;
    NoIds();
  }

  lemma NoIds()
    ensures FirstIds(Entries([])) == []
  {
  }

  lemma SameItemsNoDuplicates(ids: seq<string>, other: seq<string>)
    requires NoDuplicates(ids) && multiset(other) == multiset(ids)
    ensures NoDuplicates(other) && forall id :: id in other <==> id in ids
  {
    forall id ensures id in other <==> id in ids {
      assert id in other <==> id in multiset(other);
      assert id in ids <==> id in multiset(ids);
    }
    forall i, j | 0 <= i < j < |other| ensures other[i] != other[j] {
      CountsOnce(ids, other[i]);
      var a, b := other[..j], other[j..];
      assert other == a + b;
      assert a[i] in multiset(a) && b[0] in multiset(b);
      assert multiset(other) == multiset(a) + multiset(b);
    }
  }

  lemma {:induction false} CountsOnce(ids: seq<string>, id: string)
    requires NoDuplicates(ids)
    ensures multiset(ids)[id] <= 1
    decreases |ids|
  {
    if ids != [] {
      var front, last := ids[..|ids| - 1], ids[|ids| - 1];
      assert ids == front + [last];
      CountsOnce(front, id);
      forall i | 0 <= i < |front| ensures front[i] != last {
        assert ids[i] == front[i];
      }
      assert last !in multiset(front);
    }
  }

  lemma {:induction false} ScoreAppend(a: seq<Entry>, b: seq<Entry>, k: int, id: string)
    ensures Score(a + b, k, id) == Score(a, k, id) + Score(b, k, id)
    decreases |b|
  {
    if b == [] {
      assert a + b == a;
    } else {
      assert (a + b)[..|a + b| - 1] == a + b[..|b| - 1];
      ScoreAppend(a, b[..|b| - 1], k, id);
    }
  }

  lemma FrontHasNoDuplicates(list: seq<SearchResult>)
    requires list != [] && NoDuplicates(Ids(list))
    ensures var n := |list| - 1;
      && Ids(list) == Ids(list[..n]) + [list[n].chunkId] && NoDuplicates(Ids(list[..n]))
      && list[n].chunkId !in Ids(list[..n])
  {
    var n := |list| - 1;
    var front := Ids(list[..n]);
    assert Ids(list) == front + [list[n].chunkId];
    assert forall i :: 0 <= i < n ==> front[i] == Ids(list)[i];
  }

  lemma AbsentFromList(list: seq<SearchResult>, k: int, id: string)
    requires id !in Ids(list)
    ensures Score(Ranked(list), k, id) == 0.0
  {
    forall j | 0 <= j < |list| ensures Ranked(list)[j].result.chunkId != id {
      assert Ids(list)[j] != id;
    }
    AbsentScoresNothing(Ranked(list), k, id);
  }

  /** In a list without duplicates an identifier scores the share of its one rank. */
  lemma {:induction false} OneRankOneShare(list: seq<SearchResult>, k: int, i: nat)
    requires NoDuplicates(Ids(list)) && i < |list|
    ensures Score(Ranked(list), k, list[i].chunkId) == Share(k, i + 1)
    decreases |list|
  {
    var n := |list| - 1;
    assert Ranked(list)[..n] == Ranked(list[..n]);
    assert Ids(list)[i] == list[i].chunkId && Ids(list)[n] == list[n].chunkId;
    if i < n {
      FrontHasNoDuplicates(list);
      OneRankOneShare(list[..n], k, i);
    } else {
      FrontHasNoDuplicates(list);
      AbsentFromList(list[..n], k, list[n].chunkId);
    }
  }

  lemma SharesFall(k: int, a: nat, b: nat)
    requires k >= 0 && 0 < a < b
    ensures Share(k, a) > Share(k, b) > 0.0
  {
    var x, y := (k + a) as real, (k + b) as real;
    assert 0.0 < x < y;
    assert 1.0 / x > 1.0 / y by {
      assert 1.0 / x == y / (x * y) && 1.0 / y == x / (x * y);
      Quotient(x, y, x * y);
    }
  }

  lemma Quotient(a: real, b: real, c: real)
    requires a < b && c > 0.0
    ensures a / c < b / c
  {
  }

  lemma {:induction false} SingleListIds(list: seq<SearchResult>)
    requires NoDuplicates(Ids(list))
    ensures FirstIds(Ranked(list)) == Ids(list)
    decreases |list|
  {
    if list != [] {
      var n := |list| - 1;
      assert Ranked(list)[..n] == Ranked(list[..n]);
      FrontHasNoDuplicates(list);
      SingleListIds(list[..n]);
    }
  }

  /** A single list without duplicates keeps its order. */
  lemma SingleListKeepsItsOrder(list: seq<SearchResult>, k: int)
    requires k >= 0 && NoDuplicates(Ids(list))
    ensures Order([list], k) == Ids(list)
  {
    hide Score, FirstIds, Ranked, SortDesc;
    assert [list][..0] == [];
    assert Entries([list]) == Entries([]) + Ranked(list) == Ranked(list);
    SingleListIds(list);
    forall i, j | 0 <= i < j < |list|
      ensures ByScore(Ranked(list), k)(Ids(list)[i]) >= ByScore(Ranked(list), k)(Ids(list)[j])
    {
      OneRankOneShare(list, k, i);
      OneRankOneShare(list, k, j);
      SharesFall(k, i + 1, j + 1);
    }
    SortedStays(Ids(list), ByScore(Ranked(list), k));
  }

  /** `a` stands ahead of `b` in the list, if `b` is in it at all. */
  ghost predicate Ahead(list: seq<SearchResult>, a: string, b: string) {
    forall j :: 0 <= j < |list| && list[j].chunkId == b ==> exists i :: 0 <= i < j && list[i].chunkId == a
  }

  lemma {:induction false} ScoresArePositive(entries: seq<Entry>, k: int, id: string)
    requires k >= 0 && forall i :: 0 <= i < |entries| ==> entries[i].rank > 0
    ensures Score(entries, k, id) >= 0.0
    decreases |entries|
  {
    if entries != [] {
      ScoresArePositive(entries[..|entries| - 1], k, id);
      SharesFall(k, entries[|entries| - 1].rank, entries[|entries| - 1].rank + 1);
    }
  }

  lemma AheadInOneList(list: seq<SearchResult>, k: int, a: string, b: string)
    requires k >= 0 && NoDuplicates(Ids(list)) && Ahead(list, a, b)
    ensures Score(Ranked(list), k, a) >= Score(Ranked(list), k, b)
    ensures b in Ids(list) ==> Score(Ranked(list), k, a) > Score(Ranked(list), k, b)
  {
    hide Score, NoDuplicates, Share;
    if b in Ids(list) {
      var j :| 0 <= j < |list| && Ids(list)[j] == b;
      var i :| 0 <= i < j && list[i].chunkId == a;
      OneRankOneShare(list, k, i);
      OneRankOneShare(list, k, j);
      SharesFall(k, i + 1, j + 1);
    } else {
      AbsentFromList(list, k, b);
      ScoresArePositive(Ranked(list), k, a);
    }
  }

  lemma {:induction false} AheadScoresHigher(lists: seq<seq<SearchResult>>, k: int, a: string, b: string)
    requires k >= 0 && forall m :: 0 <= m < |lists| ==> NoDuplicates(Ids(lists[m])) && Ahead(lists[m], a, b)
    ensures Score(Entries(lists), k, a) >= Score(Entries(lists), k, b)
    ensures (exists m :: 0 <= m < |lists| && b in Ids(lists[m])) ==>
              Score(Entries(lists), k, a) > Score(Entries(lists), k, b)
    decreases |lists|
  {
    hide Score, Ranked, NoDuplicates, Ahead;
    if lists == [] {
      AbsentScoresNothing([], k, a);
      AbsentScoresNothing([], k, b);
    } else {
      var n := |lists| - 1;
      AheadScoresHigher(lists[..n], k, a, b);
      AheadInOneList(lists[n], k, a, b);
      ScoreAppend(Entries(lists[..n]), Ranked(lists[n]), k, a);
      ScoreAppend(Entries(lists[..n]), Ranked(lists[n]), k, b);
      if m :| 0 <= m < |lists| && b in Ids(lists[m]) {
        if m < n { assert lists[..n][m] == lists[m]; }
      }
    }
  }

  /** Of two identifiers, one ahead of the other wherever the other is listed comes out first. */
  lemma AheadEverywhereComesFirst(lists: seq<seq<SearchResult>>, k: int, a: string, b: string, i: nat, j: nat)
    requires k >= 0 && forall m :: 0 <= m < |lists| ==> NoDuplicates(Ids(lists[m])) && Ahead(lists[m], a, b)
    requires exists m :: 0 <= m < |lists| && b in Ids(lists[m])
    requires i < |Order(lists, k)| && j < |Order(lists, k)| && Order(lists, k)[i] == a && Order(lists, k)[j] == b
    ensures Score(Entries(lists), k, a) > Score(Entries(lists), k, b) && i < j
  {
    hide Score, SortDesc, Entries, Scoring, NoDuplicates, Ahead, Ids;
    AheadScoresHigher(lists, k, a, b);
    OrderIsTheIdsByScore(lists, k, 0.0);
    assert ByScore(Entries(lists), k)(a) > ByScore(Entries(lists), k)(b);
  }

  // ---------------------------------------------------------------- lists of one result each

  /** How often the identifier occurs. */
  function Frequency(results: seq<SearchResult>, id: string): nat {
    if results == [] then 0
    else Frequency(results[..|results| - 1], id) + if results[|results| - 1].chunkId == id then 1 else 0
  }

  function Singletons(results: seq<SearchResult>): seq<seq<SearchResult>> {
    seq(|results|, i requires 0 <= i < |results| => [results[i]])
  }

  lemma SingletonsOneMore(results: seq<SearchResult>)
    requires results != []
    ensures var n := |results| - 1;
      Entries(Singletons(results)) == Entries(Singletons(results[..n])) + [Entry(1, results[n])]
  {
    var n := |results| - 1;
    assert Singletons(results)[..n] == Singletons(results[..n]);
    assert Ranked([results[n]]) == [Entry(1, results[n])];
  }

  lemma {:induction false} SingletonScores(results: seq<SearchResult>, k: int, id: string)
    ensures Score(Entries(Singletons(results)), k, id) == Frequency(results, id) as real * Share(k, 1)
    decreases |results|
  {
    hide Score, Entries, Singletons, Share, Frequency, FirstIds, FirstOf;
    FrequencyOneMore(results, id);
    if results == [] {
      NoSingletons(k, id);
    } else {
      var n := |results| - 1;
      SingletonScores(results[..n], k, id);
      SingletonsOneMore(results);
      OneMoreEntry(Entries(Singletons(results[..n])), Entry(1, results[n]), k);
      Plus(Frequency(results[..n], id) as real, Share(k, 1));
    }
  }

  lemma FrequencyOneMore(results: seq<SearchResult>, id: string)
    ensures Frequency(results, id) ==
            if results == [] then 0
            else Frequency(results[..|results| - 1], id) + if results[|results| - 1].chunkId == id then 1 else 0
  {
  }

  lemma NoSingletons(k: int, id: string)
    ensures Score(Entries(Singletons([])), k, id) == 0.0
  {
  }

  lemma Plus(a: real, b: real)
    ensures (a + 1.0) * b == a * b + b
  {
  }

  /** Results fused each as a list of its own come out by frequency, ties in the order of first
      appearance. */
  lemma SingletonsRankByFrequency(results: seq<SearchResult>, k: int)
    requires k >= 0
    ensures Order(Singletons(results), k) ==
            SortDesc(FirstIds(Entries(Singletons(results))), id => Frequency(results, id) as real)
  {
    hide SortDesc, Entries, Score, Frequency, FirstIds, Singletons;
    var entries := Entries(Singletons(results));
    var byFrequency := id => Frequency(results, id) as real;
    forall a, b ensures ByScore(entries, k)(a) >= ByScore(entries, k)(b) <==> byFrequency(a) >= byFrequency(b) {
      SingletonScores(results, k, a);
      SingletonScores(results, k, b);
      SharesFall(k, 1, 2);
      Scaled(Frequency(results, a) as real, Frequency(results, b) as real, Share(k, 1));
    }
    SameRankingSameOrder(FirstIds(entries), ByScore(entries, k), byFrequency);
  }

  lemma Scaled(a: real, b: real, c: real)
    requires c > 0.0
    ensures a * c >= b * c <==> a >= b
  {
    if a >= b { assert (a - b) * c >= 0.0; } else { assert (b - a) * c > 0.0; }
  }
}
