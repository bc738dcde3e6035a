/**
  Maximal marginal relevance (backend/memory/mmr.py): picks results one at a time, each the best
  compromise between relevance and distance from those picked before.
 */
module Mmr {
  import opened Wrappers
  import opened Ranking
  import opened Results

  /** What a score depends on besides the results picked: relevance by identifier, the similarity of two
      embeddings, and the weight of relevance. */
  datatype Params = Params(relevance: map<string, real>, cosine: (Vector, Vector) -> real, weight: real)

  function WithEmbedding(results: seq<SearchResult>, wanted: bool): (kept: seq<SearchResult>)
    ensures forall r :: r in kept <==> r in results && (r.embedding.Some? <==> wanted)
  {
    if results == [] then []
    else
      var n := |results| - 1;
      assert results == results[..n] + [results[n]];
      WithEmbedding(results[..n], wanted) + if results[n].embedding.Some? == wanted then [results[n]] else []
  }

  lemma {:induction false} EmbeddingSplits(results: seq<SearchResult>)
    ensures |WithEmbedding(results, true)| + |WithEmbedding(results, false)| == |results|
    decreases |results|
  {
    if results != [] {
      EmbeddingSplits(results[..|results| - 1]);
    }
  }

  function MaxScore(results: seq<SearchResult>): real
    requires results != []
  {
    var n := |results| - 1;
    if n == 0 || MaxScore(results[..n]) < results[n].score then results[n].score else MaxScore(results[..n])
  }

  /** A result's relevance: its similarity to the query, or its share of the highest score. */
  function OwnRelevance(r: SearchResult, query: Option<Vector>, cosine: (Vector, Vector) -> real,
                        maxScore: real): real {
    if query.Some? && r.embedding.Some? then cosine(query.value, r.embedding.value)
    else r.score / (if maxScore == 0.0 then 1.0 else maxScore)
  }

  /** Relevance by identifier; of two results with one identifier the later counts. */
  function Relevance(results: seq<SearchResult>, query: Option<Vector>, cosine: (Vector, Vector) -> real,
                     maxScore: real)
    : map<string, real>
  {
    if results == [] then map[]
    else
      var last := results[|results| - 1];
      Relevance(results[..|results| - 1], query, cosine, maxScore)
        [last.chunkId := OwnRelevance(last, query, cosine, maxScore)]
  }

  function ParamsFor(candidates: seq<SearchResult>, query: Option<Vector>, weight: real,
                     cosine: (Vector, Vector) -> real): Params
    requires candidates != []
  {
    Params(Relevance(candidates, query, cosine, MaxScore(candidates)), cosine, weight)
  }

  function RelevanceOf(p: Params, r: SearchResult): real {
    if r.chunkId in p.relevance then p.relevance[r.chunkId] else 0.0
  }

  function MaxSim(p: Params, r: SearchResult, selected: seq<SearchResult>): real {
    if selected == [] then 0.0
    else
      var n := |selected| - 1;
      var sim := if r.embedding.Some? && selected[n].embedding.Some?
                 then p.cosine(r.embedding.value, selected[n].embedding.value) else 0.0;
      if n == 0 || MaxSim(p, r, selected[..n]) < sim then sim else MaxSim(p, r, selected[..n])
  }

  function Score(p: Params, selected: seq<SearchResult>, r: SearchResult): real {
    p.weight * RelevanceOf(p, r) - (1.0 - p.weight) * MaxSim(p, r, selected)
  }

  function ByScore(p: Params, selected: seq<SearchResult>): SearchResult -> real { r => Score(p, selected, r) }

  function ByRelevance(p: Params): SearchResult -> real { r => RelevanceOf(p, r) }

  /** `selected` was picked from `candidates`, leaving `rest`: each time the first of the highest score
      among those left, given the ones picked before. */
  ghost predicate Picked(p: Params, candidates: seq<SearchResult>, selected: seq<SearchResult>,
                            rest: seq<SearchResult>)
    decreases |selected|
  {
    if selected == [] then rest == candidates
    else
      var front, last := selected[..|selected| - 1], selected[|selected| - 1];
      exists before, i: nat ::
        && Picked(p, candidates, front, before) && FirstBest(before, ByScore(p, front), i)
        && before[i] == last && rest == before[..i] + before[i + 1..]
  }

  /** `items.remove(item)`. */
  function RemoveFirst<T(==)>(items: seq<T>, item: T): seq<T> {
    if items == [] then [] else if items[0] == item then items[1..] else [items[0]] + RemoveFirst(items[1..], item)
  }

  lemma RemoveLater<T>(items: seq<T>, item: T)
    requires items != [] && items[0] != item
    ensures RemoveFirst(items, item) == [items[0]] + RemoveFirst(items[1..], item)
  {
  }

  lemma {:induction false} RemovesTheBest<T>(items: seq<T>, score: T -> real, i: nat)
    requires FirstBest(items, score, i)
    ensures RemoveFirst(items, items[i]) == items[..i] + items[i + 1..]
    decreases |items|
  {
    if i == 0 {
      assert items[..0] + items[1..] == items[1..];
    } else {
      hide RemoveFirst;
      var rest := items[1..];
      assert forall j :: 0 <= j < |rest| ==> rest[j] == items[j + 1];
      RemovesTheBest(rest, score, i - 1);
      RemoveLater(items, items[i]);
      assert rest[i - 1] == items[i] && rest[i..] == items[i + 1..];
      assert items[..i] == [items[0]] + rest[..i - 1];
      assert [items[0]] + (rest[..i - 1] + rest[i..]) == items[..i] + items[i + 1..];
    }
  }

  /** The first of the highest score among those left. */
  method PickBest(p: Params, remaining: seq<SearchResult>, selected: seq<SearchResult>) returns (best: nat)
    requires remaining != []
    ensures FirstBest(remaining, ByScore(p, selected), best)
  {
    hide Score;
    best := 0;
    var bestScore := Score(p, selected, remaining[0]);
    for k := 1 to |remaining|
      invariant 0 <= best < k && bestScore == Score(p, selected, remaining[best])
      invariant forall j :: 0 <= j < best ==> Score(p, selected, remaining[j]) < bestScore
      invariant forall j :: 0 <= j < k ==> Score(p, selected, remaining[j]) <= bestScore
    {
      var score := Score(p, selected, remaining[k]);
      if score > bestScore {
        bestScore, best := score, k;
      }
    }
  }

  lemma PickedOne(p: Params, candidates: seq<SearchResult>, selected: seq<SearchResult>,
                     rest: seq<SearchResult>, i: nat)
    requires Picked(p, candidates, selected, rest) && FirstBest(rest, ByScore(p, selected), i)
    ensures Picked(p, candidates, selected + [rest[i]], RemoveFirst(rest, rest[i]))
  {
    RemovesTheBest(rest, ByScore(p, selected), i);
    var after := selected + [rest[i]];
    assert after[..|after| - 1] == selected;
  }

  function Min(a: int, b: int): int { if a < b then a else b }
  function Max(a: int, b: int): int { if a < b then b else a }

  /** `s[:n]`: a negative `n` counts from the end. */
  function Prefix<T>(s: seq<T>, n: int): seq<T> {
    if n >= 0 then s[..Min(n, |s|)] else s[..Max(0, |s| + n)]
  }

  /** What re-ranking must give: the picks, then results without an embedding; without any embedding the
      input order is kept. */
  ghost predicate Reranked(ranked: seq<SearchResult>, results: seq<SearchResult>, query: Option<Vector>, topN: int,
                           weight: real, cosine: (Vector, Vector) -> real)
  {
    var candidates, others := WithEmbedding(results, true), WithEmbedding(results, false);
    if candidates == [] then ranked == Prefix(results, topN)
    else exists selected, rest ::
      && Picked(ParamsFor(candidates, query, weight, cosine), candidates, selected, rest)
      && |selected| == Min(Max(0, topN), |candidates|)
      && ranked == selected + others[..Min(|others|, Max(0, topN - |selected|))]
  }

  method Rerank(results: seq<SearchResult>, query: Option<Vector>, topN: int, weight: real,
                cosine: (Vector, Vector) -> real)
    returns (ranked: seq<SearchResult>)
    ensures Reranked(ranked, results, query, topN, weight, cosine)
  {
    hide Picked;
    if results == [] { return []; }
    var candidates := WithEmbedding(results, true);
    var others := WithEmbedding(results, false);
    if candidates == [] { return Prefix(results, topN); }
    var p := ParamsFor(candidates, query, weight, cosine);
    var remaining := candidates;
    var selected: seq<SearchResult> := [];
    NonePicked(p, candidates);
    while remaining != [] && |selected| < topN
      invariant Picked(p, candidates, selected, remaining)
      invariant |selected| + |remaining| == |candidates| && |selected| <= Max(0, topN)
      decreases |remaining|
    {
      var best := PickBest(p, remaining, selected);
      PickedOne(p, candidates, selected, remaining, best);
      RemovesTheBest(remaining, ByScore(p, selected), best);
      var item := remaining[best];
      remaining := RemoveFirst(remaining, item);
      selected := selected + [item];
    }
    ranked := selected + others[..Min(|others|, Max(0, topN - |selected|))];
  }

  lemma NonePicked(p: Params, candidates: seq<SearchResult>)
    ensures Picked(p, candidates, [], candidates)
  {
  }

  // ---------------------------------------------------------------- what the picks are

  lemma LastPick(p: Params, candidates: seq<SearchResult>, selected: seq<SearchResult>, rest: seq<SearchResult>)
    returns (before: seq<SearchResult>, i: nat)
    requires Picked(p, candidates, selected, rest) && selected != []
    ensures var front := selected[..|selected| - 1];
      && Picked(p, candidates, front, before) && FirstBest(before, ByScore(p, front), i)
      && before[i] == selected[|selected| - 1] && rest == before[..i] + before[i + 1..]
  {
    hide Score, ByScore;
    before, i :| Picked(p, candidates, selected[..|selected| - 1], before) &&
      FirstBest(before, ByScore(p, selected[..|selected| - 1]), i) &&
      before[i] == selected[|selected| - 1] && rest == before[..i] + before[i + 1..];
  }

  lemma Taken(items: seq<SearchResult>, i: nat)
    requires i < |items|
    ensures multiset(items) == multiset(items[..i] + items[i + 1..]) + multiset{items[i]}
  {
    assert items == items[..i] + [items[i]] + items[i + 1..];
  }

  /** Nothing is picked twice or made up: the picks and what is left are the candidates. */
  lemma {:induction false} PicksAreCandidates(p: Params, candidates: seq<SearchResult>, selected: seq<SearchResult>,
                                              rest: seq<SearchResult>)
    requires Picked(p, candidates, selected, rest)
    ensures multiset(selected) + multiset(rest) == multiset(candidates)
    decreases |selected|
  {
    hide Picked, Score, ByScore;
    if selected == [] {
      NothingPicked(p, candidates, rest);
    } else {
      var before, i := LastPick(p, candidates, selected, rest);
      PicksAreCandidates(p, candidates, selected[..|selected| - 1], before);
      Taken(before, i);
      Taken(selected, |selected| - 1);
      var front := selected[..|selected| - 1];
      assert front + selected[|selected|..] == front;
    }
  }

  lemma {:induction false} KeptAndOthers(results: seq<SearchResult>)
    ensures multiset(WithEmbedding(results, true)) + multiset(WithEmbedding(results, false)) == multiset(results)
    decreases |results|
  {
    hide WithEmbedding;
    if results == [] {
      KeptOneMore(results, true);
      KeptOneMore(results, false);
    } else {
      KeptAndOthers(results[..|results| - 1]);
      KeptOneMore(results, true);
      KeptOneMore(results, false);
      var front := results[..|results| - 1];
      assert results == front + [results[|results| - 1]];
    }
  }

  lemma KeptOneMore(results: seq<SearchResult>, wanted: bool)
    ensures WithEmbedding(results, wanted) ==
            if results == [] then []
            else WithEmbedding(results[..|results| - 1], wanted) +
                 if results[|results| - 1].embedding.Some? == wanted then [results[|results| - 1]] else []
  {
  }

  /** The results are kept one by one, in their order. */
  lemma {:induction false} EmbeddingKeepsOrder(a: seq<SearchResult>, b: seq<SearchResult>, wanted: bool)
    ensures WithEmbedding(a + b, wanted) == WithEmbedding(a, wanted) + WithEmbedding(b, wanted)
    decreases |b|
  {
    hide WithEmbedding;
    if b == [] {
      assert a + b == a;
      KeptOneMore(b, wanted);
    } else {
      var all := a + b;
      assert all[..|all| - 1] == a + b[..|b| - 1] && all[|all| - 1] == b[|b| - 1];
      EmbeddingKeepsOrder(a, b[..|b| - 1], wanted);
      KeptOneMore(b, wanted);
      KeptOneMore(all, wanted);
    }
  }

  lemma OneKept(r: SearchResult, wanted: bool)
    ensures WithEmbedding([r], wanted) == if r.embedding.Some? == wanted then [r] else []
  {
    hide WithEmbedding;
    KeptOneMore([r], wanted);
    KeptOneMore([], wanted);
    assert [r][..0] == [];
  }

  lemma PrefixIsPart(items: seq<SearchResult>, n: nat)
    requires n <= |items|
    ensures multiset(items[..n]) <= multiset(items)
  {
    assert items == items[..n] + items[n..];
  }

  /** Every result that comes back was put in, and no more often than it was put in. */
  lemma RankedAreResults(ranked: seq<SearchResult>, results: seq<SearchResult>, query: Option<Vector>, topN: int,
                         weight: real, cosine: (Vector, Vector) -> real)
    requires Reranked(ranked, results, query, topN, weight, cosine)
    ensures multiset(ranked) <= multiset(results)
  {
    hide Picked, ParamsFor, WithEmbedding;
    var candidates, others := WithEmbedding(results, true), WithEmbedding(results, false);
    if candidates == [] {
      PrefixIsPart(results, |Prefix(results, topN)|);
    } else {
      var selected, rest :| Picked(ParamsFor(candidates, query, weight, cosine), candidates, selected, rest) &&
        |selected| == Min(Max(0, topN), |candidates|) &&
        ranked == selected + others[..Min(|others|, Max(0, topN - |selected|))];
      PicksAreCandidates(ParamsFor(candidates, query, weight, cosine), candidates, selected, rest);
      PrefixIsPart(others, Min(|others|, Max(0, topN - |selected|)));
      KeptAndOthers(results);
    }
  }

  /** With the whole weight on relevance the picks are the first of a stable descending sort by it. */
  lemma {:induction false} FullWeightSorts(p: Params, candidates: seq<SearchResult>, selected: seq<SearchResult>,
                                           rest: seq<SearchResult>)
    requires p.weight == 1.0 && Picked(p, candidates, selected, rest)
    ensures SortDesc(candidates, ByRelevance(p)) == selected + SortDesc(rest, ByRelevance(p))
    decreases |selected|
  {
    hide SortDesc, Picked, FirstBest, ByRelevance, ByScore;
    if selected == [] {
      NothingPicked(p, candidates, rest);
    } else {
      var front := selected[..|selected| - 1];
      var before, i := LastPick(p, candidates, selected, rest);
      FullWeightSorts(p, candidates, front, before);
      BestByRelevance(p, before, front, i);
      BestComesFirst(before, ByRelevance(p), i);
      Regroup(selected, SortDesc(rest, ByRelevance(p)));
    }
  }

  lemma Regroup<T>(selected: seq<T>, more: seq<T>)
    requires selected != []
    ensures selected[..|selected| - 1] + ([selected[|selected| - 1]] + more) == selected + more
  {
  }

  lemma NothingPicked(p: Params, candidates: seq<SearchResult>, rest: seq<SearchResult>)
    requires Picked(p, candidates, [], rest)
    ensures rest == candidates
  {
  }

  lemma BestByRelevance(p: Params, items: seq<SearchResult>, selected: seq<SearchResult>, i: nat)
    requires p.weight == 1.0 && FirstBest(items, ByScore(p, selected), i)
    ensures FirstBest(items, ByRelevance(p), i)
  {
    hide RelevanceOf, MaxSim;
    assert forall r :: Score(p, selected, r) == RelevanceOf(p, r);
  }

  /** With distinct identifiers each candidate is scored by its own relevance. */
  lemma {:induction false} DistinctIdsKeepTheirRelevance(results: seq<SearchResult>, query: Option<Vector>,
                                                            cosine: (Vector, Vector) -> real, maxScore: real)
    requires forall i, j :: 0 <= i < j < |results| ==> results[i].chunkId != results[j].chunkId
    ensures var relevance := Relevance(results, query, cosine, maxScore);
      forall r :: r in results ==>
        r.chunkId in relevance && relevance[r.chunkId] == OwnRelevance(r, query, cosine, maxScore)
    decreases |results|
  {
    if results != [] {
      var front, last := results[..|results| - 1], results[|results| - 1];
      DistinctIdsKeepTheirRelevance(front, query, cosine, maxScore);
      assert results == front + [last];
      assert forall r :: r in front ==> r.chunkId != last.chunkId;
    }
  }

  /** As many results come back as asked for and there are, unless none has an embedding and a negative
      number is asked for. */
  lemma LengthIsAsAskedExactly(ranked: seq<SearchResult>, results: seq<SearchResult>, query: Option<Vector>, topN: int,
                               weight: real, cosine: (Vector, Vector) -> real)
    requires Reranked(ranked, results, query, topN, weight, cosine)
    ensures |ranked| == Min(Max(0, topN), |results|) <==>
            topN >= 0 || WithEmbedding(results, true) != [] || |results| + topN <= 0
  {
    hide Picked, ParamsFor;
    EmbeddingSplits(results);
  }

  /** With the whole weight on relevance, the results are the first `topN` of a stable descending sort of
      those with an embedding, and then those without one; a negative `topN` counts as zero. */
  lemma FullWeightRanksByRelevance(ranked: seq<SearchResult>, results: seq<SearchResult>, query: Option<Vector>,
                                   topN: int, cosine: (Vector, Vector) -> real)
    requires Reranked(ranked, results, query, topN, 1.0, cosine)
    requires WithEmbedding(results, true) != []
    ensures var candidates, others := WithEmbedding(results, true), WithEmbedding(results, false);
      var sorted := SortDesc(candidates, ByRelevance(ParamsFor(candidates, query, 1.0, cosine)));
      |sorted| == |candidates| && ranked == Prefix(sorted, Max(0, topN)) + Prefix(others, Max(0, topN - |candidates|))
  {
    hide Picked, SortDesc, ByRelevance, WithEmbedding, ParamsFor, FirstBest, Reranked, Prefix;
    var candidates, others := WithEmbedding(results, true), WithEmbedding(results, false);
    var p := ParamsFor(candidates, query, 1.0, cosine);
    var selected, rest := PicksOf(ranked, results, query, topN, 1.0, cosine);
    WeightAndCosine(candidates, query, 1.0, cosine);
    FullWeightSorts(p, candidates, selected, rest);
    SortSorts(candidates, ByRelevance(p));
    FirstOf(selected, SortDesc(rest, ByRelevance(p)), Max(0, topN));
    assert Min(|others|, Max(0, topN - |selected|)) == Min(|others|, Max(0, topN - |candidates|));
    PrefixIs(others, Max(0, topN - |candidates|));
  }

  lemma PicksOf(ranked: seq<SearchResult>, results: seq<SearchResult>, query: Option<Vector>, topN: int,
                weight: real, cosine: (Vector, Vector) -> real)
    returns (selected: seq<SearchResult>, rest: seq<SearchResult>)
    requires Reranked(ranked, results, query, topN, weight, cosine) && WithEmbedding(results, true) != []
    ensures var candidates, others := WithEmbedding(results, true), WithEmbedding(results, false);
      && Picked(ParamsFor(candidates, query, weight, cosine), candidates, selected, rest)
      && |selected| == Min(Max(0, topN), |candidates|)
      && ranked == selected + others[..Min(|others|, Max(0, topN - |selected|))]
  {
    hide Picked, WithEmbedding, ParamsFor;
    var candidates, others := WithEmbedding(results, true), WithEmbedding(results, false);
    selected, rest :| Picked(ParamsFor(candidates, query, weight, cosine), candidates, selected, rest) &&
      |selected| == Min(Max(0, topN), |candidates|) &&
      ranked == selected + others[..Min(|others|, Max(0, topN - |selected|))];
  }

  lemma FirstOf(selected: seq<SearchResult>, tail: seq<SearchResult>, n: nat)
    requires |selected| == Min(n, |selected + tail|)
    ensures Prefix(selected + tail, n) == selected
  {
  }

  /** A slice from the front: the first `n`, or all but the last `-n`. */
  lemma SliceIs(items: seq<SearchResult>, n: int)
    ensures Prefix(items, n) <= items
    ensures |Prefix(items, n)| ==
            if n >= 0 then (if n < |items| then n else |items|) else if |items| + n > 0 then |items| + n else 0
  {
  }

  lemma PrefixIs(items: seq<SearchResult>, n: nat)
    ensures Prefix(items, n) == items[..Min(|items|, n)]
  {
  }

  // ---------------------------------------------------------------- relevance against redundancy

  function Similarity(r: SearchResult, q: SearchResult, cosine: (Vector, Vector) -> real): real {
    if r.embedding.Some? && q.embedding.Some? then cosine(r.embedding.value, q.embedding.value) else 0.0
  }

  /** The greatest similarity of `r` to one of the picks; nothing is similar to none. */
  ghost predicate IsRedundancy(x: real, r: SearchResult, picks: seq<SearchResult>, cosine: (Vector, Vector) -> real) {
    if picks == [] then x == 0.0
    else (forall q :: q in picks ==> Similarity(r, q, cosine) <= x) &&
         (exists q :: q in picks && Similarity(r, q, cosine) == x)
  }

  ghost predicate IsHighest(m: real, results: seq<SearchResult>) {
    (forall r :: r in results ==> r.score <= m) && (exists r :: r in results && r.score == m)
  }

  /** The last candidate with this identifier. */
  ghost predicate IsLastWith(id: string, candidates: seq<SearchResult>, k: nat) {
    && k < |candidates| && candidates[k].chunkId == id
    && forall j :: k < j < |candidates| ==> candidates[j].chunkId != id
  }

  /** The similarity to the query, or without one the share of the highest score, of the last candidate with
      the identifier of `r`; a highest score of zero is not divided by. */
  ghost predicate IsRelevance(x: real, r: SearchResult, candidates: seq<SearchResult>, query: Option<Vector>,
                              cosine: (Vector, Vector) -> real) {
    exists k: nat, m: real :: IsLastWith(r.chunkId, candidates, k) && IsHighest(m, candidates) &&
      if query.Some? then
        candidates[k].embedding.Some? && x == cosine(query.value, candidates[k].embedding.value)
      else x == if m == 0.0 then candidates[k].score else candidates[k].score / m
  }

  lemma {:induction false} MaxScoreIsHighest(results: seq<SearchResult>)
    requires results != []
    ensures IsHighest(MaxScore(results), results)
    decreases |results|
  {
    var n := |results| - 1;
    assert results == results[..n] + [results[n]];
    if n > 0 { MaxScoreIsHighest(results[..n]); }
  }

  lemma {:induction false} RelevanceIsOfLast(results: seq<SearchResult>, query: Option<Vector>,
                                             cosine: (Vector, Vector) -> real, maxScore: real, id: string, k: nat)
    requires IsLastWith(id, results, k)
    ensures var relevance := Relevance(results, query, cosine, maxScore);
      id in relevance && relevance[id] == OwnRelevance(results[k], query, cosine, maxScore)
    decreases |results|
  {
    hide OwnRelevance;
    if k < |results| - 1 { RelevanceIsOfLast(results[..|results| - 1], query, cosine, maxScore, id, k); }
  }

  lemma RelevanceIs(x: real, r: SearchResult, candidates: seq<SearchResult>, query: Option<Vector>, weight: real,
                    cosine: (Vector, Vector) -> real)
    requires candidates != [] && IsRelevance(x, r, candidates, query, cosine)
    ensures RelevanceOf(ParamsFor(candidates, query, weight, cosine), r) == x
  {
    hide Relevance, MaxScore;
    var k: nat, m: real :| IsLastWith(r.chunkId, candidates, k) && IsHighest(m, candidates) &&
      if query.Some? then
        candidates[k].embedding.Some? && x == cosine(query.value, candidates[k].embedding.value)
      else x == if m == 0.0 then candidates[k].score else candidates[k].score / m;
    MaxScoreIsHighest(candidates);
    RelevanceIsOfLast(candidates, query, cosine, MaxScore(candidates), r.chunkId, k);
  }

  lemma {:induction false} MaxSimIsRedundancy(p: Params, r: SearchResult, picks: seq<SearchResult>)
    ensures IsRedundancy(MaxSim(p, r, picks), r, picks, p.cosine)
    decreases |picks|
  {
    if picks != [] {
      var n := |picks| - 1;
      assert picks == picks[..n] + [picks[n]] && picks[n] in picks;
      MaxSimIsRedundancy(p, r, picks[..n]);
    }
  }

  lemma RedundancyIsOne(x: real, y: real, r: SearchResult, picks: seq<SearchResult>,
                        cosine: (Vector, Vector) -> real)
    requires IsRedundancy(x, r, picks, cosine) && IsRedundancy(y, r, picks, cosine)
    ensures x == y
  {
  }

  /** What is picked next against any other candidate left: what it loses in relevance it gains in distance
      from the picks before, weighed; against one that stands in front of it, it gains more. */
  lemma BestTradesOff(candidates: seq<SearchResult>, query: Option<Vector>, weight: real,
                      cosine: (Vector, Vector) -> real, remaining: seq<SearchResult>, picks: seq<SearchResult>,
                      best: nat, j: nat, rel: real, otherRel: real, red: real, otherRed: real)
    requires candidates != [] && j < |remaining|
    requires FirstBest(remaining, ByScore(ParamsFor(candidates, query, weight, cosine), picks), best)
    requires IsRelevance(rel, remaining[best], candidates, query, cosine)
    requires IsRelevance(otherRel, remaining[j], candidates, query, cosine)
    requires IsRedundancy(red, remaining[best], picks, cosine)
    requires IsRedundancy(otherRed, remaining[j], picks, cosine)
    ensures weight * (rel - otherRel) >= (1.0 - weight) * (red - otherRed)
    ensures j < best ==> weight * (rel - otherRel) > (1.0 - weight) * (red - otherRed)
  {
    hide ParamsFor, RelevanceOf, MaxSim, IsRelevance, IsRedundancy;
    var p := ParamsFor(candidates, query, weight, cosine);
    assert p.weight == weight && p.cosine == cosine by { WeightAndCosine(candidates, query, weight, cosine); }
    RelevanceIs(rel, remaining[best], candidates, query, weight, cosine);
    RelevanceIs(otherRel, remaining[j], candidates, query, weight, cosine);
    MaxSimIsRedundancy(p, remaining[best], picks);
    MaxSimIsRedundancy(p, remaining[j], picks);
    RedundancyIsOne(red, MaxSim(p, remaining[best], picks), remaining[best], picks, cosine);
    RedundancyIsOne(otherRed, MaxSim(p, remaining[j], picks), remaining[j], picks, cosine);
    assert Score(p, picks, remaining[best]) == weight * rel - (1.0 - weight) * red;
    assert Score(p, picks, remaining[j]) == weight * otherRel - (1.0 - weight) * otherRed;
  }

  lemma WeightAndCosine(candidates: seq<SearchResult>, query: Option<Vector>, weight: real,
                        cosine: (Vector, Vector) -> real)
    requires candidates != []
    ensures var p := ParamsFor(candidates, query, weight, cosine); p.weight == weight && p.cosine == cosine
  {
  }

  /** The `k`-th pick, and what was left when it was made. */
  lemma {:induction false} PickAt(p: Params, candidates: seq<SearchResult>, selected: seq<SearchResult>,
                                  rest: seq<SearchResult>, k: nat)
    returns (before: seq<SearchResult>, i: nat)
    requires Picked(p, candidates, selected, rest) && k < |selected|
    ensures Picked(p, candidates, selected[..k], before) && FirstBest(before, ByScore(p, selected[..k]), i)
    ensures before[i] == selected[k]
    decreases |selected|
  {
    hide Picked, ByScore;
    before, i := LastPick(p, candidates, selected, rest);
    var front := selected[..|selected| - 1];
    if k < |front| {
      before, i := PickAt(p, candidates, front, before, k);
      assert front[..k] == selected[..k];
    }
  }

  /** Every pick in the result against every candidate that was not picked before it: weighed, it loses no
      more in relevance than it gains in distance from the results before it. */
  lemma RankedTradesOff(ranked: seq<SearchResult>, results: seq<SearchResult>, query: Option<Vector>, topN: int,
                        weight: real, cosine: (Vector, Vector) -> real, k: nat, other: SearchResult, rel: real,
                        otherRel: real, red: real, otherRed: real)
    requires Reranked(ranked, results, query, topN, weight, cosine)
    requires var candidates := WithEmbedding(results, true);
      && k < |ranked| && k < |candidates| && k < topN && other in candidates && other !in ranked[..k]
      && IsRedundancy(red, ranked[k], ranked[..k], cosine) && IsRedundancy(otherRed, other, ranked[..k], cosine)
      && IsRelevance(rel, ranked[k], candidates, query, cosine)
      && IsRelevance(otherRel, other, candidates, query, cosine)
    ensures weight * (rel - otherRel) >= (1.0 - weight) * (red - otherRed)
  {
    hide Picked, ParamsFor, WithEmbedding, IsRelevance, IsRedundancy, ByScore, Reranked;
    var candidates, others := WithEmbedding(results, true), WithEmbedding(results, false);
    var p := ParamsFor(candidates, query, weight, cosine);
    var selected, rest := PicksOf(ranked, results, query, topN, weight, cosine);
    var before, i := PickAt(p, candidates, selected, rest, k);
    assert ranked[..k] == selected[..k] && ranked[k] == selected[k];
    PicksAreCandidates(p, candidates, selected[..k], before);
    assert other in multiset(candidates) && other !in multiset(selected[..k]);
    assert other in multiset(before);
    var j :| 0 <= j < |before| && before[j] == other;
    BestTradesOff(candidates, query, weight, cosine, before, selected[..k], i, j, rel, otherRel, red, otherRed);
  }

  /** Of equally relevant candidates the one least like the results before it is picked, unless the whole
      weight is on relevance. */
  lemma LeastRedundantIsPicked(ranked: seq<SearchResult>, results: seq<SearchResult>, query: Option<Vector>,
                               topN: int, weight: real, cosine: (Vector, Vector) -> real, k: nat,
                               other: SearchResult, rel: real, red: real, otherRed: real)
    requires Reranked(ranked, results, query, topN, weight, cosine) && weight < 1.0
    requires var candidates := WithEmbedding(results, true);
      && k < |ranked| && k < |candidates| && k < topN && other in candidates && other !in ranked[..k]
      && IsRedundancy(red, ranked[k], ranked[..k], cosine) && IsRedundancy(otherRed, other, ranked[..k], cosine)
      && IsRelevance(rel, ranked[k], candidates, query, cosine)
      && IsRelevance(rel, other, candidates, query, cosine)
    ensures red <= otherRed
  {
    hide Reranked, WithEmbedding, IsRelevance, IsRedundancy;
    RankedTradesOff(ranked, results, query, topN, weight, cosine, k, other, rel, rel, red, otherRed);
    NothingLost(weight, rel, rel, red, otherRed);
  }

  lemma NothingLost(weight: real, rel: real, otherRel: real, red: real, otherRed: real)
    requires weight < 1.0 && weight * (rel - otherRel) >= (1.0 - weight) * (red - otherRed) && rel == otherRel
    ensures red <= otherRed
  {
    assert weight * (rel - otherRel) == 0.0;
    assert (1.0 - weight) * (red - otherRed) <= 0.0;
    NotPositive(1.0 - weight, red - otherRed);
  }

  lemma NotPositive(a: real, b: real)
    requires a > 0.0 && a * b <= 0.0
    ensures b <= 0.0
  {
    if b > 0.0 { Positive(a, b); }
  }

  lemma Positive(a: real, b: real)
    requires a > 0.0 && b > 0.0
    ensures a * b > 0.0
  {
  }
}
