/**
  Stable descending order by a score, as `sorted(..., reverse=True)` gives it: what is first among equals
  stays first.
 */
module Ranking {
  /** Puts an item behind those it was behind before, unless it scores higher. */
  function Insert<T>(sorted: seq<T>, item: T, score: T -> real): seq<T> {
    if sorted == [] then [item]
    else if score(sorted[|sorted| - 1]) >= score(item) then sorted + [item]
    else Insert(sorted[..|sorted| - 1], item, score) + [sorted[|sorted| - 1]]
  }

  function SortDesc<T>(items: seq<T>, score: T -> real): seq<T> {
    if items == [] then [] else Insert(SortDesc(items[..|items| - 1], score), items[|items| - 1], score)
  }

  ghost predicate Descending<T>(items: seq<T>, score: T -> real) {
    forall i, j :: 0 <= i < j < |items| ==> score(items[i]) >= score(items[j])
  }

  /** The items that score `x`, in order. */
  function Scoring<T>(items: seq<T>, score: T -> real, x: real): seq<T> {
    if items == [] then []
    else Scoring(items[..|items| - 1], score, x) + if score(items[|items| - 1]) == x then [items[|items| - 1]] else []
  }

  lemma {:induction false} InsertAdds<T>(sorted: seq<T>, item: T, score: T -> real)
    ensures multiset(Insert(sorted, item, score)) == multiset(sorted) + multiset{item}
    decreases |sorted|
  {
    if sorted != [] {
      var front, last := sorted[..|sorted| - 1], sorted[|sorted| - 1];
      assert sorted == front + [last];
      InsertAdds(front, item, score);
    }
  }

  lemma {:induction false} InsertSorts<T>(sorted: seq<T>, item: T, score: T -> real)
    requires Descending(sorted, score)
    ensures Descending(Insert(sorted, item, score), score)
    decreases |sorted|
  {
    if sorted != [] && score(sorted[|sorted| - 1]) < score(item) {
      var front, last := sorted[..|sorted| - 1], sorted[|sorted| - 1];
      InsertSorts(front, item, score);
      InsertAdds(front, item, score);
      var rest := Insert(front, item, score);
      forall i | 0 <= i < |rest| ensures score(rest[i]) >= score(last) {
        assert rest[i] in multiset(rest);
        assert rest[i] == item || rest[i] in front;
      }
    }
  }

  /** Sorting gives the same items, in falling order. */
  lemma {:induction false} SortSorts<T>(items: seq<T>, score: T -> real)
    ensures Descending(SortDesc(items, score), score)
    ensures multiset(SortDesc(items, score)) == multiset(items)
    ensures |SortDesc(items, score)| == |items|
    decreases |items|
  {
    if items != [] {
      var front, last := items[..|items| - 1], items[|items| - 1];
      assert items == front + [last];
      SortSorts(front, score);
      InsertSorts(SortDesc(front, score), last, score);
      InsertAdds(SortDesc(front, score), last, score);
      assert |SortDesc(items, score)| == |multiset(SortDesc(items, score))|;
      assert |items| == |multiset(items)|;
    }
  }

  lemma {:induction false} InsertIsStable<T>(sorted: seq<T>, item: T, score: T -> real, x: real)
    requires Descending(sorted, score)
    ensures Scoring(Insert(sorted, item, score), score, x) ==
            Scoring(sorted, score, x) + if score(item) == x then [item] else []
    decreases |sorted|
  {
    if sorted == [] {
      assert [item][..0] == [];
    } else {
      var front, last := sorted[..|sorted| - 1], sorted[|sorted| - 1];
      if score(last) >= score(item) {
        assert (sorted + [item])[..|sorted|] == sorted;
      } else {
        InsertIsStable(front, item, score, x);
        var rest := Insert(front, item, score);
        assert (rest + [last])[..|rest|] == rest;
        if score(item) == x { assert score(last) != x; }
      }
    }
  }

  /** Items of the same score keep their order. */
  lemma {:induction false} SortIsStable<T>(items: seq<T>, score: T -> real, x: real)
    ensures Scoring(SortDesc(items, score), score, x) == Scoring(items, score, x)
    decreases |items|
  {
    if items != [] {
      var front, last := items[..|items| - 1], items[|items| - 1];
      SortSorts(front, score);
      SortIsStable(front, score, x);
      InsertIsStable(SortDesc(front, score), last, score, x);
    }
  }

  /** What is in order already stays as it is. */
  lemma {:induction false} SortedStays<T>(items: seq<T>, score: T -> real)
    requires Descending(items, score)
    ensures SortDesc(items, score) == items
    decreases |items|
  {
    if items != [] {
      var front, last := items[..|items| - 1], items[|items| - 1];
      SortedStays(front, score);
      assert items == front + [last];
    }
  }

  /** Two scores that rank alike sort alike. */
  lemma {:induction false} SameRankingSameOrder<T>(items: seq<T>, score: T -> real, other: T -> real)
    requires forall a, b :: a in items && b in items ==> (score(a) >= score(b) <==> other(a) >= other(b))
    ensures SortDesc(items, score) == SortDesc(items, other)
    decreases |items|
  {
    if items != [] {
      var front, last := items[..|items| - 1], items[|items| - 1];
      assert items == front + [last];
      SameRankingSameOrder(front, score, other);
      SortSorts(front, score);
      var sorted := SortDesc(front, score);
      forall a | a in sorted ensures a in items {
        assert a in multiset(sorted);
      }
      SameRankingSameInsert(sorted, last, score, other);
    }
  }

  lemma {:induction false} SameRankingSameInsert<T>(sorted: seq<T>, item: T, score: T -> real, other: T -> real)
    requires forall a :: a in sorted ==> (score(a) >= score(item) <==> other(a) >= other(item))
    ensures Insert(sorted, item, score) == Insert(sorted, item, other)
    decreases |sorted|
  {
    if sorted != [] {
      SameRankingSameInsert(sorted[..|sorted| - 1], item, score, other);
    }
  }

  // ---------------------------------------------------------------- picking the best first

  /** Item `i` is the first of the highest score. */
  ghost predicate FirstBest<T>(items: seq<T>, score: T -> real, i: nat) {
    && i < |items|
    && (forall j :: 0 <= j < i ==> score(items[j]) < score(items[i]))
    && (forall j :: i < j < |items| ==> score(items[j]) <= score(items[i]))
  }

  lemma SortSnoc<T>(front: seq<T>, last: T, score: T -> real)
    ensures SortDesc(front + [last], score) == Insert(SortDesc(front, score), last, score)
  {
    assert (front + [last])[..|front|] == front;
  }

  lemma LastIsBest<T>(front: seq<T>, last: T, score: T -> real)
    requires FirstBest(front + [last], score, |front|)
    ensures SortDesc(front + [last], score) == [last] + SortDesc(front, score)
  {
    hide Insert;
    SortSnoc(front, last, score);
    SortSorts(front, score);
    var sorted := SortDesc(front, score);
    forall k | 0 <= k < |sorted| ensures score(sorted[k]) < score(last) {
      assert sorted[k] in multiset(sorted);
      var j :| 0 <= j < |front| && front[j] == sorted[k];
      assert (front + [last])[j] == front[j];
    }
    InsertFirst(sorted, last, score);
  }

  /** Taking out the first best item leaves what the sorted order continues with. */
  lemma {:induction false} BestComesFirst<T>(items: seq<T>, score: T -> real, i: nat)
    requires FirstBest(items, score, i)
    ensures SortDesc(items, score) == [items[i]] + SortDesc(items[..i] + items[i + 1..], score)
    decreases |items|
  {
    hide Insert, SortDesc;
    var front, last := items[..|items| - 1], items[|items| - 1];
    assert items == front + [last];
    if i == |items| - 1 {
      LastIsBest(front, last, score);
      assert items[..i] + items[i + 1..] == front;
    } else {
      assert forall j :: 0 <= j < |front| ==> front[j] == items[j];
      BestComesFirst(front, score, i);
      var rest := front[..i] + front[i + 1..];
      SortSnoc(front, last, score);
      SortSnoc(rest, last, score);
      InsertBehind(SortDesc(rest, score), items[i], last, score);
      assert items[..i] + items[i + 1..] == rest + [last];
    }
  }

  lemma {:induction false} InsertFirst<T>(sorted: seq<T>, item: T, score: T -> real)
    requires forall k :: 0 <= k < |sorted| ==> score(sorted[k]) < score(item)
    ensures Insert(sorted, item, score) == [item] + sorted
    decreases |sorted|
  {
    if sorted != [] {
      InsertFirst(sorted[..|sorted| - 1], item, score);
    }
  }

  lemma {:induction false} InsertBehind<T>(sorted: seq<T>, best: T, item: T, score: T -> real)
    requires score(best) >= score(item)
    ensures Insert([best] + sorted, item, score) == [best] + Insert(sorted, item, score)
    decreases |sorted|
  {
    var all := [best] + sorted;
    if sorted == [] {
      assert all == [best];
    } else {
      assert all[..|all| - 1] == [best] + sorted[..|sorted| - 1];
      InsertBehind(sorted[..|sorted| - 1], best, item, score);
    }
  }
}
