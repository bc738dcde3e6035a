/**
  The semantic query cache (backend/cache/query_cache.py): an ordered dictionary of entries and an index
  from digests to its keys. Keys stand for digests of normalised queries, which are taken to be distinct
  for distinct normalised texts.
 */
module QueryCache {
  import opened Wrappers
  import opened Sequences

  datatype Entry<E, R> = Entry(key: string, embedding: E, result: R)

  // ---------------------------------------------------------------- the history the cache stands for

  /** A key is touched by storing under it and by a hit on it. */
  datatype Touch<E, R> = Stored(entry: Entry<E, R>) | Hit(hit: string)

  function KeyOf<E, R>(t: Touch<E, R>): string {
    match t
    case Stored(entry) => entry.key
    case Hit(key) => key
  }

  /** The distinct keys touched, in the order of their last touches. */
  function Recency<E, R>(log: seq<Touch<E, R>>): seq<string> {
    if log == [] then []
    else
      var key := KeyOf(log[|log| - 1]);
      Without(Recency(log[..|log| - 1]), key) + [key]
  }

  ghost predicate Touched<E, R>(log: seq<Touch<E, R>>, key: string) {
    exists i :: 0 <= i < |log| && KeyOf(log[i]) == key
  }

  /** What was stored last under the key. */
  function Latest<E, R>(log: seq<Touch<E, R>>, key: string): Option<Entry<E, R>> {
    if log == [] then None
    else if log[|log| - 1].Stored? && log[|log| - 1].entry.key == key then Some(log[|log| - 1].entry)
    else Latest(log[..|log| - 1], key)
  }

  function LastN<T>(s: seq<T>, n: nat): seq<T> {
    if |s| <= n then s else s[|s| - n..]
  }

  function Keys<E, R>(entries: seq<Entry<E, R>>): (keys: seq<string>)
    ensures |keys| == |entries| && forall i :: 0 <= i < |keys| ==> keys[i] == entries[i].key
  {
    seq(|entries|, i requires 0 <= i < |entries| => entries[i].key)
  }

  /** The cache holds the `n` keys touched last, in the order of their last touches, each with what was
      stored last under it. */
  ghost predicate Remembers<E, R>(entries: seq<Entry<E, R>>, log: seq<Touch<E, R>>, n: nat) {
    Keys(entries) == LastN(Recency(log), n) && Current(entries, log)
  }

  ghost predicate Current<E, R>(entries: seq<Entry<E, R>>, log: seq<Touch<E, R>>) {
    forall i :: 0 <= i < |entries| ==> Latest(log, entries[i].key) == Some(entries[i])
  }

  /** The `i`-th touch stored the entry under its key, and no later one stored under that key. */
  ghost predicate StoredLast<E, R>(log: seq<Touch<E, R>>, e: Entry<E, R>, i: nat) {
    i < |log| && log[i] == Stored(e) && forall j :: i < j < |log| && log[j].Stored? ==> log[j].entry.key != e.key
  }

  /** What is held under a key is what the last storing under it gave; hits do not change it. */
  lemma {:induction false} LatestIsLast<E, R>(log: seq<Touch<E, R>>, key: string, e: Entry<E, R>)
    ensures Latest(log, key) == Some(e) <==> e.key == key && exists i :: StoredLast(log, e, i)
    decreases |log|
  {
    hide StoredLast;
    if log == [] {
      NothingStoredLast(e);
    } else {
      LatestIsLast(log[..|log| - 1], key, e);
      StoredLastMore(log, e);
    }
  }

  lemma NothingStoredLast<E, R>(e: Entry<E, R>)
    ensures forall i :: !StoredLast([], e, i)
  {
  }

  lemma StoredLastMore<E, R>(log: seq<Touch<E, R>>, e: Entry<E, R>)
    requires log != []
    ensures var front, last := log[..|log| - 1], log[|log| - 1];
      (exists i :: StoredLast(log, e, i)) <==>
        last == Stored(e) || (!(last.Stored? && last.entry.key == e.key) && exists i :: StoredLast(front, e, i))
  {
    var front, n: nat := log[..|log| - 1], |log| - 1;
    assert log[n] == Stored(e) ==> StoredLast(log, e, n);
    forall i: nat | StoredLast(log, e, i) && i < n ensures StoredLast(front, e, i) {
      assert front[i] == log[i];
    }
    forall i: nat | StoredLast(front, e, i) && !(log[n].Stored? && log[n].entry.key == e.key)
      ensures StoredLast(log, e, i)
    {
      assert log[i] == front[i];
    }
  }

  lemma {:induction false} WithoutAppend(a: seq<string>, b: seq<string>, key: string)
    ensures Without(a + b, key) == Without(a, key) + Without(b, key)
    decreases |b|
  {
    if b == [] {
      assert a + b == a;
    } else {
      assert (a + b)[..|a + b| - 1] == a + b[..|b| - 1];
      WithoutAppend(a, b[..|b| - 1], key);
    }
  }

  lemma {:induction false} WithoutAbsent(keys: seq<string>, key: string)
    requires key !in keys
    ensures Without(keys, key) == keys
    decreases |keys|
  {
    if keys != [] {
      var front, last := keys[..|keys| - 1], keys[|keys| - 1];
      assert keys == front + [last];
      WithoutAbsent(front, key);
    }
  }

  lemma {:induction false} RecencyIsDistinct<E, R>(log: seq<Touch<E, R>>)
    ensures Distinct(Recency(log))
    ensures forall k :: k in Recency(log) <==> Touched(log, k)
    decreases |log|
  {
    hide Touched;
    if log == [] {
      NothingTouched<E, R>();
    } else {
      var front, last := log[..|log| - 1], log[|log| - 1];
      RecencyIsDistinct(front);
      WithoutKeeps(Recency(front), KeyOf(last));
      WithoutMembers(Recency(front), KeyOf(last));
      forall k ensures Touched(log, k) <==> Touched(front, k) || k == KeyOf(last) {
        TouchedOneMore(log, k);
      }
    }
  }

  lemma NothingTouched<E, R>()
    ensures forall k :: !Touched<E, R>([], k)
  {
  }

  lemma TouchedOneMore<E, R>(log: seq<Touch<E, R>>, k: string)
    requires log != []
    ensures Touched(log, k) <==> Touched(log[..|log| - 1], k) || k == KeyOf(log[|log| - 1])
  {
    var front := log[..|log| - 1];
    if Touched(front, k) {
      var i :| 0 <= i < |front| && KeyOf(front[i]) == k;
      assert KeyOf(log[i]) == k;
    }
    if Touched(log, k) {
      var i :| 0 <= i < |log| && KeyOf(log[i]) == k;
      assert i < |front| ==> front[i] == log[i];
    }
  }

  // ---------------------------------------------------------------- the operations' effect on the entries

  lemma RecencyOfTouch<E, R>(log: seq<Touch<E, R>>, t: Touch<E, R>)
    ensures Recency(log + [t]) == Without(Recency(log), KeyOf(t)) + [KeyOf(t)]
    ensures forall k :: Latest(log + [t], k) == if t.Stored? && t.entry.key == k then Some(t.entry) else Latest(log, k)
  {
    assert (log + [t])[..|log|] == log;
  }

  lemma WithoutMiddle(a: seq<string>, key: string, b: seq<string>)
    requires key !in a && key !in b
    ensures Without(a + [key] + b, key) == a + b
  {
    hide Without;
    WithoutAppend(a + [key], b, key);
    WithoutAppend(a, [key], key);
    WithoutAbsent(a, key);
    WithoutAbsent(b, key);
    WithoutItself(key);
    assert a + [] == a;
  }

  lemma WithoutItself(key: string)
    ensures Without([key], key) == [] && Without([], key) == []
  {
    assert [key][..0] == [];
  }

  lemma DistinctMiddle(keys: seq<string>, m: nat)
    requires Distinct(keys) && m < |keys|
    ensures keys[m] !in keys[..m] && keys[m] !in keys[m + 1..]
  {
  }

  lemma TouchedTail(front: seq<string>, last: seq<string>, i: nat)
    requires Distinct(front + last) && i < |last|
    ensures Without(front + last, last[i]) + [last[i]] == front + (last[..i] + last[i + 1..] + [last[i]])
  {
    hide Without;
    var keys, m := front + last, |front| + i;
    DistinctMiddle(keys, m);
    var a, b := front + last[..i], last[i + 1..];
    assert keys[m] == last[i] && keys[..m] == a && keys[m + 1..] == b;
    WithoutMiddle(a, last[i], b);
    assert keys == a + [last[i]] + b;
  }

  /** Touching one of the last `n` keys moves it to the end of them. */
  lemma LastNTouched(keys: seq<string>, n: nat, i: nat)
    requires Distinct(keys) && i < |LastN(keys, n)|
    ensures var last := LastN(keys, n);
      LastN(Without(keys, last[i]) + [last[i]], n) == last[..i] + last[i + 1..] + [last[i]]
  {
    hide Without, Distinct, LastN;
    var last := LastN(keys, n);
    LastNFits(keys, n);
    var front := keys[..|keys| - |last|];
    assert keys == front + last;
    TouchedTail(front, last, i);
    Trailing(front, last[..i] + last[i + 1..] + [last[i]], n);
  }

  lemma LastNFits<T>(s: seq<T>, n: nat)
    ensures |LastN(s, n)| == if |s| <= n then |s| else n
    ensures LastN(s, n) == s[|s| - |LastN(s, n)|..]
  {
  }

  lemma Trailing<T>(front: seq<T>, back: seq<T>, n: nat)
    requires |back| == n || (front == [] && |back| <= n)
    ensures LastN(front + back, n) == back
  {
    assert (front + back)[|front|..] == back;
  }

  /** Touching any other key appends it and, if there are `n` already, drops the first. */
  lemma LastNAppended(keys: seq<string>, n: nat, key: string)
    requires Distinct(keys) && key !in LastN(keys, n)
    ensures LastN(Without(keys, key) + [key], n) == LastN(LastN(keys, n) + [key], n)
  {
    hide Without;
    var last := LastN(keys, n);
    var k := |keys| - |last|;
    assert keys == keys[..k] + last;
    WithoutAppend(keys[..k], last, key);
    WithoutAbsent(last, key);
    WithoutItself(key);
    LastNOfMore(Without(keys[..k], key), last, key, n);
  }

  lemma LastNOfMore(older: seq<string>, last: seq<string>, key: string, n: nat)
    requires |last| == n || (older == [] && |last| <= n)
    ensures LastN(older + last + [key], n) == LastN(last + [key], n)
  {
    if older == [] {
      assert older + last == last;
    } else {
      var all := older + last + [key];
      assert all == older + (last + [key]);
      assert all[|all| - n..] == (last + [key])[1..];
    }
  }

  lemma HitMoves<E, R>(entries: seq<Entry<E, R>>, log: seq<Touch<E, R>>, n: nat, i: nat)
    requires Remembers(entries, log, n) && i < |entries|
    ensures Remembers(entries[..i] + entries[i + 1..] + [entries[i]], log + [Hit(entries[i].key)], n)
  {
    hide Recency, Latest, LastN;
    var t: Touch<E, R> := Hit(entries[i].key);
    RecencyIsDistinct(log);
    RecencyOfTouch(log, t);
    LastNTouched(Recency(log), n, i);
    var keys := Keys(entries);
    assert Keys(entries[..i] + entries[i + 1..] + [entries[i]]) == keys[..i] + keys[i + 1..] + [keys[i]];
  }

  lemma StoreReplaces<E, R>(entries: seq<Entry<E, R>>, log: seq<Touch<E, R>>, n: nat, i: nat, e: Entry<E, R>)
    requires Remembers(entries, log, n) && i < |entries| && e.key == entries[i].key
    ensures Remembers(entries[..i] + entries[i + 1..] + [e], log + [Stored(e)], n)
  {
    hide Recency, Latest, LastN;
    RecencyIsDistinct(log);
    RecencyOfTouch(log, Stored(e));
    LastNTouched(Recency(log), n, i);
    KeysDistinct(entries, log, n);
    var keys := Keys(entries);
    assert Keys(entries[..i] + entries[i + 1..] + [e]) == keys[..i] + keys[i + 1..] + [keys[i]];
  }

  lemma KeysDistinct<E, R>(entries: seq<Entry<E, R>>, log: seq<Touch<E, R>>, n: nat)
    requires Remembers(entries, log, n)
    ensures Distinct(Keys(entries)) && |entries| <= n
  {
    RecencyIsDistinct(log);
  }

  lemma StoreAppends<E, R>(entries: seq<Entry<E, R>>, log: seq<Touch<E, R>>, n: nat, e: Entry<E, R>)
    requires Remembers(entries, log, n) && e.key !in Keys(entries)
    ensures Remembers(LastN(entries + [e], n), log + [Stored(e)], n)
  {
    hide Recency, Keys, Current, LastN;
    RecencyIsDistinct(log);
    RecencyOfTouch(log, Stored(e));
    LastNAppended(Recency(log), n, e.key);
    KeysOfLast(entries + [e], n);
    assert Keys(entries + [e]) == Keys(entries) + [e.key];
    CurrentAppends(entries, log, e);
    CurrentLast(entries + [e], log + [Stored(e)], n);
  }

  lemma CurrentAppends<E, R>(entries: seq<Entry<E, R>>, log: seq<Touch<E, R>>, e: Entry<E, R>)
    requires Current(entries, log) && e.key !in Keys(entries)
    ensures Current(entries + [e], log + [Stored(e)])
  {
    hide Latest;
    RecencyOfTouch(log, Stored(e));
    forall i | 0 <= i < |entries| ensures Latest(log + [Stored(e)], entries[i].key) == Some(entries[i]) {
      assert Keys(entries)[i] != e.key;
    }
  }

  lemma CurrentLast<E, R>(entries: seq<Entry<E, R>>, log: seq<Touch<E, R>>, n: nat)
    requires Current(entries, log)
    ensures Current(LastN(entries, n), log)
  {
    hide Latest;
  }

  lemma KeysOfLast<E, R>(entries: seq<Entry<E, R>>, n: nat)
    ensures Keys(LastN(entries, n)) == LastN(Keys(entries), n)
  {
  }

  // ---------------------------------------------------------------- who is remembered

  /** The distinct keys touched after the last touch of `key`. */
  function TouchedSince<E, R>(log: seq<Touch<E, R>>, key: string): set<string> {
    if log == [] || KeyOf(log[|log| - 1]) == key then {}
    else TouchedSince(log[..|log| - 1], key) + {KeyOf(log[|log| - 1])}
  }

  function Behind(keys: seq<string>, key: string): set<string> {
    if keys == [] || keys[|keys| - 1] == key then {} else Behind(keys[..|keys| - 1], key) + {keys[|keys| - 1]}
  }

  lemma {:induction false} BehindWithout(keys: seq<string>, x: string, key: string)
    requires x != key
    ensures Behind(Without(keys, x), key) == Behind(keys, key) - {x}
    decreases |keys|
  {
    if keys != [] {
      var front, last := keys[..|keys| - 1], keys[|keys| - 1];
      BehindWithout(front, x, key);
      var rest := Without(front, x);
      if last == x {
        assert Without(keys, x) == rest;
      } else {
        assert Without(keys, x) == rest + [last] && (rest + [last])[..|rest|] == rest;
      }
    }
  }

  lemma {:induction false} BehindIsSince<E, R>(log: seq<Touch<E, R>>, key: string)
    ensures Behind(Recency(log), key) == TouchedSince(log, key)
    decreases |log|
  {
    if log != [] {
      var front, last := log[..|log| - 1], KeyOf(log[|log| - 1]);
      var keys := Without(Recency(front), last);
      assert (keys + [last])[..|keys|] == keys;
      if last != key {
        BehindIsSince(front, key);
        BehindWithout(Recency(front), last, key);
      }
    }
  }

  lemma {:induction false} BehindCounts(keys: seq<string>, p: nat)
    requires Distinct(keys) && p < |keys|
    ensures |Behind(keys, keys[p])| == |keys| - 1 - p
    ensures forall k :: k in Behind(keys, keys[p]) ==> k in keys
    decreases |keys|
  {
    var front, last := keys[..|keys| - 1], keys[|keys| - 1];
    if p < |keys| - 1 {
      assert forall i :: 0 <= i < |front| ==> front[i] == keys[i] != last;
      BehindCounts(front, p);
      assert last !in Behind(front, keys[p]);
      assert Behind(keys, keys[p]) == Behind(front, keys[p]) + {last};
    }
  }

  /** A key is remembered exactly when it was touched and fewer than `n` others were touched since. */
  lemma RememberedExactly<E, R>(log: seq<Touch<E, R>>, n: nat, key: string)
    ensures key in LastN(Recency(log), n) <==>
            Touched(log, key) && |TouchedSince(log, key)| < n
  {
    hide Recency, TouchedSince, Behind, Touched;
    RecencyIsDistinct(log);
    BehindIsSince(log, key);
    var keys := Recency(log);
    if key in keys {
      var p :| 0 <= p < |keys| && keys[p] == key;
      BehindCounts(keys, p);
      InLast(keys, n, p);
    }
  }

  lemma InLast(keys: seq<string>, n: nat, p: nat)
    requires Distinct(keys) && p < |keys|
    ensures keys[p] in LastN(keys, n) <==> |keys| - 1 - p < n
  {
    if |keys| > n {
      var k := |keys| - n;
      assert p >= k ==> LastN(keys, n)[p - k] == keys[p];
      if keys[p] in LastN(keys, n) {
        var i :| 0 <= i < n && LastN(keys, n)[i] == keys[p];
        assert keys[k + i] == keys[p];
      }
    }
  }

  // ---------------------------------------------------------------- what a lookup finds

  /** The similarity the lookup sees: entries of zero norm are passed over. */
  function Sim<E, R>(isZero: E -> bool, cosine: (E, E) -> real, query: E, entry: Entry<E, R>): real {
    if isZero(entry.embedding) then 0.0 else cosine(query, entry.embedding)
  }

  /** The first entry of the greatest positive similarity. */
  ghost predicate Nearest<E, R>(entries: seq<Entry<E, R>>, isZero: E -> bool, cosine: (E, E) -> real, query: E, i: nat)
  {
    && i < |entries| && Sim(isZero, cosine, query, entries[i]) > 0.0
    && (forall j :: 0 <= j < i ==> Sim(isZero, cosine, query, entries[j]) < Sim(isZero, cosine, query, entries[i]))
    && (forall j :: i < j < |entries| ==>
          Sim(isZero, cosine, query, entries[j]) <= Sim(isZero, cosine, query, entries[i]))
  }

  /** Entry `i` answers the query: the one under its key, or else the nearest one if it is near enough. */
  ghost predicate Answers<E, R>(entries: seq<Entry<E, R>>, isZero: E -> bool, cosine: (E, E) -> real, threshold: real,
                                key: string, query: E, i: nat)
  {
    if key in Keys(entries) then i < |entries| && entries[i].key == key
    else
      !isZero(query) && Nearest(entries, isZero, cosine, query, i) &&
      Sim(isZero, cosine, query, entries[i]) >= threshold
  }

  /** If the key is not held, the entry that answers is not of zero norm, is similar enough, and no other is
      more similar, or as similar and held before it. */
  lemma NearestAnswers<E, R>(entries: seq<Entry<E, R>>, isZero: E -> bool, cosine: (E, E) -> real, threshold: real,
                             key: string, query: E, i: nat)
    requires Answers(entries, isZero, cosine, threshold, key, query, i)
    ensures i < |entries|
    ensures entries[i].key != key ==>
      var x := cosine(query, entries[i].embedding);
      && !isZero(query) && !isZero(entries[i].embedding) && x > 0.0 && x >= threshold
      && forall j :: 0 <= j < |entries| && j != i && !isZero(entries[j].embedding) ==>
           if j < i then cosine(query, entries[j].embedding) < x else cosine(query, entries[j].embedding) <= x
  {
    if entries[i].key != key {
      forall j | 0 <= j < |entries| && j != i && !isZero(entries[j].embedding)
        ensures var x := cosine(query, entries[i].embedding);
          if j < i then cosine(query, entries[j].embedding) < x else cosine(query, entries[j].embedding) <= x
      {
        assert Sim(isZero, cosine, query, entries[j]) == cosine(query, entries[j].embedding);
      }
    }
  }

  lemma OneEntryAnswers<E, R>(entries: seq<Entry<E, R>>, log: seq<Touch<E, R>>, n: nat, isZero: E -> bool,
                              cosine: (E, E) -> real, threshold: real, key: string, query: E, i: nat, j: nat)
    requires Remembers(entries, log, n)
    requires Answers(entries, isZero, cosine, threshold, key, query, i)
    requires Answers(entries, isZero, cosine, threshold, key, query, j)
    ensures i == j
  {
    KeysDistinct(entries, log, n);
    if i < |entries| && j < |entries| { DistinctAt(Keys(entries), i, j); }
  }

  lemma DistinctAt(keys: seq<string>, i: nat, j: nat)
    requires Distinct(keys) && i < |keys| && j < |keys|
    ensures keys[i] == keys[j] ==> i == j
  {
  }

  /** What was stored last is found under its own key, by any later query that normalises to it, until
      `n` other keys have been touched: the answer is then the latest value stored under that key. */
  lemma OwnKeyAnswersExactly<E, R>(entries: seq<Entry<E, R>>, log: seq<Touch<E, R>>, n: nat, isZero: E -> bool,
                                   cosine: (E, E) -> real, threshold: real, key: string, query: E)
    requires Remembers(entries, log, n)
    ensures (exists i :: 0 <= i < |entries| && entries[i].key == key && Latest(log, key) == Some(entries[i]) &&
                         Answers(entries, isZero, cosine, threshold, key, query, i)) <==>
            Touched(log, key) && |TouchedSince(log, key)| < n
  {
    hide Recency, LastN, TouchedSince, Latest;
    RememberedExactly(log, n, key);
    if key in Keys(entries) {
      var i :| 0 <= i < |entries| && Keys(entries)[i] == key;
      assert Answers(entries, isZero, cosine, threshold, key, query, i);
    }
  }

  /** Something answers exactly when the key is held, or some entry is similar enough. */
  lemma {:induction false} SomethingAnswersExactly<E, R>(entries: seq<Entry<E, R>>, isZero: E -> bool,
      cosine: (E, E) -> real, threshold: real, key: string, query: E)
    ensures (exists i :: Answers(entries, isZero, cosine, threshold, key, query, i)) <==>
      (key in Keys(entries) ||
       (!isZero(query) && exists i :: 0 <= i < |entries| && Sim(isZero, cosine, query, entries[i]) > 0.0 &&
                                      Sim(isZero, cosine, query, entries[i]) >= threshold))
  {
    if key in Keys(entries) {
      var i :| 0 <= i < |entries| && Keys(entries)[i] == key;
      assert Answers(entries, isZero, cosine, threshold, key, query, i);
    } else if !isZero(query) {
      if i :| 0 <= i < |entries| && Sim(isZero, cosine, query, entries[i]) > 0.0 &&
              Sim(isZero, cosine, query, entries[i]) >= threshold {
        var best := NearestExists(entries, isZero, cosine, query, i);
        assert Answers(entries, isZero, cosine, threshold, key, query, best);
      }
    }
  }

  lemma {:induction false} NearestExists<E, R>(entries: seq<Entry<E, R>>, isZero: E -> bool, cosine: (E, E) -> real,
                                               query: E, i: nat) returns (best: nat)
    requires i < |entries| && Sim(isZero, cosine, query, entries[i]) > 0.0
    ensures Nearest(entries, isZero, cosine, query, best)
    ensures Sim(isZero, cosine, query, entries[i]) <= Sim(isZero, cosine, query, entries[best])
    decreases |entries|
  {
    var n := |entries| - 1;
    if positive :| 0 <= positive < n && Sim(isZero, cosine, query, entries[positive]) > 0.0 {
      best := NearestExists(entries[..n], isZero, cosine, query, if i < n then i else positive);
      if Sim(isZero, cosine, query, entries[n]) > Sim(isZero, cosine, query, entries[best]) {
        assert forall j :: 0 <= j < n ==> entries[..n][j] == entries[j];
        best := n;
      }
    } else {
      best := n;
    }
  }

  // ---------------------------------------------------------------- the cache

  /** The index maps each key held to itself. */
  ghost predicate Indexes<E, R>(exact: map<string, string>, entries: seq<Entry<E, R>>) {
    forall k :: (k in exact <==> k in Keys(entries)) && (k in exact ==> exact[k] == k)
  }

  lemma SameKeys<E, R>(entries: seq<Entry<E, R>>, i: nat, e: Entry<E, R>)
    requires i < |entries| && e.key == entries[i].key
    ensures var after := entries[..i] + entries[i + 1..] + [e];
      forall k :: k in Keys(after) <==> k in Keys(entries)
  {
    var after := entries[..i] + entries[i + 1..] + [e];
    forall k ensures k in Keys(after) <==> k in Keys(entries) {
      if k in Keys(entries) {
        var j :| 0 <= j < |entries| && Keys(entries)[j] == k;
        var m := if j < i then j else if j == i then |entries| - 1 else j - 1;
        assert Keys(after)[m] == k;
      }
      if k in Keys(after) {
        var m :| 0 <= m < |after| && Keys(after)[m] == k;
        var j := if m < i then m else if m == |entries| - 1 then i else m + 1;
        assert Keys(entries)[j] == k;
      }
    }
  }

  lemma MovedIndex<E, R>(exact: map<string, string>, entries: seq<Entry<E, R>>, i: nat, e: Entry<E, R>)
    requires Indexes(exact, entries) && i < |entries| && e.key == entries[i].key
    ensures Indexes(exact[e.key := e.key], entries[..i] + entries[i + 1..] + [e])
    ensures Indexes(exact, entries[..i] + entries[i + 1..] + [e])
  {
    SameKeys(entries, i, e);
    assert Keys(entries)[i] == e.key;
  }

  lemma AppendedIndex<E, R>(exact: map<string, string>, entries: seq<Entry<E, R>>, e: Entry<E, R>)
    requires Indexes(exact, entries) && e.key !in Keys(entries) && Distinct(Keys(entries))
    ensures Indexes(exact[e.key := e.key], entries + [e]) && Distinct(Keys(entries + [e]))
  {
    assert Keys(entries + [e]) == Keys(entries) + [e.key];
  }

  /** The index without the keys mapped to `value`. */
  function WithoutValue(exact: map<string, string>, value: string): map<string, string> {
    map k | k in exact && exact[k] != value :: exact[k]
  }

  lemma TailOfTail<T>(s: seq<T>, m: nat)
    requires m < |s|
    ensures s[m..][1..] == s[m + 1..]
  {
  }

  lemma ShrunkIndex<E, R>(exact: map<string, string>, entries: seq<Entry<E, R>>)
    requires Indexes(exact, entries) && entries != [] && Distinct(Keys(entries))
    ensures Indexes(WithoutValue(exact, entries[0].key), entries[1..])
  {
    assert Keys(entries) == [entries[0].key] + Keys(entries[1..]);
    assert forall i :: 0 < i < |entries| ==> Keys(entries)[i] != Keys(entries)[0];
    assert entries[0].key !in Keys(entries[1..]);
  }

  lemma DistinctLast<E, R>(entries: seq<Entry<E, R>>, m: nat)
    requires Distinct(Keys(entries)) && m <= |entries|
    ensures Distinct(Keys(entries[m..]))
  {
    assert forall i :: 0 <= i < |entries| - m ==> Keys(entries[m..])[i] == Keys(entries)[m + i];
  }

  lemma NothingLeft<T>(s: seq<T>, popped: nat, maxSize: int)
    requires popped == |s| && maxSize < 0
    ensures s[popped..] == LastN(s, Capacity(maxSize))
  {
  }

  lemma RestFits<T>(s: seq<T>, popped: nat, maxSize: int)
    requires popped <= |s| && |s[popped..]| <= maxSize && (popped == 0 || Capacity(maxSize) <= |s| - popped)
    ensures s[popped..] == LastN(s, Capacity(maxSize))
  {
  }

  lemma NothingAnswers<E, R>(entries: seq<Entry<E, R>>, isZero: E -> bool, cosine: (E, E) -> real, threshold: real,
                             key: string, query: E, best: Option<nat>)
    requires key !in Keys(entries)
    requires best.Some? ==> Nearest(entries, isZero, cosine, query, best.value) &&
                            Sim(isZero, cosine, query, entries[best.value]) < threshold
    requires best.None? ==> forall i :: 0 <= i < |entries| ==> Sim(isZero, cosine, query, entries[i]) <= 0.0
    ensures forall i :: !Answers(entries, isZero, cosine, threshold, key, query, i)
  {
  }

  function Capacity(maxSize: int): nat { if maxSize < 0 then 0 else maxSize }

  class SemanticQueryCache<E, R> {
    const maxSize: int
    const threshold: real
    /** Trims and lowers a query; the digest of the result is the key. */
    const normalize: string -> string
    const isZero: E -> bool
    const cosine: (E, E) -> real
    var entries: seq<Entry<E, R>>
    var exact: map<string, string>
    /** The touches since the cache was last emptied. */
    ghost var log: seq<Touch<E, R>>

    ghost predicate Valid()
      reads this
    {
      Remembers(entries, log, Capacity(maxSize)) && Indexes(exact, entries)
    }

    constructor (maxSize: int, threshold: real, normalize: string -> string, isZero: E -> bool, cosine: (E, E) -> real)
      ensures Valid() && log == []
      ensures this.maxSize == maxSize && this.threshold == threshold && this.normalize == normalize
      ensures this.isZero == isZero && this.cosine == cosine
    {
      this.maxSize, this.threshold, this.normalize := maxSize, threshold, normalize;
      this.isZero, this.cosine := isZero, cosine;
      entries, exact, log := [], map[], [];
    }

    /** A hit is what was stored last under the key that answers, and touches that key; without an answer
        nothing changes. */
    method Get(query: string, embedding: E) returns (result: Option<R>)
      requires Valid()
      modifies this
      ensures Valid()
      ensures result.Some? <==>
                exists i :: Answers(old(entries), isZero, cosine, threshold, normalize(query), embedding, i)
      ensures result.Some? ==>
        exists i: nat :: Answers(old(entries), isZero, cosine, threshold, normalize(query), embedding, i) &&
          result.value == old(entries)[i].result && log == old(log) + [Hit(old(entries)[i].key)]
      ensures result.None? ==> entries == old(entries) && exact == old(exact) && log == old(log)
    {
      hide Remembers, Nearest;
      var key := normalize(query);
      if key in exact {
        var held := exact[key];
        var i := Position(held);
        if i < |entries| {
          assert Keys(entries)[i] == key;
          assert Answers(entries, isZero, cosine, threshold, key, embedding, i);
          result := Some(entries[i].result);
          MoveToEnd(i);
          return;
        }
      }
      if isZero(embedding) { return None; }
      var best := FindNearest(embedding);
      if best.Some? && Sim(isZero, cosine, embedding, entries[best.value]) >= threshold {
        var i := best.value;
        assert Answers(entries, isZero, cosine, threshold, key, embedding, i);
        result := Some(entries[i].result);
        MoveToEnd(i);
        return;
      }
      NothingAnswers(entries, isZero, cosine, threshold, key, embedding, best);
      return None;
    }

    /** A key is held exactly when it was touched and fewer than `maxSize` other keys were touched since. */
    lemma HoldsExactly(key: string)
      requires Valid()
      ensures key in Keys(entries) <==> Touched(log, key) && |TouchedSince(log, key)| < maxSize
    {
      RememberedExactly(log, Capacity(maxSize), key);
    }

    /** Where the key is held; past the end if it is not. */
    method Position(key: string) returns (i: nat)
      ensures if key in Keys(entries) then i < |entries| && entries[i].key == key else i == |entries|
    {
      i := 0;
      while i < |entries|
        invariant i <= |entries| && forall j :: 0 <= j < i ==> entries[j].key != key
      {
        if entries[i].key == key { return; }
        i := i + 1;
      }
    }

    method FindNearest(embedding: E) returns (best: Option<nat>)
      ensures best.Some? ==> Nearest(entries, isZero, cosine, embedding, best.value)
      ensures best.None? ==> forall i :: 0 <= i < |entries| ==> Sim(isZero, cosine, embedding, entries[i]) <= 0.0
    {
      best := None;
      var bestSim := 0.0;
      for n := 0 to |entries|
        invariant best.Some? ==> (best.value < n && bestSim > 0.0 &&
          bestSim == Sim(isZero, cosine, embedding, entries[best.value]) &&
          forall j :: 0 <= j < best.value ==> Sim(isZero, cosine, embedding, entries[j]) < bestSim)
        invariant best.None? ==> bestSim == 0.0
        invariant forall j :: 0 <= j < n ==> Sim(isZero, cosine, embedding, entries[j]) <= bestSim
      {
        if isZero(entries[n].embedding) { continue; }
        var sim := cosine(embedding, entries[n].embedding);
        if sim > bestSim {
          bestSim := sim;
          best := Some(n);
        }
      }
    }

    method MoveToEnd(i: nat)
      requires Valid() && i < |entries|
      modifies this
      ensures Valid() && log == old(log) + [Hit(old(entries)[i].key)]
    {
      hide Remembers, Indexes;
      HitMoves(entries, log, Capacity(maxSize), i);
      MovedIndex(exact, entries, i, entries[i]);
      log := log + [Hit(entries[i].key)];
      entries := entries[..i] + entries[i + 1..] + [entries[i]];
    }

    /** Stores under the query's key. A negative size makes the eviction loop raise on the empty cache. */
    method Set(query: string, embedding: E, value: R) returns (outcome: Result<(), string>)
      requires Valid()
      modifies this
      ensures Valid() && log == old(log) + [Stored(Entry(normalize(query), embedding, value))]
      ensures outcome == if maxSize < 0 then Err("dictionary is empty") else Ok(())
    {
      hide Remembers, Indexes, LastN;
      Put(Entry(normalize(query), embedding, value));
      outcome := Evict();
    }

    /** Stores the entry at the end, in the place of one under the same key. */
    method Put(entry: Entry<E, R>)
      requires Valid()
      modifies this
      ensures log == old(log) + [Stored(entry)] && Remembers(LastN(entries, Capacity(maxSize)), log, Capacity(maxSize))
      ensures Indexes(exact, entries) && Distinct(Keys(entries)) && entries != []
    {
      hide Remembers, LastN, Indexes;
      ghost var n := Capacity(maxSize);
      var i := Position(entry.key);
      KeysDistinct(entries, log, n);
      if i < |entries| {
        ghost var after := entries[..i] + entries[i + 1..] + [entry];
        StoreReplaces(entries, log, n, i, entry);
        MovedIndex(exact, entries, i, entry);
        KeysDistinct(after, log + [Stored(entry)], n);
        LastNFits(after, n);
        entries := entries[..i] + entries[i + 1..] + [entry];
      } else {
        StoreAppends(entries, log, n, entry);
        AppendedIndex(exact, entries, entry);
        entries := entries + [entry];
      }
      exact := exact[entry.key := entry.key];
      log := log + [Stored(entry)];
    }

    /** Drops the oldest entry and its keys in the index. */
    method PopOldest()
      requires Indexes(exact, entries) && Distinct(Keys(entries)) && entries != []
      modifies `entries, `exact
      ensures entries == old(entries)[1..] && Indexes(exact, entries) && Distinct(Keys(entries))
    {
      hide Indexes, Distinct, WithoutValue;
      DistinctLast(entries, 1);
      ShrunkIndex(exact, entries);
      exact := WithoutValue(exact, entries[0].key);
      entries := entries[1..];
    }

    /** Drops the oldest entries and their keys in the index until the rest fits. */
    method Evict() returns (outcome: Result<(), string>)
      requires Indexes(exact, entries) && Distinct(Keys(entries))
      modifies `entries, `exact
      ensures entries == LastN(old(entries), Capacity(maxSize)) && Indexes(exact, entries)
      ensures outcome == if maxSize < 0 then Err("dictionary is empty") else Ok(())
    {
      hide Indexes, Distinct, LastN;
      ghost var full, popped := entries, 0;
      while |entries| > maxSize
        invariant Indexes(exact, entries) && Distinct(Keys(entries))
        invariant popped <= |full| && entries == full[popped..]
        invariant popped == 0 || Capacity(maxSize) <= |full| - popped
        decreases |entries|
      {
        if entries == [] {
          NothingLeft(full, popped, maxSize);
          return Err("dictionary is empty");
        }
        TailOfTail(full, popped);
        PopOldest();
        popped := popped + 1;
      }
      RestFits(full, popped, maxSize);
      return Ok(());
    }

    method Invalidate()
      modifies this
      ensures Valid() && log == [] && entries == []
    {
      entries, exact := [], map[];
      log := [];
    }
  }
}
