/**
  The embedding cache (backend/memory/embeddings.py): a table of embeddings by key, and the batched
  embedding of texts that fills it. The digest of a text stands for the text.
 */
module EmbeddingCache {
  import opened Wrappers
  import opened Results
  import opened Sequences

  /** What the key's digest is taken of. */
  datatype Key = Key(prefix: string, text: string)

  datatype Row = Row(key: Key, embedding: Vector)

  function CacheKey(provider: string, model: string, text: string): Key {
    Key(provider + ":" + model, text)
  }

  /** What two keys have in common: the text, and either provider and model or, because a model may hold
      a colon, one provider's name and a colon at the start of the other's. */
  lemma KeysTellApart(p: string, m: string, t: string, q: string, n: string, u: string)
    ensures CacheKey(p, m, t) == CacheKey(q, n, u) <==>
            t == u && ((p == q && m == n) || (p + ":" <= q && m == q[|p| + 1..] + ":" + n) ||
                       (q + ":" <= p && n == p[|q| + 1..] + ":" + m))
  {
    if |p| == |q| {
      SameLengthNames(p, m, q, n);
    } else if |p| < |q| {
      LongerName(p, m, q, n);
    } else {
      LongerName(q, n, p, m);
    }
  }

  lemma SameLengthNames(p: string, m: string, q: string, n: string)
    requires |p| == |q|
    ensures p + ":" + m == q + ":" + n <==> p == q && m == n
  {
    var a, b := p + ":" + m, q + ":" + n;
    assert a[..|p|] == p && b[..|p|] == q && a[|p| + 1..] == m && b[|p| + 1..] == n;
  }

  lemma LongerName(p: string, m: string, q: string, n: string)
    requires |p| < |q|
    ensures p + ":" + m == q + ":" + n <==> p + ":" <= q && m == q[|p| + 1..] + ":" + n
  {
    var a, b := p + ":" + m, q + ":" + n;
    assert a[..|p| + 1] == p + ":" && b[..|p| + 1] == q[..|p| + 1];
    assert a[|p| + 1..] == m && b[|p| + 1..] == q[|p| + 1..] + ":" + n;
    assert a == a[..|p| + 1] + a[|p| + 1..] && b == b[..|p| + 1] + b[|p| + 1..];
  }

  /** Two providers never share an entry exactly when neither's name starts with the other's and a colon;
      names without a colon never do. */
  lemma ProvidersTellApartExactly(p: string, q: string)
    requires p != q
    ensures (forall m, n, t, u :: CacheKey(p, m, t) != CacheKey(q, n, u)) <==> !(p + ":" <= q) && !(q + ":" <= p)
    ensures ':' !in p && ':' !in q ==> !(p + ":" <= q) && !(q + ":" <= p)
  {
    if p + ":" <= q {
      KeysTellApart(p, q[|p| + 1..] + ":" + "", "", q, "", "");
    } else if q + ":" <= p {
      KeysTellApart(p, "", "", q, p[|q| + 1..] + ":" + "", "");
    } else {
      forall m, n, t, u ensures CacheKey(p, m, t) != CacheKey(q, n, u) {
        KeysTellApart(p, m, t, q, n, u);
      }
    }
    ColonAfter(p, q);
    ColonAfter(q, p);
  }

  lemma ColonAfter(p: string, q: string)
    ensures p + ":" <= q ==> ':' in q
  {
    if p + ":" <= q { assert q[|p|] == (p + ":")[|p|]; }
  }

  // ---------------------------------------------------------------- the table

  function Find(rows: seq<Row>, key: Key): Option<Vector> {
    if rows == [] then None
    else if rows[|rows| - 1].key == key then Some(rows[|rows| - 1].embedding)
    else Find(rows[..|rows| - 1], key)
  }

  function WithoutKey(rows: seq<Row>, key: Key): seq<Row> {
    if rows == [] then []
    else WithoutKey(rows[..|rows| - 1], key) + if rows[|rows| - 1].key == key then [] else [rows[|rows| - 1]]
  }

  /** Inserts or replaces: the row gets the highest row number. */
  function Insert(rows: seq<Row>, row: Row): seq<Row> {
    WithoutKey(rows, row.key) + [row]
  }

  function InsertAll(rows: seq<Row>, more: seq<Row>): seq<Row> {
    if more == [] then rows else Insert(InsertAll(rows, more[..|more| - 1]), more[|more| - 1])
  }

  /** The rows left when all but the newest `maxEntries` are deleted. */
  function Pruned(rows: seq<Row>, maxEntries: int): seq<Row> {
    if |rows| <= maxEntries then rows
    else if maxEntries < 0 then []
    else rows[|rows| - maxEntries..]
  }

  const PRUNE_INTERVAL: nat := 1000
  const MAX_ENTRIES: nat := 50000

  function Settled(rows: seq<Row>, count: nat): seq<Row> {
    if count % PRUNE_INTERVAL == 0 then Pruned(rows, MAX_ENTRIES) else rows
  }

  // ---------------------------------------------------------------- embedding in batches

  /** What the provider answers for the texts, batch by batch; nothing if it ever answers with the wrong
      number of vectors. */
  function Answers(embed: seq<string> -> seq<Vector>, texts: seq<string>, size: nat): (answers: Option<seq<Vector>>)
    requires size > 0
    ensures answers.Some? ==> |answers.value| == |texts|
    decreases |texts|
  {
    if texts == [] then Some([])
    else
      var n := if size < |texts| then size else |texts|;
      var rest := Answers(embed, texts[n..], size);
      if |embed(texts[..n])| != n || rest.None? then None else Some(embed(texts[..n]) + rest.value)
  }

  /** The positions of the texts that are not in the table. */
  function Missing(rows: seq<Row>, prefix: string, texts: seq<string>): (missing: seq<nat>)
    ensures forall i: nat :: i in missing <==> i < |texts| && Find(rows, Key(prefix, texts[i])).None?
    ensures forall a, b :: 0 <= a < b < |missing| ==> missing[a] < missing[b]
  {
    if texts == [] then []
    else
      var n := |texts| - 1;
      var before := Missing(rows, prefix, texts[..n]);
      assert forall a :: 0 <= a < |before| ==> before[a] in before;
      if Find(rows, Key(prefix, texts[n])).None? then before + [n] else before
  }

  function TextsAt(texts: seq<string>, at: seq<nat>): (wanted: seq<string>)
    requires forall i :: i in at ==> i < |texts|
    ensures |wanted| == |at|
  {
    seq(|at|, a requires 0 <= a < |at| => assert at[a] in at; texts[at[a]])
  }

  function NewRows(prefix: string, texts: seq<string>, answers: seq<Vector>): (rows: seq<Row>)
    requires |answers| <= |texts|
    ensures |rows| == |answers|
  {
    seq(|answers|, a requires 0 <= a < |answers| => Row(Key(prefix, texts[a]), answers[a]))
  }

  /** The table after the answers have been stored, `count` rows having been stored before. */
  function RowsAfter(rows: seq<Row>, prefix: string, wanted: seq<string>, answers: seq<Vector>, count: nat): seq<Row>
    requires |answers| <= |wanted|
  {
    if answers == [] then rows else Settled(InsertAll(rows, NewRows(prefix, wanted, answers)), count + |answers|)
  }

  /** Each text's vector: the one in the table, or else the answer for it. */
  ghost predicate Filled(results: seq<Vector>, rows: seq<Row>, prefix: string, texts: seq<string>, missing: seq<nat>,
                         answers: seq<Vector>)
    requires |answers| == |missing|
  {
    && |results| == |texts|
    && (forall i :: 0 <= i < |texts| && Find(rows, Key(prefix, texts[i])).Some? ==>
          results[i] == Find(rows, Key(prefix, texts[i])).value)
    && (forall a :: 0 <= a < |missing| ==> missing[a] < |texts| && results[missing[a]] == answers[a])
  }

  /** The slots after the first answers have been put where their texts were missing. */
  ghost predicate Scattered(slots: seq<Option<Vector>>, found: seq<Option<Vector>>, at: seq<nat>, answers: seq<Vector>)
  {
    && |slots| == |found| && |answers| <= |at|
    && (forall a :: 0 <= a < |answers| ==> at[a] < |slots| && slots[at[a]] == Some(answers[a]))
    && (forall i :: 0 <= i < |slots| && i !in at[..|answers|] ==> slots[i] == found[i])
  }

  lemma ScattersOne(slots: seq<Option<Vector>>, found: seq<Option<Vector>>, at: seq<nat>, answers: seq<Vector>,
                    v: Vector)
    requires Scattered(slots, found, at, answers) && |answers| < |at| && at[|answers|] < |slots|
    requires forall a, b :: 0 <= a < b < |at| ==> at[a] < at[b]
    ensures Scattered(slots[at[|answers|] := Some(v)], found, at, answers + [v])
  {
    var n := |answers|;
    assert at[..n + 1] == at[..n] + [at[n]];
    assert forall a :: 0 <= a < n ==> at[a] != at[n];
  }

  lemma ScatteredAll(slots: seq<Option<Vector>>, found: seq<Option<Vector>>, rows: seq<Row>, prefix: string,
                     texts: seq<string>, answers: seq<Vector>)
    requires |found| == |texts| && forall i :: 0 <= i < |texts| ==> found[i] == Find(rows, Key(prefix, texts[i]))
    requires Scattered(slots, found, Missing(rows, prefix, texts), answers)
    requires |answers| == |Missing(rows, prefix, texts)|
    ensures forall i :: 0 <= i < |slots| ==> slots[i].Some?
    ensures Filled(Values(slots), rows, prefix, texts, Missing(rows, prefix, texts), answers)
  {
    hide Find, Missing;
    var at := Missing(rows, prefix, texts);
    assert at[..|answers|] == at;
    forall i | 0 <= i < |slots| ensures slots[i].Some? {
      if i in at {
        var a :| 0 <= a < |at| && at[a] == i;
        assert slots[at[a]] == Some(answers[a]);
      }
    }
    forall a | 0 <= a < |at| ensures at[a] < |texts| {
      assert at[a] in at;
    }
  }

  function Values(slots: seq<Option<Vector>>): (values: seq<Vector>)
    ensures |values| == |slots| && forall i :: 0 <= i < |slots| && slots[i].Some? ==> values[i] == slots[i].value
  {
    seq(|slots|, i requires 0 <= i < |slots| => if slots[i].Some? then slots[i].value else [])
  }

  /** The first batch and the rest. */
  lemma AnswersUnfold(embed: seq<string> -> seq<Vector>, texts: seq<string>, size: nat, n: nat)
    requires 0 < size && 0 < n <= |texts| && n == (if size < |texts| then size else |texts|)
    ensures var rest := Answers(embed, texts[n..], size);
      Answers(embed, texts, size) ==
        if |embed(texts[..n])| != n || rest.None? then None else Some(embed(texts[..n]) + rest.value)
  {
  }

  /** One more batch of answers. */
  lemma AnswersNext(embed: seq<string> -> seq<Vector>, texts: seq<string>, size: nat, done: nat, end: nat,
                    answers: seq<Vector>)
    requires size > 0 && done < end <= |texts| && end == (if done + size < |texts| then done + size else |texts|)
    requires Answers(embed, texts, size) == Before(answers, Answers(embed, texts[done..], size))
    ensures var more := embed(texts[done..end]);
      if |more| != end - done then Answers(embed, texts, size) == None
      else Answers(embed, texts, size) == Before(answers + more, Answers(embed, texts[end..], size))
  {
    hide Answers;
    var left, n: nat := texts[done..], end - done;
    assert left[..n] == texts[done..end] && left[n..] == texts[end..];
    AnswersUnfold(embed, left, size, n);
    var more, rest := embed(texts[done..end]), Answers(embed, texts[end..], size);
    if |more| == n && rest.Some? {
      assert answers + (more + rest.value) == answers + more + rest.value;
    }
  }

  function Before(answers: seq<Vector>, rest: Option<seq<Vector>>): Option<seq<Vector>> {
    if rest.Some? then Some(answers + rest.value) else None
  }

  lemma NothingScattered(found: seq<Option<Vector>>, at: seq<nat>)
    ensures Scattered(found, found, at, [])
  {
  }

  lemma NothingStored(embed: seq<string> -> seq<Vector>, prefix: string, texts: seq<string>, size: nat)
    requires size > 0
    ensures NewRows(prefix, texts, []) == []
    ensures Answers(embed, texts, size) == Before([], Answers(embed, texts[0..], size))
  {
    hide Answers;
    assert texts[0..] == texts;
    if Answers(embed, texts, size).Some? {
      assert [] + Answers(embed, texts, size).value == Answers(embed, texts, size).value;
    }
  }

  lemma NoMoreAnswers(embed: seq<string> -> seq<Vector>, texts: seq<string>, size: nat, answers: seq<Vector>)
    requires size > 0 && Answers(embed, texts, size) == Before(answers, Answers(embed, texts[|texts|..], size))
    ensures Answers(embed, texts, size) == Some(answers)
  {
    assert texts[|texts|..] == [];
    assert answers + [] == answers;
  }

  lemma NewRowsMore(prefix: string, texts: seq<string>, answers: seq<Vector>, v: Vector)
    requires |answers| < |texts|
    ensures NewRows(prefix, texts, answers + [v]) ==
            NewRows(prefix, texts, answers) + [Row(Key(prefix, texts[|answers|]), v)]
  {
  }

  class EmbeddingTable {
    /** The rows in the order of their row numbers. */
    var rows: seq<Row>
    var storeCount: nat

    constructor ()
      ensures rows == [] && storeCount == 0
    {
      rows, storeCount := [], 0;
    }

    function GetCached(provider: string, model: string, text: string): Option<Vector>
      reads this
    {
      Find(rows, CacheKey(provider, model, text))
    }

    /** Deletes the oldest rows, as many as there are too many, and returns that number. */
    method Prune(maxEntries: int) returns (deleted: int)
      modifies `rows
      ensures rows == Pruned(old(rows), maxEntries)
      ensures deleted == if |old(rows)| <= maxEntries then 0 else |old(rows)| - maxEntries
    {
      if |rows| <= maxEntries { return 0; }
      deleted := |rows| - maxEntries;
      rows := rows[if deleted < |rows| then deleted else |rows|..];
    }

    method Store(provider: string, model: string, text: string, embedding: Vector)
      modifies this
      ensures storeCount == old(storeCount) + 1
      ensures rows == Settled(Insert(old(rows), Row(CacheKey(provider, model, text), embedding)), storeCount)
    {
      rows := Insert(rows, Row(CacheKey(provider, model, text), embedding));
      storeCount := storeCount + 1;
      if storeCount % PRUNE_INTERVAL == 0 {
        var _ := Prune(MAX_ENTRIES);
      }
    }

    /** Embeds the texts, asking the provider only for those not in the table. A step of zero, a negative
        one with texts to embed, or a wrong number of answers raises, and then the table is unchanged. */
    method EmbedWithCache(texts: seq<string>, provider: string, model: string, embed: seq<string> -> seq<Vector>,
                          batchSize: int)
      returns (results: Result<seq<Vector>, string>)
      modifies this
      ensures var prefix := provider + ":" + model;
        var missing := Missing(old(rows), prefix, texts);
        var wanted := TextsAt(texts, missing);
        var answers := if batchSize > 0 then Answers(embed, wanted, batchSize)
                       else if batchSize < 0 && missing == [] then Some([]) else None;
        if answers.None? then results.Err? && rows == old(rows) && storeCount == old(storeCount)
        else
          && results.Ok? && Filled(results.value, old(rows), prefix, texts, missing, answers.value)
          && storeCount == old(storeCount) + |answers.value|
          && rows == RowsAfter(old(rows), prefix, wanted, answers.value, old(storeCount))
    {
      hide Find, Answers, Missing, Filled, InsertAll, NewRows, TextsAt, Scattered;
      ghost var prefix := provider + ":" + model;
      ghost var before := rows;
      var slots, uncachedIndices, uncachedTexts := LookUp(texts, provider, model);
      ghost var found := slots;
      NothingScattered(found, uncachedIndices);
      NothingStored(embed, prefix, uncachedTexts, 1);
      var toStore: seq<Row> := [];
      ghost var answers: seq<Vector> := [];
      if batchSize == 0 { return Err("range() arg 3 must not be zero"); }
      if batchSize > 0 {
        var ok;
        ok, slots, toStore, answers :=
          EmbedBatches(slots, uncachedIndices, uncachedTexts, provider, model, embed, batchSize);
        if !ok { return Err("length mismatch"); }
      }
      if toStore != [] {
        rows := InsertAll(rows, toStore);
        storeCount := storeCount + |toStore|;
        if storeCount % PRUNE_INTERVAL == 0 {
          var _ := Prune(MAX_ENTRIES);
        }
      }
      if |answers| == |uncachedIndices| {
        ScatteredAll(slots, found, before, prefix, texts, answers);
      } else {
        assert uncachedIndices[0] in uncachedIndices;
        assert slots[uncachedIndices[0]].None?;
      }
      var complete := IsComplete(slots);
      if !complete { return Err("embeddings missing"); }
      return Ok(Values(slots));
    }

    method LookUp(texts: seq<string>, provider: string, model: string)
      returns (found: seq<Option<Vector>>, uncachedIndices: seq<nat>, uncachedTexts: seq<string>)
      ensures |found| == |texts|
      ensures forall i :: 0 <= i < |texts| ==> found[i] == Find(rows, CacheKey(provider, model, texts[i]))
      ensures uncachedIndices == Missing(rows, provider + ":" + model, texts)
      ensures uncachedTexts == TextsAt(texts, uncachedIndices)
    {
      hide Find;
      found, uncachedIndices, uncachedTexts := [], [], [];
      ghost var prefix := provider + ":" + model;
      for i := 0 to |texts|
        invariant |found| == i
        invariant forall k :: 0 <= k < i ==> found[k] == Find(rows, Key(prefix, texts[k]))
        invariant uncachedIndices == Missing(rows, prefix, texts[..i])
        invariant uncachedTexts == TextsAt(texts, uncachedIndices)
      {
        assert texts[..i + 1][..i] == texts[..i];
        var cached := GetCached(provider, model, texts[i]);
        found := found + [cached];
        if cached.None? {
          uncachedIndices := uncachedIndices + [i];
          uncachedTexts := uncachedTexts + [texts[i]];
        }
      }
      assert texts[..|texts|] == texts;
    }

    /** Asks for the texts in batches and puts the answers into the slots. */
    method EmbedBatches(found: seq<Option<Vector>>, at: seq<nat>, texts: seq<string>, provider: string, model: string,
                        embed: seq<string> -> seq<Vector>, batchSize: nat)
      returns (ok: bool, slots: seq<Option<Vector>>, toStore: seq<Row>, ghost answers: seq<Vector>)
      requires batchSize > 0 && |at| == |texts| && forall i :: i in at ==> i < |found|
      requires forall a, b :: 0 <= a < b < |at| ==> at[a] < at[b]
      ensures ok <==> Answers(embed, texts, batchSize).Some?
      ensures ok ==>
        && Some(answers) == Answers(embed, texts, batchSize) && Scattered(slots, found, at, answers)
        && toStore == NewRows(provider + ":" + model, texts, answers)
    {
      hide Answers, NewRows, Scattered;
      slots, toStore, answers := found, [], [];
      ghost var prefix := provider + ":" + model;
      NothingScattered(found, at);
      NothingStored(embed, prefix, texts, batchSize);
      var start := 0;
      while start < |texts|
        invariant start <= |texts| && |answers| == start
        invariant Answers(embed, texts, batchSize) == Before(answers, Answers(embed, texts[start..], batchSize))
        invariant Scattered(slots, found, at, answers) && toStore == NewRows(prefix, texts, answers)
        invariant |slots| == |found|
      {
        var end := if start + batchSize < |texts| then start + batchSize else |texts|;
        var embeddings := embed(texts[start..end]);
        AnswersNext(embed, texts, batchSize, start, end, answers);
        if |embeddings| != end - start { return false, slots, toStore, answers; }
        ghost var before := answers;
        for j := 0 to |embeddings|
          invariant answers == before + embeddings[..j] && |slots| == |found|
          invariant Scattered(slots, found, at, answers) && toStore == NewRows(prefix, texts, answers)
        {
          assert at[start + j] in at;
          ScattersOne(slots, found, at, answers, embeddings[j]);
          NewRowsMore(prefix, texts, answers, embeddings[j]);
          slots := slots[at[start + j] := Some(embeddings[j])];
          toStore := toStore + [Row(CacheKey(provider, model, texts[start + j]), embeddings[j])];
          answers := answers + [embeddings[j]];
          assert before + embeddings[..j + 1] == before + embeddings[..j] + [embeddings[j]];
        }
        assert embeddings[..|embeddings|] == embeddings;
        start := end;
      }
      NoMoreAnswers(embed, texts, batchSize, answers);
      return true, slots, toStore, answers;
    }

    method IsComplete(slots: seq<Option<Vector>>) returns (complete: bool)
      ensures complete <==> forall i :: 0 <= i < |slots| ==> slots[i].Some?
    {
      for i := 0 to |slots|
        invariant forall k :: 0 <= k < i ==> slots[k].Some?
      {
        if slots[i].None? { return false; }
      }
      return true;
    }
  }

  // ---------------------------------------------------------------- what the cache is for

  /** Every row holds the true embedding of its key. */
  ghost predicate Coherent(rows: seq<Row>, truth: Key -> Vector) {
    forall i :: 0 <= i < |rows| ==> rows[i].embedding == truth(rows[i].key)
  }

  /** The provider embeds each text of a batch by itself. */
  ghost predicate Pointwise(embed: seq<string> -> seq<Vector>, prefix: string, truth: Key -> Vector) {
    forall batch :: |embed(batch)| == |batch| &&
      forall i :: 0 <= i < |batch| ==> embed(batch)[i] == truth(Key(prefix, batch[i]))
  }

  lemma {:induction false} FoundIsTrue(rows: seq<Row>, truth: Key -> Vector, key: Key)
    requires Coherent(rows, truth)
    ensures Find(rows, key).Some? ==> Find(rows, key).value == truth(key)
    decreases |rows|
  {
    if rows != [] {
      FoundIsTrue(rows[..|rows| - 1], truth, key);
    }
  }

  lemma {:induction false} BatchingDoesNotMatter(embed: seq<string> -> seq<Vector>, prefix: string,
                                                 truth: Key -> Vector,
                                                 texts: seq<string>, size: nat)
    requires size > 0 && Pointwise(embed, prefix, truth)
    ensures Answers(embed, texts, size).Some?
    ensures forall i :: 0 <= i < |texts| ==> Answers(embed, texts, size).value[i] == truth(Key(prefix, texts[i]))
    decreases |texts|
  {
    if texts != [] {
      var n := if size < |texts| then size else |texts|;
      BatchingDoesNotMatter(embed, prefix, truth, texts[n..], size);
      assert |embed(texts[..n])| == n;
      forall i | 0 <= i < |texts| ensures Answers(embed, texts, size).value[i] == truth(Key(prefix, texts[i])) {
        if i < n { assert texts[..n][i] == texts[i]; } else { assert texts[n..][i - n] == texts[i]; }
      }
    }
  }

  /** With a coherent table and any batch size the call returns the embeddings of the texts, as if there
      were no cache. */
  lemma CachedIsUncached(embed: seq<string> -> seq<Vector>, prefix: string, truth: Key -> Vector, rows: seq<Row>,
                         texts: seq<string>, size: nat, results: seq<Vector>)
    requires size > 0 && Pointwise(embed, prefix, truth) && Coherent(rows, truth)
    requires var missing := Missing(rows, prefix, texts);
      var answers := Answers(embed, TextsAt(texts, missing), size);
      answers.Some? && Filled(results, rows, prefix, texts, missing, answers.value)
    ensures |results| == |texts| && forall i :: 0 <= i < |texts| ==> results[i] == truth(Key(prefix, texts[i]))
  {
    hide Find, Answers, Missing, Coherent, Pointwise;
    var missing := Missing(rows, prefix, texts);
    var wanted := TextsAt(texts, missing);
    BatchingDoesNotMatter(embed, prefix, truth, wanted, size);
    forall i | 0 <= i < |texts| ensures results[i] == truth(Key(prefix, texts[i])) {
      FoundIsTrue(rows, truth, Key(prefix, texts[i]));
      if i in missing {
        var a :| 0 <= a < |missing| && missing[a] == i;
        assert wanted[a] == texts[i];
      }
    }
  }

  lemma {:induction false} FindWithoutKey(rows: seq<Row>, key: Key, k: Key)
    ensures Find(WithoutKey(rows, key), k) == if k == key then None else Find(rows, k)
    decreases |rows|
  {
    if rows != [] {
      var front, last := rows[..|rows| - 1], rows[|rows| - 1];
      FindWithoutKey(front, key, k);
      var kept := WithoutKey(front, key);
      if last.key == key {
        assert WithoutKey(rows, key) == kept;
      } else {
        assert WithoutKey(rows, key) == kept + [last] && (kept + [last])[..|kept|] == kept;
      }
    }
  }

  /** After storing, each key has what was stored last under it, and other keys keep what they had. */
  lemma {:induction false} FindAfterStoring(rows: seq<Row>, more: seq<Row>, k: Key)
    ensures Find(InsertAll(rows, more), k) == if Find(more, k).Some? then Find(more, k) else Find(rows, k)
    decreases |more|
  {
    if more != [] {
      var front, last := more[..|more| - 1], more[|more| - 1];
      FindAfterStoring(rows, front, k);
      var before := InsertAll(rows, front);
      FindWithoutKey(before, last.key, k);
      assert (WithoutKey(before, last.key) + [last])[..|WithoutKey(before, last.key)|] == WithoutKey(before, last.key);
    }
  }

  ghost predicate UniqueKeys(rows: seq<Row>) {
    forall i, j :: 0 <= i < j < |rows| ==> rows[i].key != rows[j].key
  }

  lemma {:induction false} WithoutKeyKeeps(rows: seq<Row>, key: Key)
    ensures forall r :: r in WithoutKey(rows, key) <==> r in rows && r.key != key
    ensures UniqueKeys(rows) ==> UniqueKeys(WithoutKey(rows, key))
    decreases |rows|
  {
    if rows != [] {
      var front, last := rows[..|rows| - 1], rows[|rows| - 1];
      assert rows == front + [last];
      WithoutKeyKeeps(front, key);
      if UniqueKeys(rows) {
        assert forall i :: 0 <= i < |front| ==> front[i] == rows[i] && rows[i].key != rows[|rows| - 1].key;
        assert UniqueKeys(front);
        assert forall r :: r in WithoutKey(front, key) ==> r.key != last.key;
      }
    }
  }

  /** Storing true embeddings keeps the table coherent and its keys unique, and so does pruning. */
  lemma {:induction false} StoringKeepsTheTable(rows: seq<Row>, more: seq<Row>, truth: Key -> Vector, count: nat)
    requires Coherent(rows, truth) && UniqueKeys(rows) && Coherent(more, truth)
    ensures Coherent(InsertAll(rows, more), truth) && UniqueKeys(InsertAll(rows, more))
    ensures var after := Settled(InsertAll(rows, more), count); Coherent(after, truth) && UniqueKeys(after)
    decreases |more|
  {
    if more != [] {
      var front, last := more[..|more| - 1], more[|more| - 1];
      StoringKeepsTheTable(rows, front, truth, count);
      InsertKeeps(InsertAll(rows, front), last, truth);
    }
  }

  lemma InsertKeeps(rows: seq<Row>, row: Row, truth: Key -> Vector)
    requires Coherent(rows, truth) && UniqueKeys(rows) && row.embedding == truth(row.key)
    ensures Coherent(Insert(rows, row), truth) && UniqueKeys(Insert(rows, row))
  {
    hide WithoutKey;
    WithoutKeyKeeps(rows, row.key);
    var kept := WithoutKey(rows, row.key);
    forall i | 0 <= i < |kept| ensures kept[i].embedding == truth(kept[i].key) && kept[i].key != row.key {
      assert kept[i] in kept;
      var j :| 0 <= j < |rows| && rows[j] == kept[i];
    }
  }

  lemma NewRowsAreTrue(embed: seq<string> -> seq<Vector>, prefix: string, truth: Key -> Vector, texts: seq<string>,
                       size: nat)
    requires size > 0 && Pointwise(embed, prefix, truth)
    ensures Answers(embed, texts, size).Some?
    ensures Coherent(NewRows(prefix, texts, Answers(embed, texts, size).value), truth)
  {
    hide Answers, Pointwise;
    BatchingDoesNotMatter(embed, prefix, truth, texts, size);
  }

  /** Whatever the texts and the batch size, a call with a provider that embeds text by text succeeds, and
      leaves a coherent table of unique keys coherent and unique; `count` is the number of rows stored so far. */
  lemma CallKeepsTheTable(embed: seq<string> -> seq<Vector>, prefix: string, truth: Key -> Vector, rows: seq<Row>,
                          texts: seq<string>, size: nat, count: nat)
    requires size > 0 && Pointwise(embed, prefix, truth) && Coherent(rows, truth) && UniqueKeys(rows)
    ensures var wanted := TextsAt(texts, Missing(rows, prefix, texts));
      var answers := Answers(embed, wanted, size);
      answers.Some? && var after := RowsAfter(rows, prefix, wanted, answers.value, count);
                       Coherent(after, truth) && UniqueKeys(after)
  {
    hide Answers, Pointwise, Coherent, UniqueKeys, InsertAll, Settled, NewRows, Missing, TextsAt;
    var wanted := TextsAt(texts, Missing(rows, prefix, texts));
    NewRowsAreTrue(embed, prefix, truth, wanted, size);
    var answers := Answers(embed, wanted, size).value;
    StoringKeepsTheTable(rows, NewRows(prefix, wanted, answers), truth, count + |answers|);
  }

  lemma {:induction false} FindNewRow(prefix: string, texts: seq<string>, answers: seq<Vector>, a: nat)
    requires a < |answers| <= |texts|
    ensures Find(NewRows(prefix, texts, answers), Key(prefix, texts[a])).Some?
    decreases |answers|
  {
    var n := |answers| - 1;
    var rows := NewRows(prefix, texts, answers);
    assert rows[..n] == NewRows(prefix, texts, answers[..n]);
    assert rows[n].key == Key(prefix, texts[n]);
    if a < n { FindNewRow(prefix, texts, answers[..n], a); }
  }

  /** Right after a call, unless it pruned, the same texts are all in the table: the provider is not asked
      again. */
  lemma SecondCallAsksNothing(embed: seq<string> -> seq<Vector>, prefix: string, rows: seq<Row>, texts: seq<string>,
                              size: nat)
    requires size > 0 && Answers(embed, TextsAt(texts, Missing(rows, prefix, texts)), size).Some?
    ensures var wanted := TextsAt(texts, Missing(rows, prefix, texts));
      var after := InsertAll(rows, NewRows(prefix, wanted, Answers(embed, wanted, size).value));
      Missing(after, prefix, texts) == []
  {
    hide Answers, Find, Missing, NewRows, InsertAll;
    var missing := Missing(rows, prefix, texts);
    var wanted := TextsAt(texts, missing);
    var answers := Answers(embed, wanted, size).value;
    var more := NewRows(prefix, wanted, answers);
    forall i | 0 <= i < |texts| ensures Find(InsertAll(rows, more), Key(prefix, texts[i])).Some? {
      FindAfterStoring(rows, more, Key(prefix, texts[i]));
      if i in missing {
        var a :| 0 <= a < |missing| && missing[a] == i;
        FindNewRow(prefix, wanted, answers, a);
      }
    }
    var again := Missing(InsertAll(rows, more), prefix, texts);
    HasItem(again);
  }

  // ---------------------------------------------------------------- what a pruning call leaves

  /** The keys of the rows behind the last row with this key. */
  function Behind(rows: seq<Row>, key: Key): set<Key> {
    if rows == [] || rows[|rows| - 1].key == key then {}
    else Behind(rows[..|rows| - 1], key) + {rows[|rows| - 1].key}
  }

  function KeysOf(rows: seq<Row>): set<Key> { set r | r in rows :: r.key }

  lemma {:induction false} BehindWithoutKey(rows: seq<Row>, key: Key, k: Key)
    requires k != key
    ensures Behind(WithoutKey(rows, key), k) == Behind(rows, k) - {key}
    decreases |rows|
  {
    if rows != [] {
      var front, last := rows[..|rows| - 1], rows[|rows| - 1];
      BehindWithoutKey(front, key, k);
      var kept := WithoutKey(front, key);
      if last.key == key {
        assert WithoutKey(rows, key) == kept;
      } else {
        assert WithoutKey(rows, key) == kept + [last] && (kept + [last])[..|kept|] == kept;
      }
    }
  }

  /** Storing rows puts their keys behind every other row. */
  lemma {:induction false} BehindAfterStoring(rows: seq<Row>, more: seq<Row>, k: Key)
    ensures Behind(InsertAll(rows, more), k) ==
            if Find(more, k).Some? then Behind(more, k) else Behind(rows, k) + KeysOf(more)
    decreases |more|
  {
    if more != [] {
      var front, last := more[..|more| - 1], more[|more| - 1];
      assert more == front + [last];
      BehindAfterStoring(rows, front, k);
      BehindInserted(InsertAll(rows, front), last, k);
      assert KeysOf(more) == KeysOf(front) + {last.key};
      FindInKeys(front, k);
      BehindIsIn(front, k);
    }
  }

  lemma BehindInserted(rows: seq<Row>, row: Row, k: Key)
    ensures Behind(Insert(rows, row), k) == if k == row.key then {} else Behind(rows, k) + {row.key}
  {
    hide WithoutKey;
    var kept := WithoutKey(rows, row.key);
    assert (kept + [row])[..|kept|] == kept;
    if k != row.key { BehindWithoutKey(rows, row.key, k); }
  }

  lemma {:induction false} FindInKeys(rows: seq<Row>, k: Key)
    ensures Find(rows, k).Some? <==> k in KeysOf(rows)
    decreases |rows|
  {
    if rows != [] {
      assert rows == rows[..|rows| - 1] + [rows[|rows| - 1]];
      FindInKeys(rows[..|rows| - 1], k);
    }
  }

  lemma {:induction false} BehindIsIn(rows: seq<Row>, k: Key)
    ensures Behind(rows, k) <= KeysOf(rows)
    decreases |rows|
  {
    if rows != [] {
      assert rows == rows[..|rows| - 1] + [rows[|rows| - 1]];
      BehindIsIn(rows[..|rows| - 1], k);
    }
  }

  lemma {:induction false} FewBehind(rows: seq<Row>, k: Key)
    requires Find(rows, k).Some?
    ensures |Behind(rows, k)| < |rows|
    decreases |rows|
  {
    if rows[|rows| - 1].key != k { FewBehind(rows[..|rows| - 1], k); }
  }

  /** In a table of unique keys, pruning leaves the rows with few enough others behind them. */
  lemma {:induction false} FindPruned(rows: seq<Row>, max: nat, k: Key)
    requires UniqueKeys(rows)
    ensures Find(Pruned(rows, max), k).Some? <==> Find(rows, k).Some? && |Behind(rows, k)| < max
    decreases |rows|
  {
    hide Find, Behind, KeysOf, UniqueKeys;
    if |rows| <= max {
      if Find(rows, k).Some? { FewBehind(rows, k); }
    } else if max > 0 {
      var front, last := rows[..|rows| - 1], rows[|rows| - 1];
      assert rows == front + [last];
      LastIsNew(front, last);
      FindPruned(front, max - 1, k);
      var kept := Pruned(front, max - 1);
      assert Pruned(rows, max) == kept + [last];
      LastRow(kept, last, k);
      LastRow(front, last, k);
      BehindIsIn(front, k);
    } else {
      assert Pruned(rows, 0) == [] && Find([], k) == None by { NoRow(k); }
    }
  }

  lemma LastIsNew(front: seq<Row>, last: Row)
    requires UniqueKeys(front + [last])
    ensures UniqueKeys(front) && last.key !in KeysOf(front)
  {
    var rows := front + [last];
    assert forall i :: 0 <= i < |front| ==> rows[i] == front[i] && rows[i].key != rows[|front|].key;
  }

  lemma LastRow(front: seq<Row>, last: Row, k: Key)
    ensures Find(front + [last], k) == if last.key == k then Some(last.embedding) else Find(front, k)
    ensures Behind(front + [last], k) == if last.key == k then {} else Behind(front, k) + {last.key}
  {
    assert (front + [last])[..|front|] == front;
  }

  lemma NoRow(k: Key)
    ensures Find([], k) == None
  {
  }

  /** The keys that a call stores after this text was last stored. */
  function Newer(rows: seq<Row>, prefix: string, wanted: seq<string>, answers: seq<Vector>, text: string): set<Key>
    requires |answers| <= |wanted|
  {
    var more, key := NewRows(prefix, wanted, answers), Key(prefix, text);
    if Find(rows, key).None? then Behind(more, key) else Behind(rows, key) + KeysOf(more)
  }

  /** Right after a call, the provider is asked again for exactly those texts that the call pruned: if it
      did prune, those with at least as many newer keys as the table holds. */
  lemma SecondCallAsksExactly(embed: seq<string> -> seq<Vector>, prefix: string, rows: seq<Row>, texts: seq<string>,
                              size: nat, count: nat, i: nat)
    requires size > 0 && UniqueKeys(rows) && i < |texts|
    requires Answers(embed, TextsAt(texts, Missing(rows, prefix, texts)), size).Some?
    ensures var wanted := TextsAt(texts, Missing(rows, prefix, texts));
      var answers := Answers(embed, wanted, size).value;
      i in Missing(RowsAfter(rows, prefix, wanted, answers, count), prefix, texts) <==>
        && answers != [] && (count + |answers|) % 1000 == 0
        && |Newer(rows, prefix, wanted, answers, texts[i])| >= 50_000
  {
    hide Answers, Find, Missing, NewRows, InsertAll, Behind, KeysOf, UniqueKeys, Pruned;
    var missing := Missing(rows, prefix, texts);
    var wanted := TextsAt(texts, missing);
    var answers := Answers(embed, wanted, size).value;
    var more, key := NewRows(prefix, wanted, answers), Key(prefix, texts[i]);
    var stored := InsertAll(rows, more);
    SecondCallAsksNothing(embed, prefix, rows, texts, size);
    assert i !in Missing(stored, prefix, texts);
    NothingNew(rows, prefix, wanted);
    StoringKeepsKeys(rows, more);
    FindPruned(stored, MAX_ENTRIES, key);
    BehindAfterStoring(rows, more, key);
    FindAfterStoring(rows, more, key);
    if Find(rows, key).Some? { NewRowsAreMissing(rows, prefix, texts, answers, key); }
  }

  lemma NothingNew(rows: seq<Row>, prefix: string, wanted: seq<string>)
    ensures InsertAll(rows, NewRows(prefix, wanted, [])) == rows
  {
  }

  lemma {:induction false} StoringKeepsKeys(rows: seq<Row>, more: seq<Row>)
    requires UniqueKeys(rows)
    ensures UniqueKeys(InsertAll(rows, more))
    decreases |more|
  {
    hide WithoutKey;
    if more != [] {
      var front, last := more[..|more| - 1], more[|more| - 1];
      StoringKeepsKeys(rows, front);
      WithoutKeyKeeps(InsertAll(rows, front), last.key);
      var kept := WithoutKey(InsertAll(rows, front), last.key);
      assert forall j :: 0 <= j < |kept| ==> kept[j] in kept;
    }
  }

  /** What a call stores was not in the table. */
  lemma NewRowsAreMissing(rows: seq<Row>, prefix: string, texts: seq<string>, answers: seq<Vector>, key: Key)
    requires |answers| == |Missing(rows, prefix, texts)| && Find(rows, key).Some?
    ensures Find(NewRows(prefix, TextsAt(texts, Missing(rows, prefix, texts)), answers), key).None?
  {
    hide Find, Missing;
    var missing := Missing(rows, prefix, texts);
    var more := NewRows(prefix, TextsAt(texts, missing), answers);
    FindInKeys(more, key);
    forall a | 0 <= a < |more| ensures more[a].key != key {
      assert missing[a] in missing;
    }
  }
}
