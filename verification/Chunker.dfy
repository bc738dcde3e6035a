/**
  The hierarchical chunker (backend/ingestion/chunker.py).

  Tables become chunks of their own. The text of a page is cut into sentences, which are gathered
  greedily into chunks with an overlap; a sentence that is too long by itself is split by words.
  Token counts are estimates: a quarter of the length, at least one.
 */
module Chunker {
  import opened Words

  function EstimateTokens(text: string): nat {
    if |text| / 4 < 1 then 1 else |text| / 4
  }

  /** The summed estimates of the strings a chunk is joined from. */
  function Sum(parts: seq<string>): nat {
    if parts == [] then 0 else Sum(parts[..|parts| - 1]) + EstimateTokens(parts[|parts| - 1])
  }

  lemma {:induction false} SumAppend(a: seq<string>, b: seq<string>)
    ensures Sum(a + b) == Sum(a) + Sum(b)
    decreases |b|
  {
    if b == [] {
      assert a + b == a;
    } else {
      assert (a + b)[..|a + b| - 1] == a + b[..|b| - 1];
      SumAppend(a, b[..|b| - 1]);
    }
  }

  lemma SumNone()
    ensures Sum([]) == 0
  {
  }

  lemma SumOne(part: string)
    ensures Sum([part]) == EstimateTokens(part)
  {
    assert [part][..0] == [];
  }

  lemma {:induction false} JoinedLength(parts: seq<string>)
    ensures |parts| <= Sum(parts)
    ensures parts != [] ==> |JoinSpace(parts)| <= 4 * Sum(parts) + 4 * |parts| - 1
    decreases |parts|
  {
    if parts != [] {
      SumAppend([parts[0]], parts[1..]);
      SumOne(parts[0]);
      assert [parts[0]] + parts[1..] == parts;
      JoinedLength(parts[1..]);
    }
  }

  /** The stored count of a joined chunk, with the joining spaces and the truncating division, is below
      twice the sum it was gathered by. */
  lemma StoredCountBelowTwice(parts: seq<string>)
    requires parts != []
    ensures EstimateTokens(JoinSpace(parts)) < 2 * Sum(parts)
  {
    JoinedLength(parts);
  }

  // ---------------------------------------------------------------- what a list of text chunks must be

  /** A text chunk: the strings joined into it, whether it is part of a sentence split by words, the
      sentences `first..last` it is taken from, and the words `lo..hi` of the page it covers. */
  datatype Piece = Piece(parts: seq<string>, hard: bool, first: nat, last: nat, lo: nat, hi: nat)

  /** How many words a hard split carries over. */
  function Carried(overlap: int): (words: nat)
    ensures words >= 1 && 5 * words > overlap - 5 && (words > 1 ==> 5 * words <= overlap)
  {
    if overlap / 5 < 1 then 1 else overlap / 5
  }

  function Slack(overlap: int): nat { if overlap < 0 then 0 else overlap }

  ghost predicate PieceOk(p: Piece, words: seq<string>, size: int, overlap: int) {
    && p.parts != [] && p.lo < p.hi <= |words|
    && SplitAll(p.parts) == words[p.lo..p.hi]
    && (if p.hard then Sum(p.parts) <= size || |p.parts| <= Carried(overlap) + 1
        else Sum(p.parts) <= size + Slack(overlap))
  }

  function Covered(pieces: seq<Piece>): nat {
    if pieces == [] then 0 else pieces[|pieces| - 1].hi
  }

  /** The chunks are windows of the word sequence: they start at its beginning, leave no gap, and each
      ends later than the one before. */
  ghost predicate Built(chunks: seq<string>, pieces: seq<Piece>, words: seq<string>, size: int, overlap: int) {
    && |chunks| == |pieces|
    && (forall i :: 0 <= i < |pieces| ==>
          chunks[i] == JoinSpace(pieces[i].parts) && PieceOk(pieces[i], words, size, overlap))
    && (pieces != [] ==> pieces[0].lo == 0)
    && (forall i :: 0 < i < |pieces| ==> pieces[i].lo <= pieces[i - 1].hi < pieces[i].hi)
  }

  lemma Emit(chunks: seq<string>, pieces: seq<Piece>, words: seq<string>, size: int, overlap: int, p: Piece)
    requires Built(chunks, pieces, words, size, overlap) && PieceOk(p, words, size, overlap)
    requires p.lo <= Covered(pieces) < p.hi
    ensures Built(chunks + [JoinSpace(p.parts)], pieces + [p], words, size, overlap)
    ensures Covered(pieces + [p]) == p.hi
  {
    hide PieceOk;
  }

  /** The words of each chunk that the chunks before it do not have. */
  function NewWords(chunks: seq<string>, pieces: seq<Piece>): seq<string>
    requires |chunks| == |pieces|
  {
    if chunks == [] then []
    else
      var n := |chunks| - 1;
      var words := Words.Split(chunks[n]);
      var before := Covered(pieces[..n]);
      NewWords(chunks[..n], pieces[..n]) +
      if pieces[n].lo <= before <= pieces[n].lo + |words| then words[before - pieces[n].lo..] else words
  }

  lemma BuiltLast(chunks: seq<string>, pieces: seq<Piece>, words: seq<string>, size: int, overlap: int)
    requires Built(chunks, pieces, words, size, overlap) && chunks != []
    ensures |pieces| == |chunks|
    ensures var n := |chunks| - 1; var p := pieces[n];
      && Built(chunks[..n], pieces[..n], words, size, overlap)
      && chunks[n] == JoinSpace(p.parts) && SplitAll(p.parts) == words[p.lo..p.hi]
      && p.lo <= Covered(pieces[..n]) < p.hi <= |words|
  {
    hide SplitAll, JoinSpace, Sum;
    assert PieceOk(pieces[|chunks| - 1], words, size, overlap);
  }

  lemma SliceOfSlice<T>(s: seq<T>, lo: nat, hi: nat, a: nat, b: nat)
    requires lo <= hi <= |s| && a <= b <= hi - lo
    ensures s[lo..hi][a..b] == s[lo + a..lo + b]
  {
    var inner, outer := s[lo..hi][a..b], s[lo + a..lo + b];
    assert |inner| == |outer| == b - a;
    assert forall i :: 0 <= i < b - a ==> inner[i] == s[lo..hi][a + i] == outer[i];
  }

  lemma NewWordsOfLast(chunks: seq<string>, pieces: seq<Piece>, words: seq<string>, size: int, overlap: int)
    requires Built(chunks, pieces, words, size, overlap) && chunks != []
    ensures var n := |chunks| - 1; var before := Covered(pieces[..n]);
      before <= pieces[n].hi <= |words| &&
      NewWords(chunks, pieces) == NewWords(chunks[..n], pieces[..n]) + words[before..pieces[n].hi]
  {
    hide Built, SplitAll, JoinSpace, Words.Split, PieceOk, NewWords, Covered;
    BuiltLast(chunks, pieces, words, size, overlap);
    var n := |chunks| - 1;
    var p := pieces[n];
    var before := Covered(pieces[..n]);
    Words.SplitJoin(p.parts);
    SliceOfSlice(words, p.lo, p.hi, before - p.lo, p.hi - p.lo);
    NewWordsLast(chunks, pieces, words[p.lo..p.hi]);
    assert words[p.lo..p.hi][before - p.lo..] == words[p.lo..p.hi][before - p.lo..p.hi - p.lo];
  }

  lemma NewWordsLast(chunks: seq<string>, pieces: seq<Piece>, ws: seq<string>)
    requires |chunks| == |pieces| && chunks != [] && ws == Words.Split(chunks[|chunks| - 1])
    requires var n := |chunks| - 1; pieces[n].lo <= Covered(pieces[..n]) <= pieces[n].lo + |ws|
    ensures var n := |chunks| - 1;
      NewWords(chunks, pieces) == NewWords(chunks[..n], pieces[..n]) + ws[Covered(pieces[..n]) - pieces[n].lo..]
  {
    hide Words.Split, Covered;
  }

  lemma Glued<T>(s: seq<T>, a: nat, b: nat)
    requires a <= b <= |s|
    ensures s[..a] + s[a..b] == s[..b]
  {
  }

  /** Removing the overlaps from the chunk texts rebuilds the page's words, in order. */
  lemma {:induction false} OverlapsRemovedRebuild(chunks: seq<string>, pieces: seq<Piece>, words: seq<string>,
                                                  size: int, overlap: int)
    requires Built(chunks, pieces, words, size, overlap)
    ensures Covered(pieces) <= |words| && NewWords(chunks, pieces) == words[..Covered(pieces)]
    decreases |chunks|
  {
    hide Built, NewWords;
    if chunks == [] {
      NothingNew(chunks, pieces, words, size, overlap);
    } else {
      var n := |chunks| - 1;
      BuiltLast(chunks, pieces, words, size, overlap);
      OverlapsRemovedRebuild(chunks[..n], pieces[..n], words, size, overlap);
      NewWordsOfLast(chunks, pieces, words, size, overlap);
      Glued(words, Covered(pieces[..n]), pieces[n].hi);
    }
  }

  lemma NothingNew(chunks: seq<string>, pieces: seq<Piece>, words: seq<string>, size: int, overlap: int)
    requires Built(chunks, pieces, words, size, overlap) && chunks == []
    ensures pieces == [] && NewWords(chunks, pieces) == []
  {
  }

  // ---------------------------------------------------------------- positions in the word sequence

  /** Words in the first `k` sentences. */
  function At(sentences: seq<string>, k: nat): nat
    requires k <= |sentences|
  {
    |SplitAll(sentences[..k])|
  }

  lemma Window(sentences: seq<string>, c: nat, k: nat)
    requires c <= k <= |sentences|
    ensures At(sentences, c) <= At(sentences, k) <= |SplitAll(sentences)|
    ensures SplitAll(sentences[c..k]) == SplitAll(sentences)[At(sentences, c)..At(sentences, k)]
  {
    hide SplitAll;
    assert sentences[..k] == sentences[..c] + sentences[c..k];
    SplitAllAppend(sentences[..c], sentences[c..k]);
    assert sentences == sentences[..k] + sentences[k..];
    SplitAllAppend(sentences[..k], sentences[k..]);
  }

  lemma NextSentence(sentences: seq<string>, k: nat)
    requires k < |sentences| && Words.Split(sentences[k]) != []
    ensures At(sentences, k + 1) == At(sentences, k) + |Words.Split(sentences[k])| > At(sentences, k)
    ensures At(sentences, k + 1) <= |SplitAll(sentences)|
    ensures Words.Split(sentences[k]) == SplitAll(sentences)[At(sentences, k)..At(sentences, k + 1)]
  {
    Window(sentences, k, k + 1);
    assert sentences[k..k + 1] == [sentences[k]];
    assert SplitAll([sentences[k]]) == Words.Split(sentences[k]) + SplitAll([]);
    assert SplitAll([sentences[k]]) == Words.Split(sentences[k]);
  }

  // ---------------------------------------------------------------- the greedy rule

  /** Where the pieces are cut: at sentences that fit, or inside one that does not. */
  ghost predicate Shape(p: Piece, sentences: seq<string>, size: int) {
    && p.first < p.last <= |sentences|
    && if p.hard then
         && p.last == p.first + 1 && EstimateTokens(sentences[p.first]) > size
         && At(sentences, p.first) <= p.lo <= p.hi <= At(sentences, p.first) + |Words.Split(sentences[p.first])|
         && p.parts == Words.Split(sentences[p.first])[p.lo - At(sentences, p.first)..p.hi - At(sentences, p.first)]
       else
         && p.parts == sentences[p.first..p.last]
         && p.lo == At(sentences, p.first) && p.hi == At(sentences, p.last)
         && forall k :: p.first <= k < p.last ==> EstimateTokens(sentences[k]) <= size
  }

  /** A word-split sentence has been used up. */
  ghost predicate Finished(p: Piece, sentences: seq<string>)
    requires p.first < |sentences|
  {
    p.hi == At(sentences, p.first) + |Words.Split(sentences[p.first])|
  }

  /** A chunk ends only where the next string would not have fitted. */
  ghost predicate Full(p: Piece, sentences: seq<string>, size: int)
    requires Shape(p, sentences, size)
  {
    if p.hard then
      Finished(p, sentences) ||
      Sum(p.parts) + EstimateTokens(Words.Split(sentences[p.first])[p.hi - At(sentences, p.first)]) > size
    else
      p.last == |sentences| || EstimateTokens(sentences[p.last]) > size ||
      Sum(p.parts) + EstimateTokens(sentences[p.last]) > size
  }

  /** The chunk after `p` may start at sentence `c`: the longest tail of `p` within the overlap. */
  ghost predicate OverlapFrom(p: Piece, sentences: seq<string>, overlap: int, c: nat)
    requires p.last <= |sentences|
  {
    && p.first <= c <= p.last && Sum(sentences[c..p.last]) <= Slack(overlap)
    && (c == p.first || Sum(sentences[c - 1..p.last]) > overlap)
  }

  /** Where a chunk of whole sentences may start after these. */
  ghost predicate SoftStart(pieces: seq<Piece>, sentences: seq<string>, size: int, overlap: int, c: nat)
    requires pieces != [] ==> Shape(pieces[|pieces| - 1], sentences, size)
  {
    if pieces == [] then c == 0
    else
      var p := pieces[|pieces| - 1];
      if p.hard then Finished(p, sentences) && c == p.last else OverlapFrom(p, sentences, overlap, c)
  }

  /** Where a word-split chunk of sentence `k` may start after these: at the sentence's first word, or
      a few words before the end of the last chunk of that sentence. */
  ghost predicate HardStart(pieces: seq<Piece>, sentences: seq<string>, size: int, overlap: int, k: nat, lo: nat)
    requires k <= |sentences|
    requires pieces != [] ==> Shape(pieces[|pieces| - 1], sentences, size)
  {
    if pieces == [] then k == 0 && lo == 0
    else
      var p := pieces[|pieces| - 1];
      if p.hard && !Finished(p, sentences)
      then k == p.first && lo == if p.hi - p.lo > Carried(overlap) then p.hi - Carried(overlap) else p.lo
      else k == p.last && lo == At(sentences, k)
  }

  /** The first sentence that no chunk has reached yet. */
  function Fresh(pieces: seq<Piece>): nat {
    if pieces == [] then 0 else pieces[|pieces| - 1].last
  }

  /** The strings after `done`, up to `end`, were added because each fitted with those from `start` on. */
  ghost predicate Fitted(parts: seq<string>, size: int, start: nat, done: int, end: nat)
    requires end <= |parts|
  {
    forall i :: done < i < end ==> start <= i && Sum(parts[start..i]) + EstimateTokens(parts[i]) <= size
  }

  /** The first word of sentence `k` that no chunk has reached yet. */
  function FreshWord(pieces: seq<Piece>, sentences: seq<string>, k: nat): int
    requires k <= |sentences|
  {
    if pieces != [] && pieces[|pieces| - 1].hard && pieces[|pieces| - 1].last == k + 1
    then pieces[|pieces| - 1].hi - At(sentences, k) else 0
  }

  ghost predicate Starts(p: Piece, before: seq<Piece>, sentences: seq<string>, size: int, overlap: int)
    requires Shape(p, sentences, size)
    requires before != [] ==> Shape(before[|before| - 1], sentences, size)
  {
    if p.hard then
      var at := At(sentences, p.first);
      && HardStart(before, sentences, size, overlap, p.first, p.lo)
      && p.lo - at <= FreshWord(before, sentences, p.first) < p.hi - at
      && Fitted(Words.Split(sentences[p.first]), size, p.lo - at, FreshWord(before, sentences, p.first), p.hi - at)
    else
      && SoftStart(before, sentences, size, overlap, p.first)
      && p.first <= Fresh(before) < p.last && Fitted(sentences, size, p.first, Fresh(before), p.last)
  }

  /** Every chunk starts where the overlap rule says, takes what fits, and ends where the next string did
      not fit. */
  ghost predicate Greedy(pieces: seq<Piece>, sentences: seq<string>, size: int, overlap: int) {
    && (forall i :: 0 <= i < |pieces| ==> Shape(pieces[i], sentences, size) && Full(pieces[i], sentences, size))
    && (forall i :: 0 <= i < |pieces| ==> Starts(pieces[i], pieces[..i], sentences, size, overlap))
  }

  lemma GreedyEmit(pieces: seq<Piece>, sentences: seq<string>, size: int, overlap: int, p: Piece)
    requires Greedy(pieces, sentences, size, overlap)
    requires Shape(p, sentences, size) && Full(p, sentences, size) && Starts(p, pieces, sentences, size, overlap)
    ensures Greedy(pieces + [p], sentences, size, overlap)
  {
    hide Shape, Full, Starts;
    var after := pieces + [p];
    assert forall i :: 0 <= i < |pieces| ==> after[..i] == pieces[..i];
    assert after[..|pieces|] == pieces;
  }

  /** The state between two sentences: the chunks so far, and the sentences `c..k` gathered for the next. */
  ghost predicate Gathered(chunks: seq<string>, pieces: seq<Piece>, sentences: seq<string>, size: int, overlap: int,
                           c: nat, k: nat)
  {
    && c <= k <= |sentences|
    && Built(chunks, pieces, SplitAll(sentences), size, overlap) && Greedy(pieces, sentences, size, overlap)
    && SoftStart(pieces, sentences, size, overlap, c)
    && c <= Fresh(pieces) <= k && Fitted(sentences, size, c, Fresh(pieces), k)
    && (c < k ==> Fresh(pieces) < k)
    && (forall i :: c <= i < k ==> EstimateTokens(sentences[i]) <= size)
    && (if c == k then
          Covered(pieces) == At(sentences, k) && HardStart(pieces, sentences, size, overlap, k, At(sentences, k))
        else At(sentences, c) <= Covered(pieces) < At(sentences, k) && Sum(sentences[c..k]) <= size + Slack(overlap))
  }

  // ---------------------------------------------------------------- the two splitting loops

  /** The longest tail of the gathered sentences that fits into the overlap. */
  method TakeOverlap(current: seq<string>, overlap: int) returns (kept: seq<string>, tokens: nat, ghost from: nat)
    ensures from <= |current| && kept == current[from..] && tokens == Sum(kept) <= Slack(overlap)
    ensures from == 0 || Sum(current[from - 1..]) > overlap
  {
    kept, tokens := [], 0;
    var i := |current|;
    from := i;
    while i > 0
      invariant 0 <= i == from <= |current| && kept == current[i..]
      invariant tokens == Sum(kept) <= Slack(overlap)
    {
      var s := current[i - 1];
      var st := EstimateTokens(s);
      assert current[i - 1..] == [s] + kept;
      SumAppend([s], kept);
      SumOne(s);
      if tokens + st > overlap { break; }
      kept := [s] + kept;
      tokens := tokens + st;
      i := i - 1;
      from := i;
    }
  }

  /** The state inside a word-split sentence `k`: words `a..j` are gathered for the next chunk. */
  ghost predicate Splitting(chunks: seq<string>, pieces: seq<Piece>, sentences: seq<string>, size: int, overlap: int,
                            k: nat, a: nat, j: nat)
  {
    && k < |sentences| && a <= j <= |Words.Split(sentences[k])| && EstimateTokens(sentences[k]) > size
    && At(sentences, k) + |Words.Split(sentences[k])| <= |SplitAll(sentences)|
    && Built(chunks, pieces, SplitAll(sentences), size, overlap) && Greedy(pieces, sentences, size, overlap)
    && HardStart(pieces, sentences, size, overlap, k, At(sentences, k) + a)
    && a <= FreshWord(pieces, sentences, k) <= j && (a < j ==> FreshWord(pieces, sentences, k) < j)
    && Fitted(Words.Split(sentences[k]), size, a, FreshWord(pieces, sentences, k), j)
    && (if a == j then j == 0 && Covered(pieces) == At(sentences, k)
        else At(sentences, k) + a <= Covered(pieces) < At(sentences, k) + j)
    && var acc := Words.Split(sentences[k])[a..j]; Sum(acc) <= size || |acc| <= Carried(overlap) + 1
  }

  function HardPiece(sentences: seq<string>, k: nat, a: nat, j: nat): Piece
    requires k < |sentences| && a <= j <= |Words.Split(sentences[k])|
  {
    Piece(Words.Split(sentences[k])[a..j], true, k, k + 1, At(sentences, k) + a, At(sentences, k) + j)
  }

  lemma EmitWords(chunks: seq<string>, pieces: seq<Piece>, sentences: seq<string>, size: int, overlap: int,
                  k: nat, a: nat, j: nat)
    requires Splitting(chunks, pieces, sentences, size, overlap, k, a, j) && a < j
    requires var ws := Words.Split(sentences[k]);
      j == |ws| || Sum(ws[a..j]) + EstimateTokens(ws[j]) > size
    ensures var p := HardPiece(sentences, k, a, j);
      && Built(chunks + [JoinSpace(p.parts)], pieces + [p], SplitAll(sentences), size, overlap)
      && Greedy(pieces + [p], sentences, size, overlap) && Covered(pieces + [p]) == p.hi
  {
    hide Built, Words.Split, SplitAll, JoinSpace, Sum, Greedy, At, PieceOk, Shape, Full, Starts, EstimateTokens;
    var p := HardPiece(sentences, k, a, j);
    HardPieceIsOk(chunks, pieces, sentences, size, overlap, k, a, j);
    HardPieceFollows(chunks, pieces, sentences, size, overlap, k, a, j);
    Emit(chunks, pieces, SplitAll(sentences), size, overlap, p);
    GreedyEmit(pieces, sentences, size, overlap, p);
  }

  lemma HardPieceIsOk(chunks: seq<string>, pieces: seq<Piece>, sentences: seq<string>, size: int, overlap: int,
                      k: nat, a: nat, j: nat)
    requires Splitting(chunks, pieces, sentences, size, overlap, k, a, j) && a < j
    ensures PieceOk(HardPiece(sentences, k, a, j), SplitAll(sentences), size, overlap)
  {
    hide Built, Words.Split, SplitAll, Sum, Greedy, At, HardStart, Fitted, FreshWord, EstimateTokens;
    var ws, words, p := Words.Split(sentences[k]), SplitAll(sentences), HardPiece(sentences, k, a, j);
    SplitWordsAreWords(sentences[k]);
    SplitAllOfWords(p.parts);
    NextSentence(sentences, k);
    SliceOfSlice(words, At(sentences, k), At(sentences, k) + |ws|, a, j);
  }

  lemma HardPieceFollows(chunks: seq<string>, pieces: seq<Piece>, sentences: seq<string>, size: int, overlap: int,
                         k: nat, a: nat, j: nat)
    requires Splitting(chunks, pieces, sentences, size, overlap, k, a, j) && a < j
    requires var ws := Words.Split(sentences[k]);
      j == |ws| || Sum(ws[a..j]) + EstimateTokens(ws[j]) > size
    ensures pieces != [] ==> Shape(pieces[|pieces| - 1], sentences, size)
    ensures var p := HardPiece(sentences, k, a, j);
      Shape(p, sentences, size) && Full(p, sentences, size) && Starts(p, pieces, sentences, size, overlap)
  {
    hide Built, Words.Split, SplitAll, Sum, At, HardStart, Fitted, FreshWord, EstimateTokens;
  }

  lemma SplitWordsAreWords(s: string)
    ensures forall w :: w in Words.Split(s) ==> IsWord(w)
  {
    SplitGivesWords(s, "");
  }

  /** After a chunk of words `a..j` the next one starts a few words back. */
  lemma SplittingGoesOn(chunks: seq<string>, pieces: seq<Piece>, sentences: seq<string>, size: int, overlap: int,
                        k: nat, a: nat, j: nat, a': nat)
    requires Splitting(chunks, pieces, sentences, size, overlap, k, a, j) && a < j < |Words.Split(sentences[k])|
    requires Sum(Words.Split(sentences[k])[a..j]) + EstimateTokens(Words.Split(sentences[k])[j]) > size
    requires a' == if j - a > Carried(overlap) then j - Carried(overlap) else a
    ensures var p := HardPiece(sentences, k, a, j);
      Splitting(chunks + [JoinSpace(p.parts)], pieces + [p], sentences, size, overlap, k, a', j + 1)
  {
    hide Built, Words.Split, SplitAll, JoinSpace, Sum, Greedy, At, EstimateTokens;
    EmitWords(chunks, pieces, sentences, size, overlap, k, a, j);
  }

  lemma SplittingTakes(chunks: seq<string>, pieces: seq<Piece>, sentences: seq<string>, size: int, overlap: int,
                       k: nat, a: nat, j: nat)
    requires Splitting(chunks, pieces, sentences, size, overlap, k, a, j) && j < |Words.Split(sentences[k])|
    requires a == j || Sum(Words.Split(sentences[k])[a..j]) + EstimateTokens(Words.Split(sentences[k])[j]) <= size
    ensures Splitting(chunks, pieces, sentences, size, overlap, k, a, j + 1)
  {
    hide Built, Words.Split, SplitAll, JoinSpace, Greedy, At, HardStart;
    var ws := Words.Split(sentences[k]);
    assert ws[a..j + 1] == ws[a..j] + [ws[j]];
    SumAppend(ws[a..j], [ws[j]]);
    SumOne(ws[j]);
    hide Sum;
  }

  lemma SplittingEnds(chunks: seq<string>, pieces: seq<Piece>, sentences: seq<string>, size: int, overlap: int,
                      k: nat, a: nat)
    requires k < |sentences| && Words.Split(sentences[k]) != []
    requires Splitting(chunks, pieces, sentences, size, overlap, k, a, |Words.Split(sentences[k])|)
    requires a < |Words.Split(sentences[k])|
    ensures var p := HardPiece(sentences, k, a, |Words.Split(sentences[k])|);
      Gathered(chunks + [JoinSpace(p.parts)], pieces + [p], sentences, size, overlap, k + 1, k + 1)
  {
    hide Built, Words.Split, SplitAll, JoinSpace, Sum, Greedy, At, EstimateTokens;
    EmitWords(chunks, pieces, sentences, size, overlap, k, a, |Words.Split(sentences[k])|);
    NextSentence(sentences, k);
    SumNone();
    assert sentences[k + 1..k + 1] == [];
  }

  lemma Extended<T>(s: seq<T>, a: nat, j: nat)
    requires a <= j < |s|
    ensures s[a..j] + [s[j]] == s[a..j + 1]
  {
  }

  /** The last `m` of the items `a..j`. */
  lemma CarriedOver<T>(s: seq<T>, a: nat, j: nat, m: nat)
    requires a <= j <= |s|
    ensures j - a > m ==> s[a..j][j - a - m..] == s[j - m..j]
  {
    if j - a > m {
      SliceOfSlice(s, a, j, j - a - m, j - a);
      assert s[a..j][j - a - m..] == s[a..j][j - a - m..j - a];
    }
  }

  /** Splits a sentence that is too long by itself, carrying a few words over from chunk to chunk. */
  method HardSplit(sentence: string, size: int, overlap: int, before: seq<string>,
                   ghost donePieces: seq<Piece>, ghost sentences: seq<string>, ghost k: nat)
    returns (chunks: seq<string>, ghost pieces: seq<Piece>)
    requires k < |sentences| && sentence == sentences[k] && Words.Split(sentence) != []
    requires Splitting(before, donePieces, sentences, size, overlap, k, 0, 0)
    ensures Gathered(chunks, pieces, sentences, size, overlap, k + 1, k + 1)
  {
    hide Splitting, Gathered, Sum, JoinSpace, Words.Split, EstimateTokens;
    SumNone();
    var ws := Words.Split(sentence);
    chunks, pieces := before, donePieces;
    var acc, tokens := [], 0;
    ghost var a := 0;
    for j := 0 to |ws|
      invariant 0 <= a <= j && acc == ws[a..j] && tokens == Sum(acc) && (acc == [] <==> j == 0)
      invariant Splitting(chunks, pieces, sentences, size, overlap, k, a, j)
    {
      var word := ws[j];
      var wt := EstimateTokens(word);
      if tokens + wt > size && acc != [] {
        ghost var a' := if j - a > Carried(overlap) then j - Carried(overlap) else a;
        SplittingGoesOn(chunks, pieces, sentences, size, overlap, k, a, j, a');
        pieces := pieces + [HardPiece(sentences, k, a, j)];
        chunks := chunks + [JoinSpace(acc)];
        var m := Carried(overlap);
        CarriedOver(ws, a, j, m);
        if |acc| > m { acc := acc[|acc| - m..]; }
        tokens := Sum(acc);
        a := a';
      } else {
        SplittingTakes(chunks, pieces, sentences, size, overlap, k, a, j);
      }
      SumAppend(acc, [word]);
      SumOne(word);
      Extended(ws, a, j);
      acc := acc + [word];
      tokens := tokens + wt;
    }
    SplittingEnds(chunks, pieces, sentences, size, overlap, k, a);
    if acc != [] {
      pieces := pieces + [HardPiece(sentences, k, a, |ws|)];
      chunks := chunks + [JoinSpace(acc)];
    }
  }

  function SoftPiece(sentences: seq<string>, c: nat, k: nat): Piece
    requires c <= k <= |sentences|
  {
    Piece(sentences[c..k], false, c, k, At(sentences, c), At(sentences, k))
  }

  lemma EmitSentences(chunks: seq<string>, pieces: seq<Piece>, sentences: seq<string>, size: int, overlap: int,
                      c: nat, k: nat)
    requires Gathered(chunks, pieces, sentences, size, overlap, c, k) && c < k
    requires k == |sentences| || EstimateTokens(sentences[k]) > size ||
             Sum(sentences[c..k]) + EstimateTokens(sentences[k]) > size
    ensures var p := SoftPiece(sentences, c, k);
      && Built(chunks + [JoinSpace(p.parts)], pieces + [p], SplitAll(sentences), size, overlap)
      && Greedy(pieces + [p], sentences, size, overlap) && Covered(pieces + [p]) == At(sentences, k)
  {
    hide Built, Words.Split, SplitAll, JoinSpace, Sum, Greedy, At;
    var p := SoftPiece(sentences, c, k);
    Window(sentences, c, k);
    Emit(chunks, pieces, SplitAll(sentences), size, overlap, p);
    GreedyEmit(pieces, sentences, size, overlap, p);
  }

  lemma GatheredSplits(chunks: seq<string>, pieces: seq<Piece>, sentences: seq<string>, size: int, overlap: int,
                       c: nat, k: nat)
    requires Gathered(chunks, pieces, sentences, size, overlap, c, k) && k < |sentences|
    requires EstimateTokens(sentences[k]) > size && Words.Split(sentences[k]) != []
    ensures c == k ==> Splitting(chunks, pieces, sentences, size, overlap, k, 0, 0)
    ensures c < k ==> var p := SoftPiece(sentences, c, k);
      Splitting(chunks + [JoinSpace(p.parts)], pieces + [p], sentences, size, overlap, k, 0, 0)
  {
    hide Built, Words.Split, SplitAll, JoinSpace, Sum, Greedy, At, EstimateTokens;
    NextSentence(sentences, k);
    SumNone();
    assert Words.Split(sentences[k])[0..0] == [];
    if c < k { EmitSentences(chunks, pieces, sentences, size, overlap, c, k); }
  }

  lemma GatheredTakes(chunks: seq<string>, pieces: seq<Piece>, sentences: seq<string>, size: int, overlap: int,
                      c: nat, k: nat)
    requires Gathered(chunks, pieces, sentences, size, overlap, c, k) && k < |sentences|
    requires EstimateTokens(sentences[k]) <= size && Words.Split(sentences[k]) != []
    requires c == k || Sum(sentences[c..k]) + EstimateTokens(sentences[k]) <= size
    ensures Gathered(chunks, pieces, sentences, size, overlap, c, k + 1)
  {
    hide Built, Words.Split, SplitAll, JoinSpace, Sum, Greedy, At, EstimateTokens;
    NextSentence(sentences, k);
    assert sentences[c..k + 1] == sentences[c..k] + [sentences[k]];
    SumAppend(sentences[c..k], [sentences[k]]);
    SumOne(sentences[k]);
    if c == k { SumNone(); assert sentences[c..k] == []; }
  }

  lemma GatheredOverflows(chunks: seq<string>, pieces: seq<Piece>, sentences: seq<string>, size: int, overlap: int,
                          c: nat, k: nat, from: nat)
    requires Gathered(chunks, pieces, sentences, size, overlap, c, k) && c < k < |sentences|
    requires EstimateTokens(sentences[k]) <= size && Words.Split(sentences[k]) != []
    requires Sum(sentences[c..k]) + EstimateTokens(sentences[k]) > size
    requires c <= from <= k && Sum(sentences[from..k]) <= Slack(overlap)
    requires from == c || Sum(sentences[from - 1..k]) > overlap
    ensures var p := SoftPiece(sentences, c, k);
      Gathered(chunks + [JoinSpace(p.parts)], pieces + [p], sentences, size, overlap, from, k + 1)
  {
    hide Built, Words.Split, SplitAll, JoinSpace, Sum, Greedy, At, EstimateTokens;
    EmitSentences(chunks, pieces, sentences, size, overlap, c, k);
    NextSentence(sentences, k);
    Window(sentences, from, k);
    assert sentences[from..k + 1] == sentences[from..k] + [sentences[k]];
    SumAppend(sentences[from..k], [sentences[k]]);
    SumOne(sentences[k]);
  }

  lemma TailOfSlice<T>(s: seq<T>, c: nat, k: nat, from: nat)
    requires c + from <= k <= |s|
    ensures s[c..k][from..] == s[c + from..k]
    ensures from > 0 ==> s[c..k][from - 1..] == s[c + from - 1..k]
  {
  }

  /** The chunks of the sentences: contiguous windows cut by the greedy rule, to the last word. */
  ghost predicate IsChunking(chunks: seq<string>, sentences: seq<string>, size: int, overlap: int) {
    exists pieces ::
      && Built(chunks, pieces, SplitAll(sentences), size, overlap) && Greedy(pieces, sentences, size, overlap)
      && Covered(pieces) == |SplitAll(sentences)|
  }

  /** The greedy accumulator over the sentences of a page. */
  method ChunkText(sentences: seq<string>, size: int, overlap: int)
    returns (chunks: seq<string>)
    requires forall s :: s in sentences ==> Words.Split(s) != []
    ensures IsChunking(chunks, sentences, size, overlap)
  {
    hide Built, Greedy, Gathered, Splitting, Words.Split, Sum, SplitAll, JoinSpace, Covered, EstimateTokens;
    SumNone();
    ghost var pieces: seq<Piece> := [];
    chunks := [];
    var current: seq<string>, tokens := [], 0;
    ghost var c := 0;
    GatheredStart(sentences, size, overlap);
    for k := 0 to |sentences|
      invariant 0 <= c <= k && current == sentences[c..k] && tokens == Sum(current)
      invariant Gathered(chunks, pieces, sentences, size, overlap, c, k)
    {
      var sentence := sentences[k];
      var st := EstimateTokens(sentence);
      assert sentence in sentences;

      if st > size {
        GatheredSplits(chunks, pieces, sentences, size, overlap, c, k);
        if current != [] {
          pieces := pieces + [SoftPiece(sentences, c, k)];
          chunks := chunks + [JoinSpace(current)];
        }
        chunks, pieces := HardSplit(sentence, size, overlap, chunks, pieces, sentences, k);
        current, tokens := [], 0;
        c := k + 1;
        continue;
      }

      if tokens + st > size && current != [] {
        ghost var from;
        var kept, keptTokens;
        kept, keptTokens, from := TakeOverlap(current, overlap);
        TailOfSlice(sentences, c, k, from);
        GatheredOverflows(chunks, pieces, sentences, size, overlap, c, k, c + from);
        pieces := pieces + [SoftPiece(sentences, c, k)];
        chunks := chunks + [JoinSpace(current)];
        current, tokens := kept, keptTokens;
        c := c + from;
      } else {
        GatheredTakes(chunks, pieces, sentences, size, overlap, c, k);
      }
      SumAppend(current, [sentence]);
      SumOne(sentence);
      current := current + [sentence];
      tokens := tokens + st;
    }
    GatheredEnd(chunks, pieces, sentences, size, overlap, c);
    if current != [] {
      pieces := pieces + [SoftPiece(sentences, c, |sentences|)];
      chunks := chunks + [JoinSpace(current)];
    }
  }

  lemma GatheredStart(sentences: seq<string>, size: int, overlap: int)
    ensures Gathered([], [], sentences, size, overlap, 0, 0)
  {
    assert sentences[0..0] == [] && sentences[..0] == [];
  }

  lemma GatheredEnd(chunks: seq<string>, pieces: seq<Piece>, sentences: seq<string>, size: int, overlap: int, c: nat)
    requires Gathered(chunks, pieces, sentences, size, overlap, c, |sentences|)
    ensures c == |sentences| ==>
      Built(chunks, pieces, SplitAll(sentences), size, overlap) && Greedy(pieces, sentences, size, overlap) &&
      Covered(pieces) == |SplitAll(sentences)|
    ensures c < |sentences| ==> var p := SoftPiece(sentences, c, |sentences|);
      Built(chunks + [JoinSpace(p.parts)], pieces + [p], SplitAll(sentences), size, overlap) &&
      Greedy(pieces + [p], sentences, size, overlap) && Covered(pieces + [p]) == |SplitAll(sentences)|
  {
    assert sentences[..|sentences|] == sentences;
    if c < |sentences| { EmitSentences(chunks, pieces, sentences, size, overlap, c, |sentences|); }
  }

  // ---------------------------------------------------------------- what chunks are

  /** Removing the overlaps from the chunks rebuilds the words of the text, in order. */
  lemma ChunksRebuildTheText(chunks: seq<string>, sentences: seq<string>, size: int, overlap: int)
    requires IsChunking(chunks, sentences, size, overlap)
    ensures exists pieces :: |pieces| == |chunks| && Greedy(pieces, sentences, size, overlap) &&
                             NewWords(chunks, pieces) == SplitAll(sentences)
  {
    hide Greedy, Built, SplitAll, NewWords, Covered;
    var words := SplitAll(sentences);
    var pieces :| Built(chunks, pieces, words, size, overlap) && Greedy(pieces, sentences, size, overlap) &&
                  Covered(pieces) == |words|;
    OverlapsRemovedRebuild(chunks, pieces, words, size, overlap);
    assert words[..|words|] == words;
    BuiltLength(chunks, pieces, words, size, overlap);
  }

  lemma BuiltLength(chunks: seq<string>, pieces: seq<Piece>, words: seq<string>, size: int, overlap: int)
    requires Built(chunks, pieces, words, size, overlap)
    ensures |pieces| == |chunks|
  {
  }

  /** Every chunk is stored with fewer than twice the tokens of a chunk and its overlap, or is a hard-split
      chunk of few words. */
  lemma StoredCountsAreBounded(chunks: seq<string>, sentences: seq<string>, size: int, overlap: int, i: nat)
    requires IsChunking(chunks, sentences, size, overlap) && i < |chunks|
    ensures EstimateTokens(chunks[i]) < 2 * (size + Slack(overlap)) || |Words.Split(chunks[i])| <= Carried(overlap) + 1
  {
    hide Words.Split, SplitAll, JoinSpace, Sum, EstimateTokens, Full, At, Starts, Covered;
    var words := SplitAll(sentences);
    var pieces: seq<Piece> :| Built(chunks, pieces, words, size, overlap) && Greedy(pieces, sentences, size, overlap);
    var p := pieces[i];
    assert PieceOk(p, words, size, overlap) && Shape(p, sentences, size);
    StoredCountBelowTwice(p.parts);
    Words.SplitJoin(p.parts);
    if p.hard { assert |p.parts| == p.hi - p.lo; }
  }

  lemma {:induction false} TailsGrow(parts: seq<string>, c: nat, d: nat, m: nat)
    requires c <= d <= m <= |parts|
    ensures Sum(parts[d..m]) <= Sum(parts[c..m])
    ensures c < m ==> Sum(parts[c..m]) > 0
  {
    assert parts[c..m] == parts[c..d] + parts[d..m];
    SumAppend(parts[c..d], parts[d..m]);
    JoinedLength(parts[c..m]);
  }

  /** The longest tail within the overlap is one. */
  lemma OneOverlap(p: Piece, sentences: seq<string>, overlap: int, c: nat, d: nat)
    requires p.last <= |sentences| && OverlapFrom(p, sentences, overlap, c) && OverlapFrom(p, sentences, overlap, d)
    ensures c >= d
  {
    hide Sum;
    if c < d {
      TailsGrow(sentences, c, d - 1, p.last);
    }
  }

  /** A piece is fixed by the rule and the pieces before it. */
  lemma OneNextPiece(before: seq<Piece>, p: Piece, q: Piece, sentences: seq<string>, size: int, overlap: int)
    requires before != [] ==> Shape(before[|before| - 1], sentences, size)
    requires Shape(p, sentences, size) && Full(p, sentences, size) && Starts(p, before, sentences, size, overlap)
    requires Shape(q, sentences, size) && Full(q, sentences, size) && Starts(q, before, sentences, size, overlap)
    ensures p == q
  {
    hide Sum, At, Words.Split, EstimateTokens;
    if p.hard { OneKind(before, p, q, sentences, size, overlap); }
    if q.hard { OneKind(before, q, p, sentences, size, overlap); }
    if p.hard {
      NoLaterWord(before, p, q, sentences, size, overlap);
      NoLaterWord(before, q, p, sentences, size, overlap);
    } else {
      if before != [] && !before[|before| - 1].hard {
        OneOverlap(before[|before| - 1], sentences, overlap, p.first, q.first);
        OneOverlap(before[|before| - 1], sentences, overlap, q.first, p.first);
      }
      NoLaterSentence(before, p, q, sentences, size, overlap);
      NoLaterSentence(before, q, p, sentences, size, overlap);
    }
  }

  lemma OneKind(before: seq<Piece>, p: Piece, q: Piece, sentences: seq<string>, size: int, overlap: int)
    requires before != [] ==> Shape(before[|before| - 1], sentences, size)
    requires Shape(p, sentences, size) && Starts(p, before, sentences, size, overlap) && p.hard
    requires Shape(q, sentences, size) && Starts(q, before, sentences, size, overlap)
    ensures q.hard && q.first == p.first && q.lo == p.lo
  {
    hide Sum, At, Words.Split, EstimateTokens, Fitted;
  }

  lemma NoLaterWord(before: seq<Piece>, p: Piece, q: Piece, sentences: seq<string>, size: int, overlap: int)
    requires before != [] ==> Shape(before[|before| - 1], sentences, size)
    requires Shape(p, sentences, size) && Full(p, sentences, size) && Starts(p, before, sentences, size, overlap)
    requires Shape(q, sentences, size) && Starts(q, before, sentences, size, overlap)
    requires p.hard && q.hard && p.first == q.first && p.lo == q.lo
    ensures q.hi <= p.hi
  {
    hide Sum, At, Words.Split, EstimateTokens, HardStart, SoftStart, FreshWord;
  }

  lemma NoLaterSentence(before: seq<Piece>, p: Piece, q: Piece, sentences: seq<string>, size: int, overlap: int)
    requires before != [] ==> Shape(before[|before| - 1], sentences, size)
    requires Shape(p, sentences, size) && Full(p, sentences, size) && Starts(p, before, sentences, size, overlap)
    requires Shape(q, sentences, size) && Starts(q, before, sentences, size, overlap)
    requires !p.hard && !q.hard && p.first == q.first
    ensures q.last <= p.last
  {
    hide Sum, At, Words.Split, EstimateTokens, HardStart, SoftStart;
  }

  lemma {:induction false} PiecesAgree(a: seq<Piece>, b: seq<Piece>, sentences: seq<string>, size: int, overlap: int,
                                       k: nat)
    requires Greedy(a, sentences, size, overlap) && Greedy(b, sentences, size, overlap)
    requires k <= |a| && k <= |b|
    ensures a[..k] == b[..k]
  {
    hide Shape, Full, Starts;
    if k > 0 {
      PiecesAgree(a, b, sentences, size, overlap, k - 1);
      assert k > 1 ==> a[..k - 1][k - 2] == a[k - 2];
      OneNextPiece(a[..k - 1], a[k - 1], b[k - 1], sentences, size, overlap);
      assert a[..k] == a[..k - 1] + [a[k - 1]] && b[..k] == b[..k - 1] + [b[k - 1]];
    }
  }

  lemma NotLonger(chunksA: seq<string>, a: seq<Piece>, chunksB: seq<string>, b: seq<Piece>, sentences: seq<string>,
                  size: int, overlap: int)
    requires Built(chunksA, a, SplitAll(sentences), size, overlap) && Greedy(a, sentences, size, overlap)
    requires Built(chunksB, b, SplitAll(sentences), size, overlap) && Greedy(b, sentences, size, overlap)
    requires Covered(a) == |SplitAll(sentences)|
    ensures |b| <= |a|
  {
    hide Greedy, SplitAll, JoinSpace, Sum;
    if |a| < |b| {
      PiecesAgree(a, b, sentences, size, overlap, |a|);
      var n := |a|;
      assert PieceOk(b[n], SplitAll(sentences), size, overlap);
      if n > 0 { SameAt(a, b, n); }
    }
  }

  lemma SameAt<T>(a: seq<T>, b: seq<T>, n: nat)
    requires 0 < n <= |a| && n <= |b| && a[..n] == b[..n]
    ensures a[n - 1] == b[n - 1]
  {
    assert a[..n][n - 1] == b[..n][n - 1];
  }

  /** The rule leaves no choice: the chunks of a list of sentences are determined by the size and the
      overlap. */
  lemma ChunksAreDetermined(a: seq<string>, b: seq<string>, sentences: seq<string>, size: int, overlap: int)
    requires IsChunking(a, sentences, size, overlap) && IsChunking(b, sentences, size, overlap)
    ensures a == b
  {
    hide Greedy, SplitAll, JoinSpace, Covered, PieceOk;
    var words := SplitAll(sentences);
    var p :| Built(a, p, words, size, overlap) && Greedy(p, sentences, size, overlap) && Covered(p) == |words|;
    var q :| Built(b, q, words, size, overlap) && Greedy(q, sentences, size, overlap) && Covered(q) == |words|;
    NotLonger(a, p, b, q, sentences, size, overlap);
    NotLonger(b, q, a, p, sentences, size, overlap);
    PiecesAgree(p, q, sentences, size, overlap, |p|);
    assert p[..|p|] == p && q[..|p|] == q;
  }
}
