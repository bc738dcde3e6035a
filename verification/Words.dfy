/**
  The text operations the chunker relies on (backend/ingestion/chunker.py): `strip()`, `split()`,
  `" ".join`, and the sentence splitter built on a regular expression.
 */
module Words {
  /** Characters that `str.isspace` accepts; `\s` and the argument-less `split` and `strip` agree with it. */
  predicate IsSpace(c: char) {
    || '\t' <= c <= '\r' || '\U{1C}' <= c <= ' ' || c == '\U{85}' || c == '\U{A0}' || c == '\U{1680}'
    || '\U{2000}' <= c <= '\U{200A}' || c == '\U{2028}' || c == '\U{2029}' || c == '\U{202F}' || c == '\U{205F}'
    || c == '\U{3000}'
  }

  predicate AllSpace(s: string) {
    forall i :: 0 <= i < |s| ==> IsSpace(s[i])
  }

  function StripLeft(s: string): string {
    if s != "" && IsSpace(s[0]) then StripLeft(s[1..]) else s
  }

  function StripRight(s: string): string {
    if s != "" && IsSpace(s[|s| - 1]) then StripRight(s[..|s| - 1]) else s
  }

  function Strip(s: string): string { StripRight(StripLeft(s)) }

  /** `s.split()`: the maximal runs of visible characters. */
  function Split(s: string): seq<string> { SplitWith(s, "") }

  /** The words of `s` when `word` has just been read in front of it. */
  function SplitWith(s: string, word: string): seq<string> {
    if s == "" then Finished(word)
    else if IsSpace(s[0]) then Finished(word) + SplitWith(s[1..], "")
    else SplitWith(s[1..], word + [s[0]])
  }

  function Finished(word: string): seq<string> {
    if word == "" then [] else [word]
  }

  /** `" ".join(parts)`. */
  function JoinSpace(parts: seq<string>): string {
    if parts == [] then ""
    else if |parts| == 1 then parts[0]
    else parts[0] + " " + JoinSpace(parts[1..])
  }

  function SplitAll(parts: seq<string>): seq<string> {
    if parts == [] then [] else Split(parts[0]) + SplitAll(parts[1..])
  }

  // ---------------------------------------------------------------- laws of split

  /** A space separates: the words on its two sides are read independently. */
  lemma {:induction false} SplitAtSpace(a: string, c: char, b: string, word: string)
    requires IsSpace(c)
    ensures SplitWith(a + [c] + b, word) == SplitWith(a, word) + Split(b)
    decreases |a|
  {
    if a == "" {
      assert a + [c] + b == [c] + b;
    } else {
      assert (a + [c] + b)[1..] == a[1..] + [c] + b;
      SplitAtSpace(a[1..], c, b, if IsSpace(a[0]) then "" else word + [a[0]]);
    }
  }

  lemma {:induction false} SplitSpaces(s: string, b: string)
    requires AllSpace(s)
    ensures Split(s + b) == Split(b)
    decreases |s|
  {
    if s == "" {
      assert s + b == b;
    } else {
      assert (s + b)[1..] == s[1..] + b;
      SplitSpaces(s[1..], b);
    }
  }

  /** Any non-empty run of spaces separates like one. */
  lemma SplitAtRun(a: string, run: string, b: string)
    requires run != "" && AllSpace(run)
    ensures Split(a + run + b) == Split(a) + Split(b)
  {
    assert a + run + b == a + [run[0]] + (run[1..] + b);
    SplitAtSpace(a, run[0], run[1..] + b, "");
    SplitSpaces(run[1..], b);
  }

  lemma {:induction false} SplitJoin(parts: seq<string>)
    ensures Split(JoinSpace(parts)) == SplitAll(parts)
  {
    if |parts| > 1 {
      SplitJoin(parts[1..]);
      SplitAtRun(parts[0], " ", JoinSpace(parts[1..]));
    }
  }

  lemma {:induction false} SplitStripLeft(s: string)
    ensures Split(StripLeft(s)) == Split(s)
  {
    if s != "" && IsSpace(s[0]) {
      SplitStripLeft(s[1..]);
      assert s == [s[0]] + s[1..];
      SplitSpaces([s[0]], s[1..]);
    }
  }

  lemma {:induction false} SplitStripRight(s: string)
    ensures Split(StripRight(s)) == Split(s)
  {
    if s != "" && IsSpace(s[|s| - 1]) {
      var front := s[..|s| - 1];
      SplitStripRight(front);
      assert s == front + [s[|s| - 1]] + "";
      SplitAtRun(front, [s[|s| - 1]], "");
    }
  }

  lemma SplitStrip(s: string)
    ensures Split(Strip(s)) == Split(s)
  {
    SplitStripLeft(s);
    SplitStripRight(StripLeft(s));
  }

  lemma {:induction false} StripRightKeepsFirst(s: string)
    requires s != "" && !IsSpace(s[0])
    ensures StripRight(s) != "" && StripRight(s)[0] == s[0]
  {
    if IsSpace(s[|s| - 1]) {
      StripRightKeepsFirst(s[..|s| - 1]);
    }
  }

  lemma {:induction false} StripLeftStarts(s: string)
    ensures StripLeft(s) == "" || !IsSpace(StripLeft(s)[0])
  {
    if s != "" && IsSpace(s[0]) {
      StripLeftStarts(s[1..]);
    }
  }

  lemma {:induction false} SplitWithWord(s: string, word: string)
    requires word != ""
    ensures SplitWith(s, word) != []
  {
    if s != "" && !IsSpace(s[0]) {
      SplitWithWord(s[1..], word + [s[0]]);
    }
  }

  /** What is left after stripping has a word, unless nothing is left. */
  lemma StrippedHasWord(s: string)
    requires Strip(s) != ""
    ensures Split(Strip(s)) != []
  {
    var left := StripLeft(s);
    StripLeftStarts(s);
    StripRightKeepsFirst(left);
    SplitWithWord(Strip(s)[1..], [Strip(s)[0]]);
    assert "" + [Strip(s)[0]] == [Strip(s)[0]];
  }

  /** The text without the spaces around it: what is dropped is space, what is left begins and ends otherwise. */
  ghost predicate IsStripped(stripped: string, s: string) {
    && (exists a, b :: 0 <= a <= b <= |s| && stripped == s[a..b] && AllSpace(s[..a]) && AllSpace(s[b..]))
    && (stripped == "" || (!IsSpace(stripped[0]) && !IsSpace(stripped[|stripped| - 1])))
  }

  lemma {:induction false} StripLeftSkips(s: string) returns (a: nat)
    ensures a <= |s| && StripLeft(s) == s[a..] && AllSpace(s[..a])
  {
    if s != "" && IsSpace(s[0]) {
      var rest := StripLeftSkips(s[1..]);
      a := rest + 1;
      assert s[1..][rest..] == s[a..] && s[..a] == [s[0]] + s[1..][..rest];
    } else {
      a := 0;
    }
  }

  lemma {:induction false} StripRightSkips(s: string) returns (b: nat)
    ensures b <= |s| && StripRight(s) == s[..b] && AllSpace(s[b..])
    ensures b > 0 ==> !IsSpace(s[b - 1])
  {
    if s != "" && IsSpace(s[|s| - 1]) {
      var front := s[..|s| - 1];
      b := StripRightSkips(front);
      assert front[..b] == s[..b] && s[b..] == front[b..] + [s[|s| - 1]];
    } else {
      b := |s|;
    }
  }

  lemma StripIsExact(s: string)
    ensures IsStripped(Strip(s), s)
  {
    var left := StripLeft(s);
    var a := StripLeftSkips(s);
    var b := StripRightSkips(left);
    StripLeftStarts(s);
    assert left[..b] == s[a..a + b] && s[a + b..] == left[b..];
  }

  /** The parts with one space between each two and nothing else. */
  lemma {:induction false} JoinSpaceAppend(a: seq<string>, b: seq<string>)
    requires a != [] && b != []
    ensures JoinSpace(a + b) == JoinSpace(a) + " " + JoinSpace(b)
    ensures JoinSpace([a[0]]) == a[0]
    decreases |a|
  {
    var all := a + b;
    if |a| == 1 {
      assert all[1..] == b;
    } else {
      assert all[1..] == a[1..] + b;
      JoinSpaceAppend(a[1..], b);
    }
  }

  predicate IsWord(w: string) {
    w != "" && forall i :: 0 <= i < |w| ==> !IsSpace(w[i])
  }

  lemma {:induction false} SplitGivesWords(s: string, word: string)
    requires word == "" || IsWord(word)
    ensures forall w :: w in SplitWith(s, word) ==> IsWord(w)
    decreases |s|
  {
    if s != "" {
      SplitGivesWords(s[1..], if IsSpace(s[0]) then "" else word + [s[0]]);
    }
  }

  lemma {:induction false} SplitOfWord(s: string, word: string)
    requires forall i :: 0 <= i < |s| ==> !IsSpace(s[i])
    ensures SplitWith(s, word) == Finished(word + s)
    decreases |s|
  {
    if s == "" {
      assert word + s == word;
    } else {
      SplitOfWord(s[1..], word + [s[0]]);
      assert word + [s[0]] + s[1..] == word + s;
    }
  }

  /** Words joined by spaces are read back as those words. */
  lemma {:induction false} SplitAllOfWords(words: seq<string>)
    requires forall w :: w in words ==> IsWord(w)
    ensures SplitAll(words) == words
  {
    hide SplitWith;
    if words != [] {
      assert IsWord(words[0]) by { assert words[0] in words; }
      SplitOneWord(words[0]);
      SplitAllOfWords(words[1..]);
      assert words == [words[0]] + words[1..];
    }
  }

  lemma SplitOneWord(word: string)
    requires IsWord(word)
    ensures Split(word) == [word]
  {
    SplitOfWord(word, "");
    assert "" + word == word;
  }

  lemma {:induction false} SplitAllAppend(a: seq<string>, b: seq<string>)
    ensures SplitAll(a + b) == SplitAll(a) + SplitAll(b)
    decreases |a|
  {
    if a == [] {
      assert a + b == b;
    } else {
      assert (a + b)[1..] == a[1..] + b;
      SplitAllAppend(a[1..], b);
    }
  }

  // ---------------------------------------------------------------- sentences

  predicate EndsSentence(c: char) { c == '.' || c == '!' || c == '?' }

  /** The end of the run of spaces that starts at `i`. */
  function RunEnd(text: string, i: nat): (j: nat)
    requires i <= |text|
    ensures i <= j <= |text| && AllSpace(text[i..j])
    ensures i < |text| && IsSpace(text[i]) ==> i < j
    decreases |text| - i
  {
    if i < |text| && IsSpace(text[i]) then
      var j := RunEnd(text, i + 1);
      assert text[i..j] == [text[i]] + text[i + 1..j];
      j
    else i
  }

  /** `re.split(r'(?<=[.!?])\s+', text)`, from the piece starting at `start`, scanned up to `i`. */
  function Pieces(text: string, start: nat, i: nat): seq<string>
    requires start <= i <= |text|
    decreases |text| - i
  {
    if i == |text| then [text[start..]]
    else if 0 < i && EndsSentence(text[i - 1]) && IsSpace(text[i])
    then [text[start..i]] + Pieces(text, RunEnd(text, i), RunEnd(text, i))
    else Pieces(text, start, i + 1)
  }

  /** Strips the pieces and drops the empty ones. */
  function StripAll(pieces: seq<string>): seq<string> {
    if pieces == [] then []
    else (if Strip(pieces[0]) == "" then [] else [Strip(pieces[0])]) + StripAll(pieces[1..])
  }

  function SplitSentences(text: string): seq<string> { StripAll(Pieces(text, 0, 0)) }

  lemma {:induction false} PiecesKeepWords(text: string, start: nat, i: nat)
    requires start <= i <= |text|
    ensures SplitAll(Pieces(text, start, i)) == Split(text[start..])
    decreases |text| - i
  {
    if i == |text| {
      assert SplitAll([text[start..]]) == Split(text[start..]) + SplitAll([]);
    } else if 0 < i && EndsSentence(text[i - 1]) && IsSpace(text[i]) {
      var j := RunEnd(text, i);
      PiecesKeepWords(text, j, j);
      assert text[start..] == text[start..i] + text[i..j] + text[j..];
      SplitAtRun(text[start..i], text[i..j], text[j..]);
    } else {
      PiecesKeepWords(text, start, i + 1);
    }
  }

  lemma {:induction false} StripAllKeepsWords(pieces: seq<string>)
    ensures SplitAll(StripAll(pieces)) == SplitAll(pieces)
    ensures forall p :: p in StripAll(pieces) ==> Split(p) != []
  {
    if pieces != [] {
      StripAllKeepsWords(pieces[1..]);
      SplitStrip(pieces[0]);
      var rest := StripAll(pieces[1..]);
      if Strip(pieces[0]) == "" {
        assert Split("") == [];
        assert StripAll(pieces) == rest;
      } else {
        StrippedHasWord(pieces[0]);
        assert StripAll(pieces) == [Strip(pieces[0])] + rest;
        assert ([Strip(pieces[0])] + rest)[1..] == rest;
      }
    }
  }

  /** Cutting a text into sentences loses no word, and every sentence has one. */
  lemma SentencesKeepWords(text: string)
    ensures SplitAll(SplitSentences(text)) == Split(text)
    ensures forall p :: p in SplitSentences(text) ==> Split(p) != []
  {
    PiecesKeepWords(text, 0, 0);
    assert text[0..] == text;
    StripAllKeepsWords(Pieces(text, 0, 0));
  }

  // ---------------------------------------------------------------- where sentences end

  /** Inside the piece no full stop, exclamation or question mark is followed by a space. */
  ghost predicate Unbroken(piece: string) {
    forall i :: 0 < i < |piece| ==> !(piece[i - 1] in ".!?" && IsSpace(piece[i]))
  }

  /** `n` characters, ending in a full stop, exclamation or question mark, then spaces up to `m` and no
      further. */
  ghost predicate Breaks(text: string, n: nat, m: nat) {
    && 0 < n < m <= |text| && text[n - 1] in ".!?" && AllSpace(text[n..m]) && (m == |text| || !IsSpace(text[m]))
  }

  /** The pieces are what is left of the text when it is broken wherever it can be. */
  ghost predicate IsBroken(text: string, pieces: seq<string>)
    decreases |pieces|
  {
    && pieces != [] && Unbroken(pieces[0])
    && if |pieces| == 1 then pieces[0] == text
       else exists n: nat, m: nat :: Breaks(text, n, m) && pieces[0] == text[..n] && IsBroken(text[m..], pieces[1..])
  }

  lemma {:induction false} RunEndIsLast(text: string, i: nat)
    requires i <= |text|
    ensures RunEnd(text, i) == |text| || !IsSpace(text[RunEnd(text, i)])
    decreases |text| - i
  {
    if i < |text| && IsSpace(text[i]) { RunEndIsLast(text, i + 1); }
  }

  lemma {:induction false} PiecesAreBroken(text: string, start: nat, i: nat)
    requires start <= i <= |text| && Unbroken(text[start..i])
    requires i == start > 0 ==> IsSpace(text[start - 1])
    ensures IsBroken(text[start..], Pieces(text, start, i))
    decreases |text| - i
  {
    if i == |text| {
      assert text[start..i] == text[start..];
    } else if 0 < i && EndsSentence(text[i - 1]) && IsSpace(text[i]) {
      var j := RunEnd(text, i);
      RunEndIsLast(text, i);
      assert Unbroken(text[j..j]);
      assert IsSpace(text[j - 1]) by { assert text[j - 1] == text[i..j][j - 1 - i]; }
      PiecesAreBroken(text, j, j);
      var own := text[start..];
      assert own[i - start..j - start] == text[i..j] && own[j - start..] == text[j..];
      assert own[..i - start] == text[start..i];
      assert !EndsSentence(text[start]) || i > start;
      assert Breaks(own, i - start, j - start);
      var pieces := Pieces(text, start, i);
      assert pieces[1..] == Pieces(text, j, j);
    } else {
      UnbrokenMore(text, start, i);
      PiecesAreBroken(text, start, i + 1);
    }
  }

  lemma UnbrokenMore(text: string, start: nat, i: nat)
    requires start <= i < |text| && Unbroken(text[start..i])
    requires !(start < i && text[i - 1] in ".!?" && IsSpace(text[i]))
    ensures Unbroken(text[start..i + 1])
  {
    var piece := text[start..i + 1];
    forall k | 0 < k < |piece| ensures !(piece[k - 1] in ".!?" && IsSpace(piece[k])) {
      if k < i - start { assert piece[k - 1] == text[start..i][k - 1] && piece[k] == text[start..i][k]; }
    }
  }

  /** The sentences are the stripped pieces that are not empty, in order, of a text broken exactly after
      each full stop, exclamation or question mark that spaces follow. */
  lemma SentencesAreCut(text: string)
    ensures exists pieces :: IsBroken(text, pieces) && SplitSentences(text) == StripAll(pieces)
  {
    assert text[0..] == text;
    PiecesAreBroken(text, 0, 0);
    assert IsBroken(text, Pieces(text, 0, 0));
  }

  lemma FirstBreak(text: string, pieces: seq<string>) returns (n: nat, m: nat)
    requires IsBroken(text, pieces) && |pieces| > 1
    ensures Breaks(text, n, m) && pieces[0] == text[..n] && Unbroken(text[..n]) && IsBroken(text[m..], pieces[1..])
  {
    n, m :| Breaks(text, n, m) && pieces[0] == text[..n] && IsBroken(text[m..], pieces[1..]);
  }

  /** A text can be broken in one way only. */
  lemma {:induction false} BrokenOneWay(text: string, a: seq<string>, b: seq<string>)
    requires IsBroken(text, a) && IsBroken(text, b)
    ensures a == b
    decreases |a|
  {
    hide Breaks, Unbroken;
    if |a| > 1 && |b| > 1 {
      var n, m := FirstBreak(text, a);
      var n', m' := FirstBreak(text, b);
      SameBreak(text, n, m, n', m');
      BrokenOneWay(text[m..], a[1..], b[1..]);
      assert a == [a[0]] + a[1..] && b == [b[0]] + b[1..];
    } else if |a| > 1 {
      var n, m := FirstBreak(text, a);
      BreakShowsAtEnd(text, n, m);
    } else if |b| > 1 {
      var n, m := FirstBreak(text, b);
      BreakShowsAtEnd(text, n, m);
    } else {
      assert a == [a[0]] && b == [b[0]];
    }
  }

  lemma BreakShowsAtEnd(text: string, n: nat, m: nat)
    requires Breaks(text, n, m)
    ensures !Unbroken(text)
  {
    BreakShows(text, n, m, |text|);
    assert text[..|text|] == text;
  }

  /** A break shows in any longer beginning of the text. */
  lemma BreakShows(text: string, n: nat, m: nat, end: nat)
    requires Breaks(text, n, m) && n < end <= |text|
    ensures !Unbroken(text[..end])
  {
    SpaceWithin(text, n, m, n);
    assert text[..end][n - 1] == text[n - 1] && text[..end][n] == text[n];
  }

  lemma SpaceWithin(text: string, n: nat, m: nat, k: nat)
    requires Breaks(text, n, m) && n <= k < m
    ensures IsSpace(text[k])
  {
    assert text[k] == text[n..m][k - n];
  }

  lemma SameBreak(text: string, n: nat, m: nat, n': nat, m': nat)
    requires Breaks(text, n, m) && Breaks(text, n', m') && Unbroken(text[..n]) && Unbroken(text[..n'])
    ensures n == n' && m == m'
  {
    hide Unbroken;
    if n < n' { BreakShows(text, n, m, n'); }
    if n' < n { BreakShows(text, n', m', n); }
    if m < m' && n == n' { SpaceWithin(text, n', m', m); }
    if m' < m && n == n' { SpaceWithin(text, n, m, m'); }
  }
}
