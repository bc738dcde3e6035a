/**
  The string operations of the script's standard library that the stream reader and the citation
  codec share: `split('\n')`, `join('\n')`, `trim()` and `startsWith`.
 */
module Lines {
  /** The characters `trim()` removes: the white space and line terminators of ECMAScript. */
  predicate IsSpace(c: char) {
    || '\t' <= c <= '\r' || c == ' ' || c == '\U{A0}' || c == '\U{1680}' || '\U{2000}' <= c <= '\U{200A}'
    || c == '\U{2028}' || c == '\U{2029}' || c == '\U{202F}' || c == '\U{205F}' || c == '\U{3000}'
    || c == '\U{FEFF}'
  }

  function TrimStart(s: string): string {
    if s != [] && IsSpace(s[0]) then TrimStart(s[1..]) else s
  }

  function TrimEnd(s: string): string {
    if s != [] && IsSpace(s[|s| - 1]) then TrimEnd(s[..|s| - 1]) else s
  }

  function Trim(s: string): string { TrimEnd(TrimStart(s)) }

  predicate Blank(s: string) {
    forall i :: 0 <= i < |s| ==> IsSpace(s[i])
  }

  lemma {:induction false} TrimEndBlank(s: string)
    ensures TrimEnd(s) == "" <==> Blank(s)
  {
    if s != [] && IsSpace(s[|s| - 1]) {
      TrimEndBlank(s[..|s| - 1]);
    }
  }

  /** `trim()` leaves nothing exactly when every character is white space. */
  lemma {:induction false} TrimBlank(s: string)
    ensures Trim(s) == "" <==> Blank(s)
  {
    if s != [] && IsSpace(s[0]) {
      TrimBlank(s[1..]);
      assert forall i :: 1 <= i < |s| ==> s[i] == s[1..][i - 1];
    } else {
      TrimEndBlank(s);
    }
  }

  /** Trimming a text that starts and ends in visible characters, with spaces after it. */
  lemma {:induction false} TrimEndDrops(s: string, tail: string)
    requires s != [] && !IsSpace(s[|s| - 1]) && Blank(tail)
    ensures TrimEnd(s + tail) == s
  {
    if tail == [] {
      assert s + tail == s;
    } else {
      assert (s + tail)[..|s + tail| - 1] == s + tail[..|tail| - 1];
      TrimEndDrops(s, tail[..|tail| - 1]);
    }
  }

  lemma {:induction false} TrimStartDrops(head: string, s: string)
    requires Blank(head) && (s == "" || !IsSpace(s[0]))
    ensures TrimStart(head + s) == s
  {
    if head == [] {
      assert head + s == s;
    } else {
      assert (head + s)[1..] == head[1..] + s;
      TrimStartDrops(head[1..], s);
    }
  }

  /** Trimming drops the white space around a text that is empty or visible at both ends, and nothing else. */
  lemma TrimDrops(head: string, s: string, tail: string)
    requires Blank(head) && Blank(tail) && (s == "" || (!IsSpace(s[0]) && !IsSpace(s[|s| - 1])))
    ensures Trim(head + s + tail) == s
  {
    if s == "" {
      TrimBlank(head + s + tail);
    } else {
      assert head + s + tail == head + (s + tail);
      TrimStartDrops(head, s + tail);
      TrimEndDrops(s, tail);
    }
  }

  lemma {:induction false} TrimStartSkips(s: string) returns (head: string)
    ensures Blank(head) && s == head + TrimStart(s) && (TrimStart(s) == "" || !IsSpace(TrimStart(s)[0]))
  {
    if s != [] && IsSpace(s[0]) {
      var rest := TrimStartSkips(s[1..]);
      head := [s[0]] + rest;
    } else {
      head := "";
    }
  }

  lemma {:induction false} TrimEndSkips(s: string) returns (tail: string)
    ensures Blank(tail) && s == TrimEnd(s) + tail && (TrimEnd(s) == "" || !IsSpace(TrimEnd(s)[|TrimEnd(s)| - 1]))
  {
    if s != [] && IsSpace(s[|s| - 1]) {
      var rest := TrimEndSkips(s[..|s| - 1]);
      tail := rest + [s[|s| - 1]];
    } else {
      tail := "";
    }
  }

  /** Every text is its trimmed form between two runs of white space. */
  lemma TrimSkips(s: string) returns (head: string, tail: string)
    ensures Blank(head) && Blank(tail) && s == head + Trim(s) + tail
    ensures Trim(s) == "" || (!IsSpace(Trim(s)[0]) && !IsSpace(Trim(s)[|Trim(s)| - 1]))
  {
    head := TrimStartSkips(s);
    tail := TrimEndSkips(TrimStart(s));
    if Trim(s) != "" { assert TrimStart(s)[0] == Trim(s)[0]; }
  }

  // ---------------------------------------------------------------- lines

  function Prepend(c: char, lines: seq<string>): (r: seq<string>)
    requires lines != []
    ensures r != []
  {
    [[c] + lines[0]] + lines[1..]
  }

  /** `s.split('\n')`. */
  function Split(s: string): (r: seq<string>)
    ensures r != []
  {
    if s == "" then [""]
    else if s[0] == '\n' then [""] + Split(s[1..])
    else Prepend(s[0], Split(s[1..]))
  }

  /** `lines.join('\n')`. */
  function Join(lines: seq<string>): string {
    if lines == [] then ""
    else if |lines| == 1 then lines[0]
    else lines[0] + "\n" + Join(lines[1..])
  }

  predicate OneLine(s: string) { '\n' !in s }

  lemma JoinCons(line: string, rest: seq<string>)
    requires rest != []
    ensures Join([line] + rest) == line + "\n" + Join(rest)
    ensures forall c :: Join([[c] + line] + rest) == [c] + Join([line] + rest)
    ensures forall c :: Join([[c] + line]) == [c] + Join([line])
  {
    assert ([line] + rest)[1..] == rest;
    forall c ensures Join([[c] + line] + rest) == [c] + Join([line] + rest) {
      assert ([[c] + line] + rest)[1..] == rest;
    }
  }

  lemma {:induction false} JoinSplit(s: string)
    ensures Join(Split(s)) == s
  {
    if s != "" {
      JoinSplit(s[1..]);
      var rest := Split(s[1..]);
      assert rest == [rest[0]] + rest[1..];
      if s[0] == '\n' {
        JoinCons("", rest);
      } else if |rest| > 1 {
        JoinCons(rest[0], rest[1..]);
      }
    }
  }

  lemma {:induction false} SplitIsLines(s: string)
    ensures forall line :: line in Split(s) ==> OneLine(line)
  {
    if s != "" {
      SplitIsLines(s[1..]);
      var rest := Split(s[1..]);
      assert OneLine(rest[0]);
      forall line | line in Split(s) ensures OneLine(line) {
        assert line in rest || line == "" || line == [s[0]] + rest[0];
      }
    }
  }

  /** Splitting is one-to-one: only the lines a text was joined from come back. */
  lemma {:induction false} SplitJoin(lines: seq<string>)
    requires lines != [] && forall line :: line in lines ==> OneLine(line)
    ensures Split(Join(lines)) == lines
    decreases |lines|, |Join(lines)|
  {
    SplitHead(lines[0], Join(lines[1..]));
    if |lines| == 1 {
    } else {
      SplitJoin(lines[1..]);
      assert lines == [lines[0]] + lines[1..];
    }
  }

  lemma {:induction false} SplitHead(line: string, rest: string)
    requires OneLine(line)
    ensures Split(line) == [line]
    ensures Split(line + "\n" + rest) == [line] + Split(rest)
  {
    if line == "" {
      assert line + "\n" + rest == ['\n'] + rest;
    } else {
      assert OneLine(line[1..]);
      SplitHead(line[1..], rest);
      assert (line + "\n" + rest)[1..] == line[1..] + "\n" + rest;
      assert line == [line[0]] + line[1..];
    }
  }

  /** Joins two line lists end to end: the last line of one continues in the first of the other. */
  function Glue(a: seq<string>, b: seq<string>): seq<string>
    requires a != [] && b != []
  {
    a[..|a| - 1] + [a[|a| - 1] + b[0]] + b[1..]
  }

  lemma GlueFront(a: seq<string>, b: seq<string>)
    requires a != [] && b != []
    ensures Glue([""] + a, b) == [""] + Glue(a, b)
    ensures forall c :: Glue(Prepend(c, a), b) == Prepend(c, Glue(a, b))
  {
    assert ([""] + a)[..|a|] == [""] + a[..|a| - 1];
    forall c ensures Glue(Prepend(c, a), b) == Prepend(c, Glue(a, b)) {
      if |a| == 1 {
        assert [c] + (a[0] + b[0]) == ([c] + a[0]) + b[0];
        assert a[1..] == [];
      }
    }
  }

  /** Appending text only touches the last, still unterminated line. */
  lemma {:induction false} SplitAppend(s: string, t: string)
    ensures Split(s + t) == Glue(Split(s), Split(t))
  {
    if s == "" {
      assert s + t == t;
      assert [""][..0] == [] && "" + Split(t)[0] == Split(t)[0];
    } else {
      assert (s + t)[1..] == s[1..] + t;
      SplitAppend(s[1..], t);
      GlueFront(Split(s[1..]), Split(t));
    }
  }
}
