/**
  The section locator of the editor (frontend/src/lib/editorUtils.ts): which heading's section a cursor
  is in, the headings above it, and where the section ends. A document is given by the sizes of its
  top-level nodes.
 */
module Sections {
  import opened Wrappers

  datatype Node = Heading(level: int, text: string, size: nat) | Block(size: nat)

  datatype HeadingEntry = HeadingEntry(pos: nat, level: int, text: string)

  datatype Section = Section(headingPath: seq<string>, headingPathStr: string, sectionStart: nat, sectionEnd: nat)

  /** The offset of each node is the size of the nodes before it. */
  function Size(nodes: seq<Node>): nat {
    if nodes == [] then 0 else Size(nodes[..|nodes| - 1]) + nodes[|nodes| - 1].size
  }

  lemma {:induction false} SizeAdds(a: seq<Node>, b: seq<Node>)
    ensures Size(a + b) == Size(a) + Size(b)
    ensures a != [] ==> Size([a[0]]) == a[0].size
    decreases |b|
  {
    if a != [] { assert [a[0]][..0] == []; }
    if b == [] {
      assert a + b == a;
    } else {
      assert (a + b)[..|a + b| - 1] == a + b[..|b| - 1];
      SizeAdds(a, b[..|b| - 1]);
    }
  }

  /** A node takes up room, so that offsets differ. */
  predicate Sized(nodes: seq<Node>) {
    forall i :: 0 <= i < |nodes| ==> nodes[i].size > 0
  }

  ghost predicate Sorted(headings: seq<HeadingEntry>) {
    forall i, j :: 0 <= i < j < |headings| ==> headings[i].pos < headings[j].pos
  }

  function EntryOf(nodes: seq<Node>, k: nat): HeadingEntry
    requires k < |nodes| && nodes[k].Heading?
  {
    HeadingEntry(Size(nodes[..k]), nodes[k].level, nodes[k].text)
  }

  /** The entries are the headings among the first `n` nodes at their offsets, `at` saying which. */
  ghost predicate Indexes(headings: seq<HeadingEntry>, nodes: seq<Node>, at: seq<nat>, n: nat) {
    && |at| == |headings| && n <= |nodes|
    && (forall i :: 0 <= i < |at| ==> at[i] < n && nodes[at[i]].Heading? && headings[i] == EntryOf(nodes, at[i]))
    && (forall i, j :: 0 <= i < j < |at| ==> at[i] < at[j])
    && (forall k :: 0 <= k < n && nodes[k].Heading? ==> k in at)
  }

  lemma {:induction false} SizeGrows(nodes: seq<Node>, i: nat, j: nat)
    requires i <= j <= |nodes|
    ensures Size(nodes[..i]) <= Size(nodes[..j])
    ensures Sized(nodes) && i < j ==> Size(nodes[..i]) < Size(nodes[..j])
    decreases j - i
  {
    if i < j {
      SizeGrows(nodes, i, j - 1);
      assert nodes[..j][..j - 1] == nodes[..j - 1];
    }
  }

  /** Collects the heading nodes, each exactly once, in the order of their positions. */
  method BuildHeadingsIndex(nodes: seq<Node>) returns (entries: seq<HeadingEntry>, ghost at: seq<nat>)
    ensures Indexes(entries, nodes, at, |nodes|)
    ensures Sized(nodes) ==> Sorted(entries)
    ensures Sized(nodes) ==> forall i :: 0 <= i < |entries| ==> entries[i].pos < Size(nodes)
  {
    entries, at := [], [];
    var offset := 0;
    for k := 0 to |nodes|
      invariant offset == Size(nodes[..k]) && Indexes(entries, nodes, at, k)
    {
      IndexesMore(entries, nodes, at, k);
      assert nodes[..k + 1][..k] == nodes[..k];
      if nodes[k].Heading? {
        entries := entries + [HeadingEntry(offset, nodes[k].level, nodes[k].text)];
        at := at + [k];
      }
      offset := offset + nodes[k].size;
    }
    assert nodes[..|nodes|] == nodes;
    if Sized(nodes) {
      forall i, j | 0 <= i < j < |entries| ensures entries[i].pos < entries[j].pos {
        SizeGrows(nodes, at[i], at[j]);
      }
      forall i | 0 <= i < |entries| ensures entries[i].pos < Size(nodes) {
        SizeGrows(nodes, at[i], |nodes|);
      }
    }
  }

  lemma IndexesMore(headings: seq<HeadingEntry>, nodes: seq<Node>, at: seq<nat>, k: nat)
    requires k < |nodes| && Indexes(headings, nodes, at, k)
    ensures if nodes[k].Heading? then Indexes(headings + [EntryOf(nodes, k)], nodes, at + [k], k + 1)
            else Indexes(headings, nodes, at, k + 1)
  {
    hide EntryOf;
    var more := at + [k];
    assert forall x :: x in at ==> x in more;
    assert more[|at|] == k;
  }

  // ---------------------------------------------------------------- what the locator computes

  /** The heading the position belongs to: headings up to it are at or before the position, the next is
      not. */
  ghost predicate IsOwner(headings: seq<HeadingEntry>, pos: int, owner: nat) {
    && owner < |headings| && (forall i :: 0 <= i <= owner ==> headings[i].pos <= pos)
    && (owner + 1 < |headings| ==> headings[owner + 1].pos > pos)
  }

  /** Heading `i` stands above heading `owner`: no heading between them, or `owner` itself, is of the same
      or a higher rank. */
  predicate Above(headings: seq<HeadingEntry>, i: nat, owner: nat)
    requires owner < |headings|
  {
    i <= owner && forall k :: i < k <= owner ==> headings[i].level < headings[k].level
  }

  /** `path` holds exactly the headings above `owner`, from `from` on, outermost first. */
  ghost predicate IsPath(headings: seq<HeadingEntry>, owner: nat, path: seq<nat>, from: nat)
    requires owner < |headings|
  {
    && (forall i, j :: 0 <= i < j < |path| ==> path[i] < path[j])
    && (forall i :: i in path <==> from <= i && Above(headings, i, owner))
  }

  /** The section of heading `i` ends at the next heading of the same or a higher rank. */
  ghost predicate EndsAt(headings: seq<HeadingEntry>, i: nat, size: nat, next: nat, end: nat)
    requires i < |headings|
  {
    && i < next <= |headings|
    && (forall k :: i < k < next ==> headings[k].level > headings[i].level)
    && (if next == |headings| then end == size
        else headings[next].level <= headings[i].level && end == headings[next].pos)
  }

  function TextsAt(headings: seq<HeadingEntry>, path: seq<nat>): seq<string>
    requires forall i :: i in path ==> i < |headings|
  {
    seq(|path|, i requires 0 <= i < |path| => assert path[i] in path; headings[path[i]].text)
  }

  /** `parts.join(' > ')`. */
  function JoinPath(parts: seq<string>): string {
    if parts == [] then "" else if |parts| == 1 then parts[0] else parts[0] + " > " + JoinPath(parts[1..])
  }

  method FindOwner(headings: seq<HeadingEntry>, pos: int) returns (owner: int)
    ensures -1 <= owner < |headings|
    ensures owner == -1 <==> headings == [] || headings[0].pos > pos
    ensures owner >= 0 ==> IsOwner(headings, pos, owner)
  {
    owner := -1;
    for i := 0 to |headings|
      invariant owner == i - 1
      invariant forall k :: 0 <= k < i ==> headings[k].pos <= pos
    {
      if headings[i].pos <= pos {
        owner := i;
      } else {
        break;
      }
    }
  }

  /** The headings above `owner`, from `from` on, outermost first. */
  function PathTo(headings: seq<HeadingEntry>, owner: nat, from: nat): (path: seq<nat>)
    requires owner < |headings|
    ensures IsPath(headings, owner, path, from)
    decreases owner + 1 - from
  {
    if from > owner then []
    else
      var rest := PathTo(headings, owner, from + 1);
      if Above(headings, from, owner) then
        PathGrows(headings, owner, rest, from);
        [from] + rest
      else
        PathStays(headings, owner, rest, from);
        rest
  }

  function EntriesAt(headings: seq<HeadingEntry>, path: seq<nat>): (entries: seq<HeadingEntry>)
    requires forall i :: i in path ==> i < |headings|
    ensures |entries| == |path|
  {
    seq(|path|, i requires 0 <= i < |path| => assert path[i] in path; headings[path[i]])
  }

  /** Walks back from the owner, keeping each heading of a higher rank than all kept before. */
  method BuildPath(headings: seq<HeadingEntry>, owner: nat) returns (stack: seq<HeadingEntry>)
    requires owner < |headings|
    ensures stack == EntriesAt(headings, PathTo(headings, owner, 0))
  {
    hide PathTo;
    stack := [];
    ghost var path: seq<nat> := [];
    var i := owner;
    PathUnfolds(headings, owner, owner + 1);
    while i >= 0
      invariant -1 <= i <= owner && path == PathTo(headings, owner, i + 1) && stack == EntriesAt(headings, path)
      invariant path == [] <==> i == owner
      invariant path != [] ==> Above(headings, path[0], owner) && NoneHigher(headings, path[0], i, owner)
      decreases i + 1
    {
      var h := headings[i];
      PathUnfolds(headings, owner, i);
      if stack == [] || h.level < stack[0].level {
        assert Above(headings, i, owner);
        stack := [h] + stack;
        path := [i] + path;
      } else {
        assert !Above(headings, i, owner);
      }
      i := i - 1;
    }
  }

  /** No heading after `i`, up to `owner`, ranks higher than heading `p`. */
  predicate NoneHigher(headings: seq<HeadingEntry>, p: nat, i: int, owner: nat)
    requires p <= owner < |headings| && i >= -1
  {
    i < p && forall k :: i < k <= owner ==> headings[p].level <= headings[k].level
  }

  lemma PathUnfolds(headings: seq<HeadingEntry>, owner: nat, i: nat)
    requires owner < |headings|
    ensures PathTo(headings, owner, i) ==
            if i > owner then []
            else if Above(headings, i, owner) then [i] + PathTo(headings, owner, i + 1)
            else PathTo(headings, owner, i + 1)
  {
    hide Above;
  }

  lemma PathGrows(headings: seq<HeadingEntry>, owner: nat, path: seq<nat>, i: nat)
    requires i <= owner < |headings| && IsPath(headings, owner, path, i + 1) && Above(headings, i, owner)
    ensures IsPath(headings, owner, [i] + path, i)
  {
    var more := [i] + path;
    assert forall k :: 0 <= k < |path| ==> path[k] in path;
    forall k ensures k in more <==> i <= k && Above(headings, k, owner) {
      assert k in more <==> k == i || k in path;
    }
  }

  lemma PathStays(headings: seq<HeadingEntry>, owner: nat, path: seq<nat>, i: nat)
    requires i <= owner < |headings| && IsPath(headings, owner, path, i + 1) && !Above(headings, i, owner)
    ensures IsPath(headings, owner, path, i)
  {
  }

  method FindEnd(headings: seq<HeadingEntry>, owner: nat, size: nat) returns (end: nat)
    requires owner < |headings|
    ensures exists next :: EndsAt(headings, owner, size, next, end)
  {
    end := size;
    ghost var next := |headings|;
    for i := owner + 1 to |headings|
      invariant end == size && next == |headings|
      invariant forall k :: owner < k < i ==> headings[k].level > headings[owner].level
    {
      if headings[i].level <= headings[owner].level {
        end, next := headings[i].pos, i;
        break;
      }
    }
    assert EndsAt(headings, owner, size, next, end);
  }

  /** The headings searched: the given index, or one built from the document. */
  ghost predicate Searched(headings: seq<HeadingEntry>, nodes: seq<Node>, headingsIndex: Option<seq<HeadingEntry>>) {
    if headingsIndex.Some? then headings == headingsIndex.value else exists at :: Indexes(headings, nodes, at, |nodes|)
  }

  /** The section is that of the position's owner. */
  ghost predicate Locates(s: Section, headings: seq<HeadingEntry>, pos: int, size: nat) {
    exists owner: nat, next: nat ::
      && IsOwner(headings, pos, owner) && EndsAt(headings, owner, size, next, s.sectionEnd)
      && s.sectionStart == headings[owner].pos && s.headingPath == TextsAt(headings, PathTo(headings, owner, 0))
      && s.headingPathStr == JoinPath(s.headingPath)
  }

  /** The section a position is in; none before the first heading. */
  method GetSectionAtPosition(nodes: seq<Node>, pos: int, headingsIndex: Option<seq<HeadingEntry>>)
    returns (section: Option<Section>)
    ensures exists headings: seq<HeadingEntry> ::
      && Searched(headings, nodes, headingsIndex)
      && (section.None? <==> headings == [] || headings[0].pos > pos)
      && (section.Some? ==> Locates(section.value, headings, pos, Size(nodes)))
  {
    hide Indexes, PathTo, IsOwner, EndsAt, JoinPath;
    var entries;
    if headingsIndex.Some? {
      entries := headingsIndex.value;
    } else {
      ghost var at;
      entries, at := BuildHeadingsIndex(nodes);
    }
    assert Searched(entries, nodes, headingsIndex);
    if entries == [] { return None; }
    var owner := FindOwner(entries, pos);
    if owner == -1 { return None; }
    var stack := BuildPath(entries, owner);
    var texts := seq(|stack|, i requires 0 <= i < |stack| => stack[i].text);
    assert texts == TextsAt(entries, PathTo(entries, owner, 0));
    var end := FindEnd(entries, owner, Size(nodes));
    section := Some(Section(texts, JoinPath(texts), entries[owner].pos, end));
    assert Locates(section.value, entries, pos, Size(nodes));
  }

  // ---------------------------------------------------------------- what it means

  /** The position lies in the section of heading `i`: at or after it, and before the next heading of the
      same or a higher rank. */
  ghost predicate Encloses(headings: seq<HeadingEntry>, i: nat, pos: int) {
    && i < |headings| && headings[i].pos <= pos
    && forall j :: i < j < |headings| && headings[j].level <= headings[i].level ==> pos < headings[j].pos
  }

  /** The path is exactly the headings whose sections the position lies in, outermost first, of strictly
      falling rank. */
  lemma PathIsTheEnclosingHeadings(headings: seq<HeadingEntry>, pos: int, owner: nat)
    requires Sorted(headings) && IsOwner(headings, pos, owner)
    ensures var path := PathTo(headings, owner, 0);
      && (forall i :: i in path <==> Encloses(headings, i, pos))
      && (forall i, j :: 0 <= i < j < |path| ==>
            path[i] < path[j] < |headings| && headings[path[i]].level < headings[path[j]].level)
      && path != [] && path[|path| - 1] == owner
  {
    hide PathTo;
    var path := PathTo(headings, owner, 0);
    forall i: nat ensures i in path <==> Encloses(headings, i, pos) {
      OwnerSplits(headings, pos, owner);
      if i <= owner && !Above(headings, i, owner) {
        var k :| i < k <= owner && headings[i].level >= headings[k].level;
        assert headings[k].pos <= pos;
      }
    }
    forall i, j | 0 <= i < j < |path|
      ensures path[i] < path[j] < |headings| && headings[path[i]].level < headings[path[j]].level
    {
      assert path[i] in path && path[j] in path;
      assert Above(headings, path[i], owner) && Above(headings, path[j], owner);
    }
    OwnerEndsThePath(headings, owner);
  }

  lemma OwnerEndsThePath(headings: seq<HeadingEntry>, owner: nat)
    requires owner < |headings|
    ensures var path := PathTo(headings, owner, 0); path != [] && path[|path| - 1] == owner
  {
    hide PathTo;
    var path := PathTo(headings, owner, 0);
    assert owner in path;
    var j :| 0 <= j < |path| && path[j] == owner;
    assert path[|path| - 1] in path;
  }

  lemma OwnerSplits(headings: seq<HeadingEntry>, pos: int, owner: nat)
    requires Sorted(headings) && IsOwner(headings, pos, owner)
    ensures forall i :: 0 <= i < |headings| ==> (headings[i].pos <= pos <==> i <= owner)
  {
  }

  /** The section found contains the position, up to the end of the document. */
  lemma SectionContainsThePosition(headings: seq<HeadingEntry>, pos: int, owner: nat, size: nat, next: nat, end: nat)
    requires Sorted(headings) && IsOwner(headings, pos, owner) && EndsAt(headings, owner, size, next, end)
    requires pos <= size && forall i :: 0 <= i < |headings| ==> headings[i].pos < size
    ensures headings[owner].pos <= pos && headings[owner].pos < end <= size
    ensures pos < end || (end == size == pos)
  {
    OwnerSplits(headings, pos, owner);
  }

  /** Any two sections are nested or apart, and nested exactly when one heading stands above the other. */
  lemma SectionsNestOrAreApart(headings: seq<HeadingEntry>, size: nat, i: nat, iNext: nat, iEnd: nat, j: nat,
                               jNext: nat, jEnd: nat)
    requires Sorted(headings) && (forall k :: 0 <= k < |headings| ==> headings[k].pos < size)
    requires i < j < |headings| && EndsAt(headings, i, size, iNext, iEnd) && EndsAt(headings, j, size, jNext, jEnd)
    ensures if Above(headings, i, j) then headings[i].pos < headings[j].pos < jEnd <= iEnd
            else iEnd <= headings[j].pos < jEnd
  {
    if Above(headings, i, j) {
      assert iNext > j;
      assert forall k :: j < k < |headings| && headings[k].level <= headings[i].level ==> k >= jNext;
    } else {
      var k :| i < k <= j && headings[i].level >= headings[k].level;
      assert iNext <= k;
    }
  }

  // ---------------------------------------------------------------- what the caller gets

  lemma LocatedOwner(s: Section, headings: seq<HeadingEntry>, pos: int, size: nat) returns (owner: nat)
    requires Locates(s, headings, pos, size)
    ensures IsOwner(headings, pos, owner) && s.sectionStart == headings[owner].pos
    ensures s.headingPath == TextsAt(headings, PathTo(headings, owner, 0))
  {
    var o: nat, next: nat :|
      && IsOwner(headings, pos, o) && o < |headings| && EndsAt(headings, o, size, next, s.sectionEnd)
      && s.sectionStart == headings[o].pos && s.headingPath == TextsAt(headings, PathTo(headings, o, 0))
      && s.headingPathStr == JoinPath(s.headingPath);
    owner := o;
  }

  /** The section returned: its path is the texts of exactly the headings whose sections the position lies in,
      outermost first, and it starts at the innermost of them. */
  lemma PathIsTheEnclosingTexts(s: Section, headings: seq<HeadingEntry>, pos: int, size: nat)
    requires Sorted(headings) && Locates(s, headings, pos, size)
    ensures exists path: seq<nat> ::
      && |path| == |s.headingPath| > 0
      && (forall i, j :: 0 <= i < j < |path| ==> path[i] < path[j])
      && (forall i :: i in path <==> Encloses(headings, i, pos))
      && (forall i :: 0 <= i < |path| ==> path[i] < |headings| && s.headingPath[i] == headings[path[i]].text)
      && s.sectionStart == headings[path[|path| - 1]].pos
  {
    hide PathTo, Locates, Encloses;
    var owner := LocatedOwner(s, headings, pos, size);
    PathIsTheEnclosingHeadings(headings, pos, owner);
    var path := PathTo(headings, owner, 0);
    forall i | 0 <= i < |path| ensures path[i] < |headings| && s.headingPath[i] == headings[path[i]].text {
      assert path[i] in path;
    }
    assert |path| == |s.headingPath| > 0;
  }

  /** The parts with " > " between each two and nothing else. */
  lemma {:induction false} JoinPathAppend(a: seq<string>, b: seq<string>)
    requires a != [] && b != []
    ensures JoinPath(a + b) == JoinPath(a) + " > " + JoinPath(b)
    ensures JoinPath([a[0]]) == a[0]
    decreases |a|
  {
    var all := a + b;
    if |a| == 1 {
      assert all[1..] == b;
    } else {
      assert all[1..] == a[1..] + b;
      JoinPathAppend(a[1..], b);
    }
  }

  predicate Plain(parts: seq<string>) {
    forall part :: part in parts ==> '>' !in part
  }

  lemma FirstMark(parts: seq<string>)
    requires |parts| > 1 && Plain(parts)
    ensures var s, n := JoinPath(parts), |parts[0]|;
      && n + 3 <= |s| && s[..n] == parts[0] && s[n + 1] == '>' && s[n + 3..] == JoinPath(parts[1..])
      && forall k :: 0 <= k <= n ==> s[k] != '>'
  {
    assert '>' !in parts[0];
    var s := parts[0] + " > " + JoinPath(parts[1..]);
    assert s[|parts[0]|] == ' ';
  }

  /** From the joined path of headings without a '>' the path can be read back. */
  lemma {:induction false} JoinPathDetermines(a: seq<string>, b: seq<string>)
    requires a != [] && b != [] && Plain(a) && Plain(b) && JoinPath(a) == JoinPath(b)
    ensures a == b
    decreases |a|
  {
    hide JoinPath;
    if |a| == 1 || |b| == 1 {
      OnePart(a);
      OnePart(b);
    } else {
      FirstMark(a);
      FirstMark(b);
      SameFirst(a, b);
      JoinPathDetermines(a[1..], b[1..]);
      assert a == [a[0]] + a[1..] && b == [b[0]] + b[1..];
    }
  }

  lemma SameFirst(a: seq<string>, b: seq<string>)
    requires |a| > 1 && |b| > 1 && Plain(a) && Plain(b) && JoinPath(a) == JoinPath(b)
    ensures a[0] == b[0] && JoinPath(a[1..]) == JoinPath(b[1..])
  {
    hide JoinPath;
    FirstMark(a);
    FirstMark(b);
    var s, n, m := JoinPath(a), |a[0]|, |b[0]|;
    assert s[n + 1] == s[m + 1] == '>';
    assert n == m;
  }

  lemma OnePart(parts: seq<string>)
    requires parts != [] && Plain(parts)
    ensures '>' in JoinPath(parts) <==> |parts| > 1
    ensures |parts| == 1 ==> JoinPath(parts) == parts[0] && parts == [parts[0]]
  {
    if |parts| > 1 {
      FirstMark(parts);
    } else {
      assert parts[0] in parts;
    }
  }
}
