/**
  The citation codec (frontend/src/lib/citationSerializer.ts).

  A document tree is printed as text in which each citation is a marker `[SOURCE:chunkId]`, and the
  citation's attributes are kept in a registry. Reading the text back finds the markers, leftmost
  first, and looks their attributes up by chunk id.
 */
module Citations {
  import opened Wrappers
  import opened Lines

  /** Attributes of a citation node; `None` stands for a missing, undefined or null attribute. */
  datatype Attrs = Attrs(citationId: Option<string>, chunkId: Option<string>, sourceFile: Option<string>,
                         page: Option<int>, snippetHash: Option<string>)

  /** A node is a citation, or carries text, or is a (possibly empty) container. */
  datatype Node = Citation(attrs: Attrs) | Text(text: string) | Branch(kind: string, children: seq<Node>)

  datatype CitationData = CitationData(citationId: string, chunkId: string, sourceFile: Option<string>,
                                       page: Option<int>, snippetHash: Option<string>)

  datatype Entry = Entry(key: string, data: CitationData)

  const OPEN := "[SOURCE:"

  // ---------------------------------------------------------------- the registry

  /** Storing under a key keeps the key's place, or appends a new key at the end. */
  function Assign(entries: seq<Entry>, key: string, data: CitationData): seq<Entry> {
    if entries == [] then [Entry(key, data)]
    else if entries[0].key == key then [Entry(key, data)] + entries[1..]
    else [entries[0]] + Assign(entries[1..], key, data)
  }

  lemma AssignStops(entries: seq<Entry>, key: string, data: CitationData, k: nat)
    requires k < |entries| ==> entries[k].key == key
    requires k <= |entries|
    ensures entries[..k] + Assign(entries[k..], key, data) ==
            if k < |entries| then entries[k := Entry(key, data)] else entries + [Entry(key, data)]
  {
    if k < |entries| {
      assert entries[k..][1..] == entries[k + 1..];
    }
  }

  lemma AssignPasses(entries: seq<Entry>, key: string, data: CitationData, k: nat)
    requires k < |entries| && entries[k].key != key
    ensures entries[..k] + Assign(entries[k..], key, data) == entries[..k + 1] + Assign(entries[k + 1..], key, data)
  {
    var back := entries[k..];
    assert back[1..] == entries[k + 1..];
    assert Assign(back, key, data) == [entries[k]] + Assign(back[1..], key, data);
    assert entries[..k + 1] == entries[..k] + [entries[k]];
  }

  /** A map in insertion order. */
  class Registry {
    var entries: seq<Entry>

    constructor ()
      ensures entries == []
    {
      entries := [];
    }

    method Set(key: string, data: CitationData)
      modifies this
      ensures entries == Assign(old(entries), key, data)
    {
      hide Assign;
      assert entries[..0] + Assign(entries[0..], key, data) == Assign(entries, key, data) by {
        assert entries[0..] == entries;
      }
      var k := 0;
      while k < |entries| && entries[k].key != key
        invariant 0 <= k <= |entries| && entries == old(entries)
        invariant Assign(entries, key, data) == entries[..k] + Assign(entries[k..], key, data)
      {
        AssignPasses(entries, key, data, k);
        k := k + 1;
      }
      AssignStops(entries, key, data, k);
      if k < |entries| {
        entries := entries[k := Entry(key, data)];
      } else {
        entries := entries + [Entry(key, data)];
      }
    }
  }

  /** The attributes found for a chunk id: those of the last entry that carries it. */
  function LastWith(entries: seq<Entry>, chunkId: string): Option<CitationData> {
    if entries == [] then None
    else
      var last := entries[|entries| - 1].data;
      if last.chunkId == chunkId then Some(last) else LastWith(entries[..|entries| - 1], chunkId)
  }

  // ---------------------------------------------------------------- printing

  function OrEmpty(s: Option<string>): string {
    match s
    case Some(v) => v
    case None => ""
  }

  function DataOf(attrs: Attrs): CitationData {
    CitationData(OrEmpty(attrs.citationId), OrEmpty(attrs.chunkId), attrs.sourceFile, attrs.page, attrs.snippetHash)
  }

  function Marker(chunkId: string): string { OPEN + chunkId + "]" }

  function Printed(node: Node): string
    decreases node, 1
  {
    match node
    case Citation(attrs) => Marker(OrEmpty(attrs.chunkId))
    case Text(text) => text
    case Branch(_, children) => PrintedAll(children)
  }

  function PrintedAll(nodes: seq<Node>): string
    decreases nodes, 0
  {
    if nodes == [] then "" else Printed(nodes[0]) + PrintedAll(nodes[1..])
  }

  /** Citations with an id, in the order the walk meets them, are stored under that id. */
  function Registered(entries: seq<Entry>, node: Node): seq<Entry>
    decreases node, 1
  {
    match node
    case Citation(attrs) => if OrEmpty(attrs.citationId) == "" then entries
                            else Assign(entries, attrs.citationId.value, DataOf(attrs))
    case Text(_) => entries
    case Branch(_, children) => RegisteredAll(entries, children)
  }

  function RegisteredAll(entries: seq<Entry>, nodes: seq<Node>): seq<Entry>
    decreases nodes, 0
  {
    if nodes == [] then entries else RegisteredAll(Registered(entries, nodes[0]), nodes[1..])
  }

  /** The texts and citations of a tree, in document order. */
  function Leaves(node: Node): seq<Node>
    decreases node, 1
  {
    if node.Branch? then LeavesAll(node.children) else [node]
  }

  function LeavesAll(nodes: seq<Node>): seq<Node>
    decreases nodes, 0
  {
    if nodes == [] then [] else Leaves(nodes[0]) + LeavesAll(nodes[1..])
  }

  function SpelledOne(leaf: Node): string {
    match leaf
    case Text(text) => text
    case Citation(attrs) => "[SOURCE:" + OrEmpty(attrs.chunkId) + "]"
    case Branch(_, _) => ""
  }

  /** The leaves' texts and markers one after another. */
  function Spelled(leaves: seq<Node>): string {
    if leaves == [] then "" else Spelled(leaves[..|leaves| - 1]) + SpelledOne(leaves[|leaves| - 1])
  }

  lemma {:induction false} SpelledAppend(a: seq<Node>, b: seq<Node>)
    ensures Spelled(a + b) == Spelled(a) + Spelled(b)
    decreases |b|
  {
    hide SpelledOne;
    if b == [] {
      assert a + b == a;
    } else {
      assert (a + b)[..|a + b| - 1] == a + b[..|b| - 1];
      SpelledAppend(a, b[..|b| - 1]);
    }
  }

  /** Whatever the tree and the kinds of its nodes, it prints as its leaves do, and they are all its texts and
      citations. */
  lemma {:induction false} PrintedIsItsLeaves(node: Node)
    ensures Printed(node) == Spelled(Leaves(node))
    ensures forall leaf :: leaf in Leaves(node) ==> !leaf.Branch?
    decreases node, 1
  {
    if node.Branch? {
      PrintedAllIsLeaves(node.children);
    } else {
      assert [node][..0] == [];
      assert Spelled([]) == "";
    }
  }

  lemma {:induction false} PrintedAllIsLeaves(nodes: seq<Node>)
    ensures PrintedAll(nodes) == Spelled(LeavesAll(nodes))
    ensures forall leaf :: leaf in LeavesAll(nodes) ==> !leaf.Branch?
    decreases nodes, 0
  {
    if nodes != [] {
      PrintedIsItsLeaves(nodes[0]);
      PrintedAllIsLeaves(nodes[1..]);
      SpelledAppend(Leaves(nodes[0]), LeavesAll(nodes[1..]));
    }
  }

  lemma {:induction false} BlocksPrinted(blocks: seq<Node>)
    ensures forall k :: 0 <= k < |blocks| ==> PrintedBlocks(blocks)[k] == Spelled(Leaves(blocks[k]))
  {
    if blocks != [] {
      PrintedIsItsLeaves(blocks[0]);
      BlocksPrinted(blocks[1..]);
    }
  }

  function Blocks(doc: Node): seq<Node> {
    if doc.Branch? then doc.children else []
  }

  function PrintedBlocks(blocks: seq<Node>): (lines: seq<string>)
    ensures |lines| == |blocks|
  {
    if blocks == [] then [] else [Printed(blocks[0])] + PrintedBlocks(blocks[1..])
  }

  function Document(doc: Node): string { Join(PrintedBlocks(Blocks(doc))) }

  method Walk(node: Node, registry: Registry) returns (text: string)
    modifies registry
    ensures text == Printed(node)
    ensures registry.entries == Registered(old(registry.entries), node)
    decreases node
  {
    match node {
      case Citation(attrs) =>
        var chunkId := OrEmpty(attrs.chunkId);
        if attrs.citationId.Some? && attrs.citationId.value != "" {
          registry.Set(attrs.citationId.value, CitationData(attrs.citationId.value, chunkId, attrs.sourceFile,
                                                            attrs.page, attrs.snippetHash));
        }
        text := OPEN + chunkId + "]";
      case Text(t) =>
        text := t;
      case Branch(_, children) =>
        text := "";
        for k := 0 to |children|
          invariant PrintedAll(children) == text + PrintedAll(children[k..])
          invariant RegisteredAll(old(registry.entries), children) == RegisteredAll(registry.entries, children[k..])
        {
          assert children[k..][1..] == children[k + 1..];
          var part := Walk(children[k], registry);
          text := text + part;
        }
    }
  }

  method SerializeCitationsToMarkers(content: Node, registry: Registry) returns (text: string)
    modifies registry
    ensures text == Document(content)
    ensures registry.entries == RegisteredAll(old(registry.entries), Blocks(content))
  {
    if !content.Branch? {
      return "";
    }
    var blocks := content.children;
    var lines: seq<string> := [];
    for k := 0 to |blocks|
      invariant PrintedBlocks(blocks) == lines + PrintedBlocks(blocks[k..])
      invariant RegisteredAll(old(registry.entries), blocks) == RegisteredAll(registry.entries, blocks[k..])
    {
      assert blocks[k..][1..] == blocks[k + 1..];
      var line := Walk(blocks[k], registry);
      lines := lines + [line];
    }
    assert PrintedBlocks(blocks) == lines;
    return Join(lines);
  }

  // ---------------------------------------------------------------- finding markers

  /** A match of `\[SOURCE:([^\]]+)\]`: it starts at `start` and its bracket closes at `close`. */
  datatype Match = Match(start: nat, close: nat)

  predicate OpensAt(s: string, p: nat) {
    p + |OPEN| <= |s| && s[p..p + |OPEN|] == OPEN
  }

  /** The id runs to the first closing bracket and is not empty. */
  predicate IsMarker(s: string, m: Match) {
    && OpensAt(s, m.start)
    && m.start + |OPEN| < m.close < |s|
    && s[m.close] == ']'
    && ']' !in s[m.start + |OPEN|..m.close]
  }

  function MarkerId(s: string, m: Match): string
    requires m.start + |OPEN| < m.close < |s|
  {
    s[m.start + |OPEN|..m.close]
  }

  function NextBracket(s: string, from: nat): (r: Option<nat>)
    requires from <= |s|
    ensures r.Some? ==> from <= r.value < |s|
    decreases |s| - from
  {
    if from == |s| then None
    else if s[from] == ']' then Some(from)
    else NextBracket(s, from + 1)
  }

  lemma {:induction false} NextBracketIsFirst(s: string, from: nat, close: nat)
    requires from <= close < |s| && s[close] == ']' && ']' !in s[from..close]
    ensures NextBracket(s, from) == Some(close)
    decreases close - from
  {
    if from < close {
      assert s[from] == s[from..close][0];
      assert s[from..close] == [s[from]] + s[from + 1..close];
      NextBracketIsFirst(s, from + 1, close);
    }
  }

  lemma {:induction false} NextBracketCloses(s: string, from: nat)
    requires from <= |s| && NextBracket(s, from).Some?
    ensures s[NextBracket(s, from).value] == ']' && ']' !in s[from..NextBracket(s, from).value]
    decreases |s| - from
  {
    if s[from] != ']' {
      NextBracketCloses(s, from + 1);
      var close := NextBracket(s, from).value;
      assert s[from..close] == [s[from]] + s[from + 1..close];
    }
  }

  /** The leftmost match that starts at or after `from`, as `exec` finds it with that `lastIndex`. */
  function FindMarker(s: string, from: nat): (r: Option<Match>)
    requires from <= |s|
    ensures r.Some? ==> from <= r.value.start && r.value.start + |OPEN| < r.value.close < |s|
    decreases |s| - from
  {
    if from == |s| then None
    else if OpensAt(s, from) && NextBracket(s, from + |OPEN|).Some? &&
            NextBracket(s, from + |OPEN|).value > from + |OPEN|
    then Some(Match(from, NextBracket(s, from + |OPEN|).value))
    else FindMarker(s, from + 1)
  }

  lemma {:induction false} FoundIsMarker(s: string, from: nat)
    requires from <= |s| && FindMarker(s, from).Some?
    ensures IsMarker(s, FindMarker(s, from).value)
    decreases |s| - from
  {
    if FindMarker(s, from).value.start == from {
      NextBracketCloses(s, from + |OPEN|);
    } else {
      FoundIsMarker(s, from + 1);
    }
  }

  lemma {:induction false} NothingIsSkipped(s: string, from: nat, m: Match)
    requires from <= m.start && IsMarker(s, m)
    ensures FindMarker(s, from).Some? && FindMarker(s, from).value.start <= m.start
    decreases |s| - from
  {
    if from == m.start {
      NextBracketIsFirst(s, m.start + |OPEN|, m.close);
    } else {
      NothingIsSkipped(s, from + 1, m);
    }
  }

  /** A marker with none starting before it is the match that is found. */
  lemma LeftmostMarkerIsFound(s: string, from: nat, m: Match)
    requires from <= m.start && IsMarker(s, m)
    requires forall m': Match :: from <= m'.start < m.start ==> !IsMarker(s, m')
    ensures FindMarker(s, from) == Some(m)
  {
    NothingIsSkipped(s, from, m);
    FoundIsMarker(s, from);
    SameStartSameClose(s, m, FindMarker(s, from).value);
  }

  lemma SameStartSameClose(s: string, m: Match, m': Match)
    requires IsMarker(s, m) && IsMarker(s, m') && m.start == m'.start
    ensures m == m'
  {
    NoEarlierBracket(s, m);
    NoEarlierBracket(s, m');
  }

  lemma NoEarlierBracket(s: string, m: Match)
    requires IsMarker(s, m)
    ensures forall k :: m.start + |OPEN| <= k < m.close ==> s[k] != ']'
  {
    var id := m.start + |OPEN|;
    forall k | id <= k < m.close ensures s[k] != ']' {
      assert s[id..m.close][k - id] == s[k];
    }
  }

  // ---------------------------------------------------------------- parsing

  /** The citation node built for a marker: registered attributes, or the bare chunk id. */
  function Restored(chunkId: string, entries: seq<Entry>): Attrs {
    match LastWith(entries, chunkId)
    case Some(data) => Attrs(Some(data.citationId), Some(chunkId), data.sourceFile, data.page, data.snippetHash)
    case None => Attrs(Some(chunkId), Some(chunkId), None, None, None)
  }

  function TextUnlessEmpty(s: string): seq<Node> {
    if s == "" then [] else [Text(s)]
  }

  /** The inline nodes of a line, from index `from` on. */
  function ParsedFrom(s: string, from: nat, entries: seq<Entry>): seq<Node>
    requires from <= |s|
    decreases |s| - from
  {
    match FindMarker(s, from)
    case Some(m) =>
      TextUnlessEmpty(s[from..m.start]) +
      ([Citation(Restored(MarkerId(s, m), entries))] + ParsedFrom(s, m.close + 1, entries))
    case None => TextUnlessEmpty(s[from..])
  }

  /** One paragraph per line that is not blank. */
  function ParsedLines(lines: seq<string>, entries: seq<Entry>): seq<Node> {
    if lines == [] then []
    else (if Blank(lines[0]) then [] else [Branch("paragraph", ParsedFrom(lines[0], 0, entries))]) +
         ParsedLines(lines[1..], entries)
  }

  function ParsedText(text: string, entries: seq<Entry>): Node {
    Branch("doc", ParsedLines(Split(text), entries))
  }

  /** The index answers every chunk id as the registry would. */
  ghost predicate Indexes(byChunkId: map<string, CitationData>, entries: seq<Entry>) {
    forall id :: LastWith(entries, id) == if id in byChunkId then Some(byChunkId[id]) else None
  }

  function RestoredFrom(chunkId: string, byChunkId: map<string, CitationData>): Attrs {
    if chunkId in byChunkId
    then var data := byChunkId[chunkId];
      Attrs(Some(data.citationId), Some(chunkId), data.sourceFile, data.page, data.snippetHash)
    else Attrs(Some(chunkId), Some(chunkId), None, None, None)
  }

  lemma IndexRestores(chunkId: string, byChunkId: map<string, CitationData>, entries: seq<Entry>)
    requires Indexes(byChunkId, entries)
    ensures RestoredFrom(chunkId, byChunkId) == Restored(chunkId, entries)
  {
    var found := LastWith(entries, chunkId);
  }

  /** The reverse index: for each chunk id the data stored last among the registry's entries. */
  method IndexByChunk(registry: Registry) returns (byChunkId: map<string, CitationData>)
    ensures Indexes(byChunkId, registry.entries)
  {
    byChunkId := map[];
    var entries := registry.entries;
    for k := 0 to |entries|
      invariant Indexes(byChunkId, entries[..k])
    {
      assert entries[..k + 1][..k] == entries[..k];
      byChunkId := byChunkId[entries[k].data.chunkId := entries[k].data];
    }
    assert entries[..|entries|] == entries;
  }

  lemma ParsedLinesStep(lines: seq<string>, k: nat, entries: seq<Entry>)
    requires k < |lines|
    ensures Blank(lines[k]) ==> ParsedLines(lines[k..], entries) == ParsedLines(lines[k + 1..], entries)
    ensures !Blank(lines[k]) ==>
      (ParsedLines(lines[k..], entries) ==
       [Branch("paragraph", ParsedFrom(lines[k], 0, entries))] + ParsedLines(lines[k + 1..], entries))
  {
    assert lines[k..][1..] == lines[k + 1..];
  }

  method DeserializeCitationMarkers(text: string, registry: Registry) returns (doc: Node)
    ensures doc == ParsedText(text, registry.entries)
  {
    var byChunkId := IndexByChunk(registry);
    ghost var entries := registry.entries;
    var lines := Split(text);
    var paragraphs: seq<Node> := [];
    for k := 0 to |lines|
      invariant ParsedLines(lines, entries) == paragraphs + ParsedLines(lines[k..], entries)
    {
      ParsedLinesStep(lines, k, entries);
      TrimBlank(lines[k]);
      if Trim(lines[k]) == "" { continue; }
      var inlineNodes := ParseLine(lines[k], byChunkId, entries);
      paragraphs := paragraphs + [Branch("paragraph", inlineNodes)];
    }
    assert ParsedLines(lines, entries) == paragraphs;
    return Branch("doc", paragraphs);
  }

  method ParseLine(line: string, byChunkId: map<string, CitationData>, ghost entries: seq<Entry>)
    returns (inlineNodes: seq<Node>)
    requires Indexes(byChunkId, entries)
    ensures inlineNodes == ParsedFrom(line, 0, entries)
  {
    hide FindMarker, Restored, Indexes, ParsedFrom, TextUnlessEmpty;
    inlineNodes := [];
    var lastIndex := 0;
    var m := FindMarker(line, lastIndex);
    ghost var all := ParsedFrom(line, 0, entries);
    while m.Some?
      invariant 0 <= lastIndex <= |line| && m == FindMarker(line, lastIndex)
      invariant all == inlineNodes + ParsedFrom(line, lastIndex, entries)
      decreases |line| - lastIndex
    {
      var start, close := m.value.start, m.value.close;
      ParseStep(line, lastIndex, inlineNodes, byChunkId, entries);
      var before := line[lastIndex..start];
      var chunkId := line[start + |OPEN|..close];
      inlineNodes := inlineNodes + TextUnlessEmpty(before) + [Citation(RestoredFrom(chunkId, byChunkId))];
      lastIndex := close + 1;
      m := FindMarker(line, lastIndex);
    }
    var remaining := line[lastIndex..];
    ParsedRest(line, lastIndex, entries);
    inlineNodes := inlineNodes + TextUnlessEmpty(remaining);
  }

  lemma ParsedMore(s: string, from: nat, entries: seq<Entry>)
    requires from <= |s| && FindMarker(s, from).Some?
    ensures var m := FindMarker(s, from).value;
      ParsedFrom(s, from, entries) == TextUnlessEmpty(s[from..m.start]) +
        ([Citation(Restored(MarkerId(s, m), entries))] + ParsedFrom(s, m.close + 1, entries))
  {
  }

  lemma NothingPrints()
    ensures PrintedAll([]) == ""
  {
  }

  lemma ParsedRest(s: string, from: nat, entries: seq<Entry>)
    requires from <= |s| && FindMarker(s, from).None?
    ensures ParsedFrom(s, from, entries) == TextUnlessEmpty(s[from..])
  {
  }

  /** One turn of the match loop: a text run if there is one, then a citation, then the rest. */
  lemma ParseStep(s: string, from: nat, nodes: seq<Node>, byChunkId: map<string, CitationData>, entries: seq<Entry>)
    requires from <= |s| && FindMarker(s, from).Some? && Indexes(byChunkId, entries)
    ensures var m := FindMarker(s, from).value;
      nodes + ParsedFrom(s, from, entries) ==
      nodes + TextUnlessEmpty(s[from..m.start]) +
      [Citation(RestoredFrom(s[m.start + |OPEN|..m.close], byChunkId))] + ParsedFrom(s, m.close + 1, entries)
  {
    IndexRestores(MarkerId(s, FindMarker(s, from).value), byChunkId, entries);
  }

  // ---------------------------------------------------------------- text -> document -> text

  lemma PrintedAllCons(node: Node, rest: seq<Node>)
    ensures PrintedAll([node] + rest) == Printed(node) + PrintedAll(rest)
  {
  }

  lemma PrintedUnlessEmpty(s: string, rest: seq<Node>)
    ensures PrintedAll(TextUnlessEmpty(s) + rest) == s + PrintedAll(rest)
  {
    if s == "" {
      assert TextUnlessEmpty(s) + rest == rest;
    } else {
      PrintedAllCons(Text(s), rest);
    }
  }

  lemma MarkerText(s: string, m: Match)
    requires IsMarker(s, m)
    ensures s[m.start..m.close + 1] == Marker(MarkerId(s, m))
  {
    assert s[m.start..m.start + |OPEN|] == OPEN;
  }

  /** Whatever markers a line holds, the nodes read from it print as that line. */
  lemma {:induction false} ParsedLinePrints(s: string, from: nat, entries: seq<Entry>)
    requires from <= |s|
    ensures PrintedAll(ParsedFrom(s, from, entries)) == s[from..]
    decreases |s| - from
  {
    hide FindMarker, IsMarker, MarkerId, PrintedAll, ParsedFrom, TextUnlessEmpty;
    var found := FindMarker(s, from);
    if found.None? {
      ParsedRest(s, from, entries);
      NothingPrints();
      PrintedUnlessEmpty(s[from..], []);
      assert TextUnlessEmpty(s[from..]) + [] == TextUnlessEmpty(s[from..]);
    } else {
      var m := found.value;
      FoundIsMarker(s, from);
      MarkerText(s, m);
      ParsedMore(s, from, entries);
      ParsedLinePrints(s, m.close + 1, entries);
      var citation, rest := Citation(Restored(MarkerId(s, m), entries)), ParsedFrom(s, m.close + 1, entries);
      PrintedUnlessEmpty(s[from..m.start], [citation] + rest);
      PrintedAllCons(citation, rest);
      ThreeSlices(s, from, m.start, m.close + 1);
    }
  }

  lemma ThreeSlices(s: string, a: nat, b: nat, c: nat)
    requires a <= b <= c <= |s|
    ensures s[a..] == s[a..b] + (s[b..c] + s[c..])
  {
  }

  function NonBlank(lines: seq<string>): seq<string> {
    if lines == [] then []
    else (if Blank(lines[0]) then [] else [lines[0]]) + NonBlank(lines[1..])
  }

  lemma PrintedBlocksCons(block: Node, rest: seq<Node>)
    ensures PrintedBlocks([block] + rest) == [Printed(block)] + PrintedBlocks(rest)
  {
  }

  lemma {:induction false} ParsedLinesPrint(lines: seq<string>, entries: seq<Entry>)
    ensures PrintedBlocks(ParsedLines(lines, entries)) == NonBlank(lines)
  {
    if lines != [] {
      ParsedLinesPrint(lines[1..], entries);
      if !Blank(lines[0]) {
        var paragraph := Branch("paragraph", ParsedFrom(lines[0], 0, entries));
        ParsedLinePrints(lines[0], 0, entries);
        PrintedBlocksCons(paragraph, ParsedLines(lines[1..], entries));
      } else {
        assert ParsedLines(lines, entries) == ParsedLines(lines[1..], entries);
      }
    }
  }

  /** Printing what was read from a text gives back its non-blank lines, for every text - however its
      markers overlap or break off - and every registry. */
  lemma TextRoundTrip(text: string, entries: seq<Entry>)
    ensures Document(ParsedText(text, entries)) == Join(NonBlank(Split(text)))
  {
    ParsedLinesPrint(Split(text), entries);
  }

  // ---------------------------------------------------------------- document -> text -> document

  /** No marker can start in this text: whatever opens one is followed by a bracket at once or, in the last
      text of a line, by none. */
  ghost predicate Quiet(text: string, last: bool) {
    forall p: nat :: p <= |text| && OpensAt(text, p) ==>
      (p + |OPEN| < |text| && text[p + |OPEN|] == ']') || (last && ']' !in text[p + |OPEN|..])
  }

  /** Inline content that the text format carries; `last` says whether it ends its line. */
  ghost predicate CanonicalInline(node: Node, last: bool) {
    match node
    case Text(text) => text != "" && OneLine(text) && Quiet(text, last)
    case Citation(attrs) => attrs.chunkId.Some? && attrs.chunkId.value != "" &&
                            OneLine(attrs.chunkId.value) && ']' !in attrs.chunkId.value
    case Branch(_, _) => false
  }

  /** No two text runs are adjacent. */
  ghost predicate CanonicalRun(nodes: seq<Node>) {
    nodes != [] ==>
      && CanonicalInline(nodes[0], |nodes| == 1)
      && (|nodes| > 1 ==> !(nodes[0].Text? && nodes[1].Text?))
      && CanonicalRun(nodes[1..])
  }

  ghost predicate CanonicalBlock(block: Node) {
    block.Branch? && block.kind == "paragraph" && CanonicalRun(block.children) && !Blank(PrintedAll(block.children))
  }

  ghost predicate CanonicalDoc(doc: Node) {
    doc.Branch? && doc.kind == "doc" && forall k :: 0 <= k < |doc.children| ==> CanonicalBlock(doc.children[k])
  }

  /** The same document with every citation's attributes read back from the registry. */
  function Refreshed(node: Node, entries: seq<Entry>): Node
    decreases node, 1
  {
    match node
    case Citation(attrs) => Citation(Restored(OrEmpty(attrs.chunkId), entries))
    case Text(_) => node
    case Branch(kind, children) => Branch(kind, RefreshedAll(children, entries))
  }

  function RefreshedAll(nodes: seq<Node>, entries: seq<Entry>): (r: seq<Node>)
    ensures |r| == |nodes|
    decreases nodes, 0
  {
    if nodes == [] then [] else [Refreshed(nodes[0], entries)] + RefreshedAll(nodes[1..], entries)
  }

  /** A marker opening inside a text run cannot be completed by what follows the run. */
  lemma NoMarkerInText(pre: string, text: string, post: string, m: Match)
    requires Quiet(text, post == "") && (post == "" || OPEN <= post)
    requires |pre| <= m.start < |pre| + |text|
    ensures !IsMarker(pre + text + post, m)
  {
    if IsMarker(pre + text + post, m) { MarkerInText(pre, text, post, m); }
  }

  lemma MarkerInText(pre: string, text: string, post: string, m: Match)
    requires IsMarker(pre + text + post, m) && (post == "" || OPEN <= post)
    requires |pre| <= m.start < |pre| + |text|
    ensures !Quiet(text, post == "")
  {
    hide OpensAt;
    var s, p: nat := pre + text + post, m.start - |pre|;
    OneBracketOpens(s, m.start);
    BracketFollows(pre, text, post);
    OpensInside(pre, text, post, m.start);
    NoEarlierBracket(s, m);
    assert OpensAt(text, p) && s[m.start + |OPEN|] != ']';
    assert forall k :: 0 <= k < |text| ==> s[|pre| + k] == text[k];
    if post == "" { InText(pre, text, post, m.close, p); }
  }

  /** A closing bracket behind which no text can follow is in the text. */
  lemma InText(pre: string, text: string, post: string, close: nat, p: nat)
    requires post == "" && |pre| + p + |OPEN| <= close < |pre + text + post| && (pre + text + post)[close] == ']'
    ensures p + |OPEN| <= |text| && ']' in text[p + |OPEN|..]
  {
    assert text[p + |OPEN|..][close - |pre| - p - |OPEN|] == ']';
  }

  lemma OneBracketOpens(s: string, p: nat)
    requires OpensAt(s, p)
    ensures p + |OPEN| <= |s| && forall k :: p < k < p + |OPEN| ==> s[k] != '['
  {
    forall k | p < k < p + |OPEN| ensures s[k] != '[' {
      assert s[k] == s[p..p + |OPEN|][k - p] == OPEN[k - p];
    }
  }

  lemma BracketFollows(pre: string, text: string, post: string)
    requires post == "" || OPEN <= post
    ensures |pre + text + post| == |pre| + |text| || (pre + text + post)[|pre| + |text|] == '['
  {
    if post != "" {
      assert (pre + text + post)[|pre| + |text|] == post[0] == OPEN[0];
    }
  }

  lemma OpensInside(pre: string, text: string, post: string, p: nat)
    requires OpensAt(pre + text + post, p) && |pre| <= p && p + |OPEN| <= |pre| + |text|
    ensures OpensAt(text, p - |pre|)
  {
    var s, q := pre + text + post, p - |pre|;
    assert text[q..q + |OPEN|] == s[p..p + |OPEN|];
  }

  lemma ParsedAtMarker(s: string, from: nat, m: Match, entries: seq<Entry>)
    requires from <= m.start && IsMarker(s, m)
    requires forall m': Match :: from <= m'.start < m.start ==> !IsMarker(s, m')
    ensures ParsedFrom(s, from, entries) == TextUnlessEmpty(s[from..m.start]) +
              ([Citation(Restored(MarkerId(s, m), entries))] + ParsedFrom(s, m.close + 1, entries))
    ensures ParsedFrom(s, m.start, entries) ==
              [Citation(Restored(MarkerId(s, m), entries))] + ParsedFrom(s, m.close + 1, entries)
  {
    hide FindMarker, IsMarker;
    LeftmostMarkerIsFound(s, from, m);
    LeftmostMarkerIsFound(s, m.start, m);
    assert s[m.start..m.start] == "";
  }

  /** Markers are read one at a time, from wherever the line has been read to. */
  lemma CitationIsRead(pre: string, id: string, post: string, entries: seq<Entry>)
    requires id != "" && ']' !in id
    ensures var s, from := pre + Marker(id) + post, |pre|;
      ParsedFrom(s, from, entries) ==
      [Citation(Restored(id, entries))] + ParsedFrom(s, from + |Marker(id)|, entries)
  {
    hide FindMarker, ParsedFrom, OpensAt;
    var s, m := pre + Marker(id) + post, Match(|pre|, |pre| + |OPEN| + |id|);
    MarkerInPlace(pre, id, post);
    ParsedAtMarker(s, |pre|, m, entries);
  }

  lemma MarkerInPlace(pre: string, id: string, post: string)
    requires id != "" && ']' !in id
    ensures var s, m := pre + Marker(id) + post, Match(|pre|, |pre| + |OPEN| + |id|);
      IsMarker(s, m) && MarkerId(s, m) == id
  {
    var s, m := pre + Marker(id) + post, Match(|pre|, |pre| + |OPEN| + |id|);
    assert s[m.start..m.start + |OPEN|] == OPEN;
    assert s[m.start + |OPEN|..m.close] == id;
  }

  lemma LastTextIsRead(pre: string, text: string, entries: seq<Entry>)
    requires text != "" && Quiet(text, true)
    ensures ParsedFrom(pre + text, |pre|, entries) == [Text(text)]
  {
    var s := pre + text;
    if FindMarker(s, |pre|).Some? {
      FoundIsMarker(s, |pre|);
      assert pre + text + "" == s;
      NoMarkerInText(pre, text, "", FindMarker(s, |pre|).value);
      assert false;
    }
  }

  lemma TextBeforeCitationIsRead(pre: string, text: string, id: string, post: string, entries: seq<Entry>)
    requires text != "" && Quiet(text, false) && id != "" && ']' !in id
    ensures var s := pre + text + (Marker(id) + post);
      ParsedFrom(s, |pre|, entries) == [Text(text)] + ParsedFrom(s, |pre + text|, entries)
  {
    var s, at := pre + text + (Marker(id) + post), |pre + text|;
    var m := Match(at, at + |OPEN| + |id|);
    assert s == (pre + text) + Marker(id) + post;
    MarkerInPlace(pre + text, id, post);
    forall m': Match | |pre| <= m'.start < m.start ensures !IsMarker(s, m') {
      assert OPEN <= Marker(id) + post;
      NoMarkerInText(pre, text, Marker(id) + post, m');
    }
    ParsedAtMarker(s, |pre|, m, entries);
    assert s[|pre|..at] == text;
  }

  lemma PrintedTail(nodes: seq<Node>)
    requires nodes != [] && nodes[0].Citation?
    ensures PrintedAll(nodes) == Marker(OrEmpty(nodes[0].attrs.chunkId)) + PrintedAll(nodes[1..])
  {
  }

  lemma TextIsRead(pre: string, text: string, rest: seq<Node>, entries: seq<Entry>)
    requires text != "" && Quiet(text, rest == []) && CanonicalRun(rest) && (rest != [] ==> rest[0].Citation?)
    ensures var s := pre + text + PrintedAll(rest);
      ParsedFrom(s, |pre|, entries) == [Text(text)] + ParsedFrom(s, |pre + text|, entries)
  {
    if rest == [] {
      LastTextIsRead(pre, text, entries);
      assert pre + text + PrintedAll(rest) == pre + text;
      EndIsRead(pre + text, entries);
    } else {
      PrintedTail(rest);
      TextBeforeCitationIsRead(pre, text, rest[0].attrs.chunkId.value, PrintedAll(rest[1..]), entries);
    }
  }

  lemma FirstIsRead(pre: string, first: Node, rest: seq<Node>, entries: seq<Entry>)
    requires CanonicalRun([first] + rest)
    ensures var here, s := Printed(first), pre + Printed(first) + PrintedAll(rest);
      ParsedFrom(s, |pre|, entries) == [Refreshed(first, entries)] + ParsedFrom(s, |pre + here|, entries)
  {
    hide ParsedFrom;
    var nodes := [first] + rest;
    assert nodes[1..] == rest && nodes[0] == first;
    match first
    case Citation(attrs) => CitationIsRead(pre, attrs.chunkId.value, PrintedAll(rest), entries);
    case Text(text) => TextIsRead(pre, text, rest, entries);
  }

  lemma EndIsRead(s: string, entries: seq<Entry>)
    ensures ParsedFrom(s, |s|, entries) == []
  {
  }

  /** A canonical run of nodes, printed at the end of a line, is read back node by node. */
  lemma {:induction false} RunIsRead(pre: string, nodes: seq<Node>, entries: seq<Entry>)
    requires CanonicalRun(nodes)
    ensures ParsedFrom(pre + PrintedAll(nodes), |pre|, entries) == RefreshedAll(nodes, entries)
    decreases |nodes|
  {
    hide ParsedFrom, Refreshed, Printed;
    if nodes == [] {
      assert pre + PrintedAll(nodes) == pre;
      EndIsRead(pre, entries);
    } else {
      var first, rest := nodes[0], nodes[1..];
      assert nodes == [first] + rest;
      FirstIsRead(pre, first, rest, entries);
      RunIsRead(pre + Printed(first), rest, entries);
      assert pre + PrintedAll(nodes) == pre + Printed(first) + PrintedAll(rest);
    }
  }

  lemma {:induction false} RunIsOneLine(nodes: seq<Node>)
    requires CanonicalRun(nodes)
    ensures OneLine(PrintedAll(nodes))
    decreases |nodes|
  {
    if nodes != [] {
      var rest := nodes[1..];
      RunIsOneLine(rest);
      assert OneLine(OPEN);
    }
  }

  ghost predicate CanonicalBlocks(blocks: seq<Node>) {
    forall k :: 0 <= k < |blocks| ==> CanonicalBlock(blocks[k])
  }

  lemma {:induction false} BlocksAreRead(blocks: seq<Node>, entries: seq<Entry>)
    requires CanonicalBlocks(blocks)
    ensures ParsedLines(PrintedBlocks(blocks), entries) == RefreshedAll(blocks, entries)
    ensures forall line :: line in PrintedBlocks(blocks) ==> OneLine(line)
  {
    if blocks != [] {
      assert CanonicalBlock(blocks[0]) && CanonicalBlocks(blocks[1..]);
      BlocksAreRead(blocks[1..], entries);
      var children := blocks[0].children;
      RunIsRead("", children, entries);
      RunIsOneLine(children);
      assert "" + PrintedAll(children) == PrintedAll(children);
      assert PrintedBlocks(blocks)[1..] == PrintedBlocks(blocks[1..]);
    }
  }

  // ---------------------------------------------------------------- what is read is canonical

  lemma {:induction false} BracketAhead(s: string, from: nat, close: nat)
    requires from <= close < |s| && s[close] == ']'
    ensures NextBracket(s, from).Some?
    decreases close - from
  {
    if s[from] != ']' { BracketAhead(s, from + 1, close); }
  }

  lemma {:induction false} NoBracketAhead(s: string, from: nat)
    requires from <= |s| && NextBracket(s, from).None?
    ensures ']' !in s[from..]
    decreases |s| - from
  {
    if from < |s| {
      assert s[from..] == [s[from]] + s[from + 1..];
      NoBracketAhead(s, from + 1);
    }
  }

  /** An opening that the search passed by is followed by a bracket at once, or by none. */
  lemma {:induction false} PassedBy(s: string, from: nat, q: nat)
    requires from <= q && OpensAt(s, q) && (FindMarker(s, from).Some? ==> q < FindMarker(s, from).value.start)
    ensures NextBracket(s, q + |OPEN|) in {None, Some(q + |OPEN|)}
    decreases q - from
  {
    if from < q { PassedBy(s, from + 1, q); }
  }

  /** Where the text before the next marker ends. */
  function TextEnd(s: string, from: nat): (end: nat)
    requires from <= |s|
    ensures from <= end <= |s|
  {
    match FindMarker(s, from)
    case Some(m) => m.start
    case None => |s|
  }

  lemma TextIsQuiet(s: string, from: nat)
    requires from <= |s|
    ensures Quiet(s[from..TextEnd(s, from)], FindMarker(s, from).None?)
  {
    hide FindMarker, NextBracket, OpensAt;
    var end := TextEnd(s, from);
    var text := s[from..end];
    forall p: nat | p <= |text| && OpensAt(text, p)
      ensures (p + |OPEN| < |text| && text[p + |OPEN|] == ']') ||
              (FindMarker(s, from).None? && p + |OPEN| <= |text| && ']' !in text[p + |OPEN|..])
    {
      OpensIn(s, from, end, p);
      PassedBy(s, from, from + p);
      AfterOpening(s, from, from + p);
    }
    OpensFit(text);
  }

  lemma OpensFit(text: string)
    ensures forall p: nat :: OpensAt(text, p) ==> p + |OPEN| <= |text|
  {
  }

  lemma OpensIn(s: string, from: nat, end: nat, p: nat)
    requires from <= end <= |s| && OpensAt(s[from..end], p)
    ensures OpensAt(s, from + p) && from + p + |OPEN| <= end
  {
    var text, n := s[from..end], |OPEN|;
    assert n <= |text| - p && forall j :: 0 <= j < |text| ==> text[j] == s[from + j];
    assert text[p..p + n] == s[from + p..from + p + n];
  }

  lemma AfterOpening(s: string, from: nat, q: nat)
    requires from <= q && OpensAt(s, q) && q + |OPEN| <= TextEnd(s, from)
    requires NextBracket(s, q + |OPEN|) in {None, Some(q + |OPEN|)}
    ensures var id, end := q + |OPEN|, TextEnd(s, from);
      (id < end && s[id] == ']') || (FindMarker(s, from).None? && ']' !in s[id..end])
  {
    hide FindMarker;
    var id := q + |OPEN|;
    if NextBracket(s, id).Some? { NextBracketCloses(s, id); } else { NoBracketAhead(s, id); }
    if FindMarker(s, from).Some? {
      FoundIsMarker(s, from);
      var m := FindMarker(s, from).value;
      assert s[m.start] == s[m.start..m.start + |OPEN|][0] == '[';
      BracketAhead(s, id, m.close);
    } else {
      assert s[id..|s|] == s[id..];
    }
  }

  lemma CitationFirst(attrs: Attrs, rest: seq<Node>)
    requires CanonicalRun(rest) && attrs.chunkId.Some? && attrs.chunkId.value != ""
    requires OneLine(attrs.chunkId.value) && ']' !in attrs.chunkId.value
    ensures CanonicalRun([Citation(attrs)] + rest)
  {
    assert ([Citation(attrs)] + rest)[1..] == rest;
  }

  lemma TextFirst(text: string, rest: seq<Node>)
    requires CanonicalRun(rest) && OneLine(text) && Quiet(text, rest == []) && (rest != [] ==> rest[0].Citation?)
    ensures CanonicalRun(TextUnlessEmpty(text) + rest)
  {
    if text == "" {
      assert TextUnlessEmpty(text) + rest == rest;
    } else {
      assert ([Text(text)] + rest)[1..] == rest;
    }
  }

  /** Whatever the line, the nodes read from it form a canonical run. */
  lemma {:induction false} ParsedIsRun(s: string, from: nat, entries: seq<Entry>)
    requires from <= |s| && OneLine(s)
    ensures CanonicalRun(ParsedFrom(s, from, entries))
    decreases |s| - from
  {
    hide FindMarker, Quiet, CanonicalRun, TextUnlessEmpty, LastWith;
    TextIsQuiet(s, from);
    var text := s[from..TextEnd(s, from)];
    if FindMarker(s, from).Some? {
      var m := FindMarker(s, from).value;
      FoundIsMarker(s, from);
      ParsedIsRun(s, m.close + 1, entries);
      var attrs, rest := Restored(MarkerId(s, m), entries), ParsedFrom(s, m.close + 1, entries);
      CitationFirst(attrs, rest);
      TextFirst(text, [Citation(attrs)] + rest);
    } else {
      assert s[from..|s|] == s[from..];
      assert CanonicalRun([]) by { NothingIsCanonical(); }
      TextFirst(text, []);
      assert TextUnlessEmpty(text) + [] == TextUnlessEmpty(text);
    }
  }

  lemma NothingIsCanonical()
    ensures CanonicalRun([])
  {
  }

  lemma {:induction false} ParsedIsBlocks(lines: seq<string>, entries: seq<Entry>)
    requires forall line :: line in lines ==> OneLine(line)
    ensures CanonicalBlocks(ParsedLines(lines, entries))
  {
    hide ParsedFrom, CanonicalRun;
    if lines != [] {
      ParsedIsBlocks(lines[1..], entries);
      ParsedIsRun(lines[0], 0, entries);
      ParsedLinePrints(lines[0], 0, entries);
    }
  }

  /** Whatever the text, what is read from it is canonical. */
  lemma ParsedIsCanonical(text: string, entries: seq<Entry>)
    ensures CanonicalDoc(ParsedText(text, entries))
  {
    hide CanonicalBlock;
    SplitIsLines(text);
    ParsedIsBlocks(Split(text), entries);
  }

  lemma {:induction false} RefreshedRun(nodes: seq<Node>, entries: seq<Entry>)
    ensures CanonicalRun(RefreshedAll(nodes, entries)) <==> CanonicalRun(nodes)
    ensures PrintedAll(RefreshedAll(nodes, entries)) == PrintedAll(nodes)
    decreases nodes
  {
    hide Quiet;
    if nodes != [] {
      RefreshedRun(nodes[1..], entries);
      if nodes[0].Branch? { RefreshedRun(nodes[0].children, entries); }
      assert RefreshedAll(nodes, entries)[1..] == RefreshedAll(nodes[1..], entries);
    }
  }

  lemma RefreshedCanonical(doc: Node, entries: seq<Entry>)
    requires CanonicalDoc(Refreshed(doc, entries))
    ensures CanonicalDoc(doc)
  {
    hide CanonicalRun;
    var blocks := RefreshedAll(doc.children, entries);
    RefreshedEach(doc.children, entries);
    forall k | 0 <= k < |blocks| ensures CanonicalBlock(doc.children[k]) {
      assert CanonicalBlock(blocks[k]) && blocks[k] == Refreshed(doc.children[k], entries);
      RefreshedRun(doc.children[k].children, entries);
    }
  }

  lemma {:induction false} RefreshedEach(nodes: seq<Node>, entries: seq<Entry>)
    ensures forall k :: 0 <= k < |nodes| ==> RefreshedAll(nodes, entries)[k] == Refreshed(nodes[k], entries)
  {
    if nodes != [] { RefreshedEach(nodes[1..], entries); }
  }

  /** Reading a printed document gives the same document, with each citation's attributes looked up in the
      registry used for reading, exactly when the document is canonical. */
  lemma DocumentIsReadBack(doc: Node, entries: seq<Entry>)
    ensures ParsedText(Document(doc), entries) == Refreshed(doc, entries) <==> CanonicalDoc(doc)
  {
    hide ParsedText, Document, CanonicalDoc, Refreshed;
    ParsedIsCanonical(Document(doc), entries);
    if CanonicalDoc(doc) { CanonicalIsReadBack(doc, entries); }
    if CanonicalDoc(Refreshed(doc, entries)) { RefreshedCanonical(doc, entries); }
  }

  lemma CanonicalIsReadBack(doc: Node, entries: seq<Entry>)
    requires CanonicalDoc(doc)
    ensures ParsedText(Document(doc), entries) == Refreshed(doc, entries)
  {
    BlocksAreRead(doc.children, entries);
    if doc.children == [] {
      assert Split(Document(doc)) == [""];
      assert ParsedLines([""], entries) == [] + ParsedLines([], entries);
    } else {
      SplitJoin(PrintedBlocks(doc.children));
    }
  }

  // ---------------------------------------------------------------- attributes

  /** The citations of a tree, in the order the walk meets them. */
  function Cites(node: Node): seq<Attrs>
    decreases node, 1
  {
    match node
    case Citation(attrs) => [attrs]
    case Text(_) => []
    case Branch(_, children) => CitesAll(children)
  }

  function CitesAll(nodes: seq<Node>): seq<Attrs>
    decreases nodes, 0
  {
    if nodes == [] then [] else Cites(nodes[0]) + CitesAll(nodes[1..])
  }

  function AttrsOf(leaves: seq<Node>): seq<Attrs> {
    if leaves == [] then []
    else AttrsOf(leaves[..|leaves| - 1]) +
         if leaves[|leaves| - 1].Citation? then [leaves[|leaves| - 1].attrs] else []
  }

  lemma {:induction false} AttrsOfAppend(a: seq<Node>, b: seq<Node>)
    ensures AttrsOf(a + b) == AttrsOf(a) + AttrsOf(b)
    decreases |b|
  {
    if b == [] {
      assert a + b == a;
    } else {
      assert (a + b)[..|a + b| - 1] == a + b[..|b| - 1];
      AttrsOfAppend(a, b[..|b| - 1]);
    }
  }

  /** The citations stored are those among the leaves, in document order. */
  lemma {:induction false} CitesAreLeaves(node: Node)
    ensures Cites(node) == AttrsOf(Leaves(node))
    decreases node, 1
  {
    if node.Branch? {
      CitesAllAreLeaves(node.children);
    } else {
      assert [node][..0] == [];
    }
  }

  lemma {:induction false} CitesAllAreLeaves(nodes: seq<Node>)
    ensures CitesAll(nodes) == AttrsOf(LeavesAll(nodes))
    decreases nodes, 0
  {
    if nodes != [] {
      CitesAreLeaves(nodes[0]);
      CitesAllAreLeaves(nodes[1..]);
      AttrsOfAppend(Leaves(nodes[0]), LeavesAll(nodes[1..]));
    }
  }

  predicate Kept(attrs: Attrs, entries: seq<Entry>) {
    Restored(OrEmpty(attrs.chunkId), entries) == attrs
  }

  lemma {:induction false} RefreshedIsSame(node: Node, entries: seq<Entry>)
    ensures Refreshed(node, entries) == node <==> forall c :: c in Cites(node) ==> Kept(c, entries)
    decreases node, 1
  {
    if node.Branch? {
      RefreshedAllIsSame(node.children, entries);
    } else if node.Citation? {
      assert node.attrs in Cites(node);
    }
  }

  lemma {:induction false} RefreshedAllIsSame(nodes: seq<Node>, entries: seq<Entry>)
    ensures RefreshedAll(nodes, entries) == nodes <==> forall c :: c in CitesAll(nodes) ==> Kept(c, entries)
    decreases nodes, 0
  {
    if nodes != [] {
      RefreshedIsSame(nodes[0], entries);
      RefreshedAllIsSame(nodes[1..], entries);
      assert RefreshedAll(nodes, entries) == nodes <==>
        Refreshed(nodes[0], entries) == nodes[0] && RefreshedAll(nodes[1..], entries) == nodes[1..];
    }
  }

  /** The registry as serialization leaves it. */
  function After(entries: seq<Entry>, doc: Node): seq<Entry> { RegisteredAll(entries, Blocks(doc)) }

  /** The document survives exactly when the updated registry still holds, under each citation's chunk id,
      that citation's own attributes. */
  lemma RestoredCitationByCitation(doc: Node, entries: seq<Entry>)
    requires CanonicalDoc(doc)
    ensures ParsedText(Document(doc), After(entries, doc)) == doc <==>
            forall c :: c in Cites(doc) ==> Kept(c, After(entries, doc))
  {
    DocumentIsReadBack(doc, After(entries, doc));
    RefreshedIsSame(doc, After(entries, doc));
  }

  // ---------------------------------------------------------------- the registry after printing

  /** The map's keys are distinct. */
  predicate DistinctKeys(entries: seq<Entry>) {
    forall i, j :: 0 <= i < j < |entries| ==> entries[i].key != entries[j].key
  }

  /** The last of the citations with this id; citations without an id are not stored. */
  function LastUnder(cites: seq<Attrs>, key: string): Option<Attrs> {
    if cites == [] || key == "" then None
    else if OrEmpty(cites[|cites| - 1].citationId) == key then Some(cites[|cites| - 1])
    else LastUnder(cites[..|cites| - 1], key)
  }

  function EntryOf(c: Attrs): Entry { Entry(OrEmpty(c.citationId), DataOf(c)) }

  function RegisterCites(entries: seq<Entry>, cites: seq<Attrs>): seq<Entry>
    decreases |cites|
  {
    if cites == [] then entries
    else RegisterCites(if OrEmpty(cites[0].citationId) == "" then entries
                       else Assign(entries, EntryOf(cites[0]).key, DataOf(cites[0])), cites[1..])
  }

  lemma {:induction false} RegisterCitesAppend(entries: seq<Entry>, a: seq<Attrs>, b: seq<Attrs>)
    ensures RegisterCites(entries, a + b) == RegisterCites(RegisterCites(entries, a), b)
    decreases |a|
  {
    if a == [] {
      assert a + b == b;
    } else {
      assert (a + b)[1..] == a[1..] + b;
      var next := if OrEmpty(a[0].citationId) == "" then entries else Assign(entries, EntryOf(a[0]).key, DataOf(a[0]));
      RegisterCitesAppend(next, a[1..], b);
    }
  }

  lemma {:induction false} RegisteredIsCites(entries: seq<Entry>, node: Node)
    ensures Registered(entries, node) == RegisterCites(entries, Cites(node))
    decreases node, 1
  {
    if node.Branch? {
      RegisteredAllIsCites(entries, node.children);
    }
  }

  lemma {:induction false} RegisteredAllIsCites(entries: seq<Entry>, nodes: seq<Node>)
    ensures RegisteredAll(entries, nodes) == RegisterCites(entries, CitesAll(nodes))
    decreases nodes, 0
  {
    if nodes != [] {
      RegisteredIsCites(entries, nodes[0]);
      RegisteredAllIsCites(Registered(entries, nodes[0]), nodes[1..]);
      RegisterCitesAppend(entries, Cites(nodes[0]), CitesAll(nodes[1..]));
    }
  }

  /** What the registry holds after the citations have been stored in order: the old keys in their places,
      then new ones, each with the last citation stored under it, or what it held before. */
  ghost predicate HoldsAfter(after: seq<Entry>, entries: seq<Entry>, cites: seq<Attrs>) {
    && |entries| <= |after| && DistinctKeys(after)
    && (forall i :: 0 <= i < |entries| ==> after[i].key == entries[i].key)
    && (forall i :: 0 <= i < |after| ==>
          if LastUnder(cites, after[i].key).Some? then after[i].data == DataOf(LastUnder(cites, after[i].key).value)
          else i < |entries| && after[i] == entries[i])
    && (forall key :: LastUnder(cites, key).Some? ==> HasKey(after, key))
  }

  predicate HasKey(entries: seq<Entry>, key: string) {
    exists i :: 0 <= i < |entries| && entries[i].key == key
  }

  lemma {:induction false} AssignAt(entries: seq<Entry>, key: string, data: CitationData, k: nat)
    requires k < |entries| && entries[k].key == key && forall i :: 0 <= i < k ==> entries[i].key != key
    ensures Assign(entries, key, data) == entries[k := Entry(key, data)]
    decreases k
  {
    if k > 0 {
      assert forall i :: 0 <= i < k ==> entries[1..][i] == entries[i + 1];
      AssignAt(entries[1..], key, data, k - 1);
      assert entries == [entries[0]] + entries[1..];
    }
  }

  lemma {:induction false} AssignNew(entries: seq<Entry>, key: string, data: CitationData)
    requires !HasKey(entries, key)
    ensures Assign(entries, key, data) == entries + [Entry(key, data)]
  {
    if entries != [] {
      assert entries[0].key != key;
      assert forall i :: 0 <= i < |entries| - 1 ==> entries[1..][i] == entries[i + 1];
      AssignNew(entries[1..], key, data);
    }
  }

  lemma AssignPlaces(entries: seq<Entry>, key: string, data: CitationData)
    requires DistinctKeys(entries)
    ensures var after := Assign(entries, key, data);
      && DistinctKeys(after) && HasKey(after, key) && |entries| <= |after| <= |entries| + 1
      && (forall i :: 0 <= i < |entries| ==> after[i] == if entries[i].key == key then Entry(key, data) else entries[i])
      && (|after| > |entries| ==> after[|entries|] == Entry(key, data))
  {
    hide Assign;
    var after := Assign(entries, key, data);
    if HasKey(entries, key) {
      var k :| 0 <= k < |entries| && entries[k].key == key;
      AssignAt(entries, key, data, k);
      assert after[k].key == key;
    } else {
      AssignNew(entries, key, data);
      assert after[|entries|].key == key;
    }
  }

  lemma RegisterOneMore(entries: seq<Entry>, front: seq<Attrs>, last: Attrs)
    ensures RegisterCites(entries, []) == entries
    ensures RegisterCites(entries, front + [last]) ==
            if OrEmpty(last.citationId) == "" then RegisterCites(entries, front)
            else Assign(RegisterCites(entries, front), EntryOf(last).key, DataOf(last))
  {
    RegisterCitesAppend(entries, front, [last]);
  }

  lemma LastUnderMore(front: seq<Attrs>, last: Attrs, key: string)
    ensures LastUnder(front + [last], key) ==
            if key != "" && OrEmpty(last.citationId) == key then Some(last) else LastUnder(front, key)
  {
    assert (front + [last])[..|front|] == front;
  }

  lemma HoldsOneMore(mid: seq<Entry>, entries: seq<Entry>, front: seq<Attrs>, last: Attrs)
    requires HoldsAfter(mid, entries, front)
    ensures HoldsAfter(if OrEmpty(last.citationId) == "" then mid else Assign(mid, EntryOf(last).key, DataOf(last)),
                       entries, front + [last])
  {
    hide Assign, LastUnder;
    forall key ensures LastUnder(front + [last], key) ==
        if key != "" && OrEmpty(last.citationId) == key then Some(last) else LastUnder(front, key)
    {
      LastUnderMore(front, last, key);
    }
    if OrEmpty(last.citationId) != "" {
      var key := EntryOf(last).key;
      var after := Assign(mid, key, DataOf(last));
      AssignPlaces(mid, key, DataOf(last));
      forall k | HasKey(mid, k) ensures HasKey(after, k) {
        var i :| 0 <= i < |mid| && mid[i].key == k;
        assert after[i].key == k;
      }
    }
  }

  /** Whatever the citations, the registry is described by its old entries and the list of citations. */
  lemma {:induction false} RegisteredContents(entries: seq<Entry>, cites: seq<Attrs>)
    requires DistinctKeys(entries)
    ensures HoldsAfter(RegisterCites(entries, cites), entries, cites)
    decreases |cites|
  {
    hide Assign, HoldsAfter;
    if cites == [] {
      NothingStored(entries);
    } else {
      var front, last := cites[..|cites| - 1], cites[|cites| - 1];
      assert cites == front + [last];
      RegisteredContents(entries, front);
      RegisterOneMore(entries, front, last);
      HoldsOneMore(RegisterCites(entries, front), entries, front, last);
    }
  }

  lemma NothingStored(entries: seq<Entry>)
    requires DistinctKeys(entries)
    ensures HoldsAfter(RegisterCites(entries, []), entries, [])
  {
  }

  // ---------------------------------------------------------------- when a document is restored

  /** The citation is the last under its own id, so that its attributes are in the registry. */
  predicate Owns(c: Attrs, cites: seq<Attrs>) {
    LastUnder(cites, OrEmpty(c.citationId)) == Some(c)
  }

  /** The citation carries nothing but its chunk id, which is also its citation id. */
  predicate Bare(c: Attrs) {
    c.citationId == c.chunkId && c.sourceFile == None && c.page == None && c.snippetHash == None
  }

  /** The last old entry for the chunk that no citation overwrites. */
  predicate LastFree(entries: seq<Entry>, cites: seq<Attrs>, chunkId: string, i: nat) {
    && i < |entries| && entries[i].data.chunkId == chunkId && LastUnder(cites, entries[i].key).None?
    && forall j :: i < j < |entries| && entries[j].data.chunkId == chunkId ==> LastUnder(cites, entries[j].key).Some?
  }

  /** Entry `i` does not come after the place of the citation's key; a new key comes after all. */
  predicate NotBehind(entries: seq<Entry>, c: Attrs, i: nat) {
    forall p :: 0 <= p < |entries| && p < i ==> entries[p].key != OrEmpty(c.citationId)
  }

  /** Reading finds the citation's own attributes: its own entry, unless a different old one for the chunk
      comes later; without an entry of its own, an old one that agrees, or none if it is bare. */
  ghost predicate Survives(c: Attrs, entries: seq<Entry>, cites: seq<Attrs>) {
    var id := OrEmpty(c.chunkId);
    if Owns(c, cites) then
      forall i: nat :: LastFree(entries, cites, id, i) ==> NotBehind(entries, c, i) || entries[i].data == DataOf(c)
    else if exists i: nat :: LastFree(entries, cites, id, i) then
      c.citationId.Some? && forall i: nat :: LastFree(entries, cites, id, i) ==> entries[i].data == DataOf(c)
    else Bare(c)
  }

  /** Equal chunk ids mean equal citations, and each citation survives the storing of the others. */
  ghost predicate Restorable(entries: seq<Entry>, cites: seq<Attrs>) {
    && (forall c, d :: c in cites && d in cites && c.chunkId == d.chunkId ==> c == d)
    && (forall c :: c in cites ==> Survives(c, entries, cites))
  }

  lemma {:induction false} LastWithIsLast(entries: seq<Entry>, chunkId: string) returns (i: int)
    ensures -1 <= i < |entries|
    ensures forall k :: i < k < |entries| ==> entries[k].data.chunkId != chunkId
    ensures i >= 0 ==> entries[i].data.chunkId == chunkId
    ensures LastWith(entries, chunkId) == if i < 0 then None else Some(entries[i].data)
  {
    if entries == [] {
      i := -1;
    } else if entries[|entries| - 1].data.chunkId == chunkId {
      i := |entries| - 1;
    } else {
      var front := entries[..|entries| - 1];
      i := LastWithIsLast(front, chunkId);
      assert forall k :: 0 <= k < |front| ==> front[k] == entries[k];
    }
  }

  lemma {:induction false} LastUnderIsCited(cites: seq<Attrs>, key: string)
    ensures var c := LastUnder(cites, key);
      c.Some? ==> c.value in cites && OrEmpty(c.value.citationId) == key && key != ""
    ensures key != "" && (exists d :: d in cites && OrEmpty(d.citationId) == key) ==> LastUnder(cites, key).Some?
  {
    if cites != [] {
      assert cites == cites[..|cites| - 1] + [cites[|cites| - 1]];
      LastUnderIsCited(cites[..|cites| - 1], key);
    }
  }

  /** Where the chunk ids agree, a citation is found in the updated registry exactly when it survives. */
  lemma KeptExactly(c: Attrs, after: seq<Entry>, entries: seq<Entry>, cites: seq<Attrs>)
    requires HoldsAfter(after, entries, cites) && c in cites && OrEmpty(c.chunkId) != ""
    requires forall d, e :: d in cites && e in cites && d.chunkId == e.chunkId ==> d == e
    ensures Kept(c, after) <==> Survives(c, entries, cites)
  {
    hide LastUnder;
    var id := OrEmpty(c.chunkId);
    var last := LastWithIsLast(after, id);
    if last < 0 {
      NobodyHolds(c, after, entries, cites);
    } else {
      LastUnderIsCited(cites, after[last].key);
      if LastUnder(cites, after[last].key).Some? {
        OwnEntryIsLast(c, after, entries, cites, last);
      } else {
        FreeEntryIsLast(c, after, entries, cites, last);
      }
    }
  }

  lemma NobodyHolds(c: Attrs, after: seq<Entry>, entries: seq<Entry>, cites: seq<Attrs>)
    requires HoldsAfter(after, entries, cites) && c in cites && OrEmpty(c.chunkId) != ""
    requires LastWith(after, OrEmpty(c.chunkId)) == None
    requires forall k :: 0 <= k < |after| ==> after[k].data.chunkId != OrEmpty(c.chunkId)
    ensures Kept(c, after) <==> Survives(c, entries, cites)
  {
    hide LastUnder, LastWith;
    var id := OrEmpty(c.chunkId);
    forall i: nat ensures !LastFree(entries, cites, id, i) {
      if i < |entries| && LastUnder(cites, entries[i].key).None? { assert after[i] == entries[i]; }
    }
    var key := OrEmpty(c.citationId);
    forall k | 0 <= k < |after| && LastUnder(cites, after[k].key).Some?
      ensures LastUnder(cites, after[k].key) != Some(c)
    {
      assert after[k].data == DataOf(LastUnder(cites, after[k].key).value);
    }
    assert !Owns(c, cites);
  }

  lemma OwnEntryIsLast(c: Attrs, after: seq<Entry>, entries: seq<Entry>, cites: seq<Attrs>, last: nat)
    requires HoldsAfter(after, entries, cites) && c in cites && OrEmpty(c.chunkId) != ""
    requires last < |after| && LastWith(after, OrEmpty(c.chunkId)) == Some(after[last].data)
    requires LastUnder(cites, after[last].key) == Some(c) && OrEmpty(c.citationId) == after[last].key != ""
    requires forall k :: last < k < |after| ==> after[k].data.chunkId != OrEmpty(c.chunkId)
    ensures Kept(c, after) && Survives(c, entries, cites)
  {
    hide LastUnder, LastWith;
    var id := OrEmpty(c.chunkId);
    forall i: nat | LastFree(entries, cites, id, i) ensures NotBehind(entries, c, i) {
      assert after[i] == entries[i];
      assert i < last;
      forall p | 0 <= p < |entries| && p < i ensures entries[p].key != OrEmpty(c.citationId) {
        assert after[p].key == entries[p].key && after[p].key != after[last].key;
      }
    }
  }

  lemma FreeEntryIsLast(c: Attrs, after: seq<Entry>, entries: seq<Entry>, cites: seq<Attrs>, last: nat)
    requires HoldsAfter(after, entries, cites) && c in cites && OrEmpty(c.chunkId) != ""
    requires last < |after| && LastWith(after, OrEmpty(c.chunkId)) == Some(after[last].data)
    requires after[last].data.chunkId == OrEmpty(c.chunkId) && LastUnder(cites, after[last].key).None?
    requires forall k :: last < k < |after| ==> after[k].data.chunkId != OrEmpty(c.chunkId)
    ensures Kept(c, after) <==> Survives(c, entries, cites)
  {
    hide LastUnder, LastWith;
    var id := OrEmpty(c.chunkId);
    assert last < |entries| && after[last] == entries[last];
    assert LastFree(entries, cites, id, last) by {
      forall j | last < j < |entries| && entries[j].data.chunkId == id ensures LastUnder(cites, entries[j].key).Some? {
        assert after[j].key == entries[j].key;
      }
    }
    OneLastFree(entries, cites, id, last);
    if Owns(c, cites) { OwnedIsAhead(c, after, entries, cites, last); }
    assert Kept(c, after) <==> c.citationId.Some? && entries[last].data == DataOf(c);
  }

  lemma OneLastFree(entries: seq<Entry>, cites: seq<Attrs>, chunkId: string, last: nat)
    requires LastFree(entries, cites, chunkId, last)
    ensures forall i: nat :: LastFree(entries, cites, chunkId, i) ==> i == last
  {
    hide LastUnder;
  }

  lemma OwnedIsAhead(c: Attrs, after: seq<Entry>, entries: seq<Entry>, cites: seq<Attrs>, last: nat)
    requires HoldsAfter(after, entries, cites) && Owns(c, cites) && last < |entries|
    requires LastUnder(cites, after[last].key).None?
    requires forall k :: last < k < |after| ==> after[k].data.chunkId != OrEmpty(c.chunkId)
    ensures !NotBehind(entries, c, last) && c.citationId.Some?
  {
    hide LastUnder;
    LastUnderIsCited(cites, OrEmpty(c.citationId));
    var p :| 0 <= p < |after| && after[p].key == OrEmpty(c.citationId);
    assert after[p].data == DataOf(c);
    assert p < last && entries[p].key == after[p].key;
  }

  lemma CanonicalRoundTrip(doc: Node, entries: seq<Entry>)
    requires CanonicalDoc(doc) && DistinctKeys(entries)
    ensures ParsedText(Document(doc), After(entries, doc)) == doc <==> Restorable(entries, Cites(doc))
  {
    hide ParsedText, Document, Survives, HoldsAfter, Kept, CanonicalDoc;
    var cites, after := Cites(doc), After(entries, doc);
    RestoredCitationByCitation(doc, entries);
    CanonicalIsBranch(doc);
    RegisteredAllIsCites(entries, doc.children);
    RegisteredContents(entries, cites);
    forall c | c in cites ensures OrEmpty(c.chunkId) != "" { CitesHaveIds(doc, c); }
    if forall c :: c in cites ==> Kept(c, after) {
      forall c, d | c in cites && d in cites && c.chunkId == d.chunkId ensures c == d {
        KeptIsRestored(c, after);
        KeptIsRestored(d, after);
      }
    }
    if forall c, d :: c in cites && d in cites && c.chunkId == d.chunkId ==> c == d {
      forall c | c in cites ensures Kept(c, after) <==> Survives(c, entries, cites) {
        KeptExactly(c, after, entries, cites);
      }
    }
  }

  lemma KeptIsRestored(c: Attrs, after: seq<Entry>)
    requires Kept(c, after)
    ensures c == Restored(OrEmpty(c.chunkId), after)
  {
  }

  lemma CanonicalIsBranch(doc: Node)
    requires CanonicalDoc(doc)
    ensures doc.Branch? && Blocks(doc) == doc.children
  {
  }

  lemma CitesHaveIds(doc: Node, c: Attrs)
    requires CanonicalDoc(doc) && c in Cites(doc)
    ensures c.chunkId.Some? && c.chunkId.value != ""
  {
    CitesOfBlocks(doc.children, c);
  }

  lemma {:induction false} CitesOfBlocks(blocks: seq<Node>, c: Attrs)
    requires CanonicalBlocks(blocks) && c in CitesAll(blocks)
    ensures c.chunkId.Some? && c.chunkId.value != ""
  {
    if c in Cites(blocks[0]) {
      CitesOfRun(blocks[0].children, c);
    } else {
      CitesOfBlocks(blocks[1..], c);
    }
  }

  lemma {:induction false} CitesOfRun(nodes: seq<Node>, c: Attrs)
    requires CanonicalRun(nodes) && c in CitesAll(nodes)
    ensures c.chunkId.Some? && c.chunkId.value != ""
  {
    if c !in Cites(nodes[0]) {
      CitesOfRun(nodes[1..], c);
    }
  }

  /** A document is restored exactly when it is canonical, equal chunk ids mean equal citations, and each
      citation survives: it is the last under its citation id and no different old entry for its chunk comes
      later, or an old entry that is not overwritten agrees with it, or it is bare and there is none. */
  lemma RoundTripExactly(doc: Node, entries: seq<Entry>)
    requires DistinctKeys(entries)
    ensures ParsedText(Document(doc), After(entries, doc)) == doc <==>
            CanonicalDoc(doc) && Restorable(entries, Cites(doc))
  {
    hide ParsedText, Document, CanonicalDoc, Restorable;
    ParsedIsCanonical(Document(doc), After(entries, doc));
    if CanonicalDoc(doc) { CanonicalRoundTrip(doc, entries); }
  }

  /** With an empty registry a document is restored exactly when it is canonical, equal chunk ids mean equal
      citations, and each citation is the last under its citation id or bare. */
  lemma FreshRoundTripExactly(doc: Node)
    ensures ParsedText(Document(doc), After([], doc)) == doc <==>
            CanonicalDoc(doc) &&
            (forall c, d :: c in Cites(doc) && d in Cites(doc) && c.chunkId == d.chunkId ==> c == d) &&
            (forall c :: c in Cites(doc) ==> Owns(c, Cites(doc)) || Bare(c))
  {
    hide ParsedText, Document, CanonicalDoc, Owns, Bare;
    RoundTripExactly(doc, []);
  }

  /** Each citation id stands for one citation and each chunk id for one. */
  predicate IdsDetermine(cites: seq<Attrs>) {
    && (forall c :: c in cites ==> OrEmpty(c.citationId) != "")
    && (forall c, d :: c in cites && d in cites && (c.citationId == d.citationId || c.chunkId == d.chunkId) ==> c == d)
  }

  /** A document whose citation ids and chunk ids determine the attributes is restored exactly when it is
      canonical and no old entry that it does not overwrite, for a chunk it cites, comes behind the citation's
      key and is the last of its kind and different. */
  lemma DocumentRoundTrip(doc: Node, entries: seq<Entry>)
    requires DistinctKeys(entries) && IdsDetermine(Cites(doc))
    ensures ParsedText(Document(doc), After(entries, doc)) == doc <==>
      CanonicalDoc(doc) &&
      forall c, i: nat :: c in Cites(doc) && LastFree(entries, Cites(doc), OrEmpty(c.chunkId), i) ==>
        NotBehind(entries, c, i) || entries[i].data == DataOf(c)
  {
    hide ParsedText, Document, CanonicalDoc, LastFree, NotBehind, LastUnder;
    RoundTripExactly(doc, entries);
    forall c | c in Cites(doc) ensures Owns(c, Cites(doc)) {
      LastUnderIsCited(Cites(doc), OrEmpty(c.citationId));
    }
  }

  /** Chunk ids that determine the attributes are not enough: two citations of different chunks under
      one citation id share a registry key, and the first one's attributes are lost. */
  lemma SharedCitationIdLosesAttributes() returns (doc: Node)
    ensures CanonicalDoc(doc)
    ensures forall c, d :: c in Cites(doc) && d in Cites(doc) && c.chunkId == d.chunkId ==> c == d
    ensures ParsedText(Document(doc), After([], doc)) != doc
  {
    var first := Attrs(Some("1"), Some("a"), None, None, None);
    var second := Attrs(Some("1"), Some("b"), None, None, None);
    var one, two := Citation(first), Citation(second);
    var block := Branch("paragraph", [one, two]);
    doc := Branch("doc", [block]);
    assert [one, two][1..] == [two] && [two][1..] == [] && [block][1..] == [];
    assert CitesAll([two]) == [second] + CitesAll([]);
    assert CitesAll([one, two]) == [first] + CitesAll([two]);
    assert CitesAll([block]) == Cites(block) + CitesAll([]);
    assert Cites(doc) == [first, second];
    assert CanonicalRun([two]) && CanonicalRun([one, two]);
    assert PrintedAll([one, two]) == Printed(one) + PrintedAll([two]);
    assert PrintedAll(block.children)[0] == '[';

    RegisteredAllIsCites([], [block]);
    assert [first, second][1..] == [second] && [second][1..] == [];
    var stored := Assign([], "1", DataOf(first));
    assert RegisterCites([], [first, second]) == RegisterCites(stored, [second]) == Assign(stored, "1", DataOf(second));
    var entries := After([], doc);
    assert entries == [Entry("1", DataOf(second))] && entries[..0] == [];
    assert "a"[0] != "b"[0] && "a"[0] != "1"[0];
    assert LastWith(entries, "a") == LastWith(entries[..0], "a") == None;
    assert Restored("a", entries).citationId == Some("a");
    assert first == Cites(doc)[0];
    assert !Kept(first, entries);
    RestoredCitationByCitation(doc, []);
  }
}
