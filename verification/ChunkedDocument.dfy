/**
  The chunk objects of a document (backend/ingestion/chunker.py): the chunks of its tables and texts,
  numbered through the document, and the larger parents recorded on them.
 */
module ChunkedDocument {
  import opened Wrappers
  import Words
  import Chunker

  /** The parts of an identifier; the document, page and number determine its text. */
  datatype ChunkId =
    | TableId(doc: string, page: int, index: nat)
    | TextId(doc: string, page: int, index: nat)
    | ParentId(doc: string, page: int, index: nat)

  datatype Meta = Flag(flag: bool) | Text(text: string) | Id(id: ChunkId) | Other(value: int)

  datatype Page = Page(number: int, text: string, tables: seq<string>, metadata: map<string, Meta>)

  /** What a chunk object holds. */
  datatype Row = Row(id: ChunkId, docId: string, pageNumber: int, chunkIndex: nat, text: string, tokenCount: nat,
                     isTable: bool, parentId: Option<ChunkId>, metadata: map<string, Meta>)

  class Chunk {
    const id: ChunkId
    const docId: string
    const pageNumber: int
    const chunkIndex: nat
    const text: string
    const tokenCount: nat
    const isTable: bool
    var parentId: Option<ChunkId>
    var metadata: map<string, Meta>

    constructor (id: ChunkId, docId: string, pageNumber: int, chunkIndex: nat, text: string, isTable: bool,
                 metadata: map<string, Meta>)
      ensures Contents() == Row(id, docId, pageNumber, chunkIndex, text, Chunker.EstimateTokens(text), isTable,
                                None, metadata)
    {
      this.id, this.docId, this.pageNumber, this.chunkIndex := id, docId, pageNumber, chunkIndex;
      this.text, this.tokenCount, this.isTable := text, Chunker.EstimateTokens(text), isTable;
      this.parentId, this.metadata := None, metadata;
    }

    function Contents(): Row
      reads this
    {
      Row(id, docId, pageNumber, chunkIndex, text, tokenCount, isTable, parentId, metadata)
    }
  }

  function Rows(chunks: seq<Chunk>): (rows: seq<Row>)
    reads chunks
    ensures |rows| == |chunks| && forall i :: 0 <= i < |chunks| ==> rows[i] == chunks[i].Contents()
  {
    seq(|chunks|, i requires 0 <= i < |chunks| reads chunks => chunks[i].Contents())
  }

  lemma RowsAppend(a: seq<Chunk>, b: seq<Chunk>)
    ensures Rows(a + b) == Rows(a) + Rows(b)
  {
  }

  lemma RowsOne(chunks: seq<Chunk>, chunk: Chunk)
    ensures Rows(chunks + [chunk]) == Rows(chunks) + [chunk.Contents()]
  {
  }

  ghost predicate Distinct(chunks: seq<Chunk>) {
    forall i, j :: 0 <= i < j < |chunks| ==> chunks[i] != chunks[j]
  }

  function Texts(chunks: seq<Chunk>): (texts: seq<string>)
    ensures |texts| == |chunks|
  {
    seq(|chunks|, i requires 0 <= i < |chunks| => chunks[i].text)
  }

  // ---------------------------------------------------------------- parents

  const CHILDREN_PER_PARENT: nat := 4

  /** The texts of the children that share parent `group`. */
  function Group(texts: seq<string>, group: nat): seq<string>
    requires CHILDREN_PER_PARENT * group < |texts|
  {
    var from, to := CHILDREN_PER_PARENT * group, CHILDREN_PER_PARENT * (group + 1);
    texts[from..if to < |texts| then to else |texts|]
  }

  function Adopted(row: Row, docId: string, page: int, texts: seq<string>, group: nat): Row
    requires CHILDREN_PER_PARENT * group < |texts|
  {
    var id := ParentId(docId, page, group);
    row.(parentId := Some(id),
         metadata := row.metadata["parent_text" := Text(Words.JoinSpace(Group(texts, group)))]["parent_id" := Id(id)])
  }

  /** The rows after the first `done` children got their parents. */
  ghost predicate AdoptedUpTo(rows: seq<Row>, was: seq<Row>, docId: string, page: int, texts: seq<string>, done: nat) {
    && |rows| == |was| == |texts|
    && forall i :: 0 <= i < |rows| ==>
         rows[i] == if i < done then Adopted(was[i], docId, page, texts, i / CHILDREN_PER_PARENT) else was[i]
  }

  /** Records the parent on one child. */
  method Adopt(children: seq<Chunk>, c: nat, docId: string, page: int, group: nat, parentText: string)
    requires Distinct(children) && c < |children| && CHILDREN_PER_PARENT * group < |children|
    requires parentText == Words.JoinSpace(Group(Texts(children), group))
    modifies children[c]
    ensures Rows(children) ==
            old(Rows(children))[c := Adopted(old(Rows(children))[c], docId, page, Texts(children), group)]
  {
    hide Words.JoinSpace, Group, Texts;
    var child := children[c];
    var parentId := ParentId(docId, page, group);
    child.parentId := Some(parentId);
    child.metadata := child.metadata["parent_text" := Text(parentText)]["parent_id" := Id(parentId)];
    assert forall i :: 0 <= i < |children| && i != c ==> children[i].Contents() == old(children[i].Contents());
  }

  /** Merges each four consecutive children into a parent, recorded on the children. */
  method AddParentChunks(children: seq<Chunk>, docId: string, page: int)
    requires Distinct(children)
    modifies children
    ensures AdoptedUpTo(Rows(children), old(Rows(children)), docId, page, Texts(children), |children|)
  {
    hide AdoptedUpTo, Adopted, Rows, Texts, Group, Words.JoinSpace;
    ghost var was, texts := Rows(children), Texts(children);
    NoneAdopted(was, docId, page, texts);
    var p, group := 0, 0;
    while p < |children|
      invariant p == CHILDREN_PER_PARENT * group
      invariant AdoptedUpTo(Rows(children), was, docId, page, texts, if p < |children| then p else |children|)
    {
      var end := if p + CHILDREN_PER_PARENT < |children| then p + CHILDREN_PER_PARENT else |children|;
      var parentText := Words.JoinSpace(Texts(children[p..end]));
      GroupOf(children, group, p, end);
      for c := p to end
        invariant AdoptedUpTo(Rows(children), was, docId, page, texts, c)
      {
        ghost var before := Rows(children);
        Adopt(children, c, docId, page, group, parentText);
        OneAdopted(before, was, docId, page, texts, c, group);
      }
      p, group := p + CHILDREN_PER_PARENT, group + 1;
    }
  }

  lemma GroupOf(children: seq<Chunk>, group: nat, p: nat, end: nat)
    requires p == CHILDREN_PER_PARENT * group < |children|
    requires end == if p + CHILDREN_PER_PARENT < |children| then p + CHILDREN_PER_PARENT else |children|
    ensures Texts(children[p..end]) == Group(Texts(children), group)
  {
  }

  lemma NoneAdopted(was: seq<Row>, docId: string, page: int, texts: seq<string>)
    requires |was| == |texts|
    ensures AdoptedUpTo(was, was, docId, page, texts, 0)
  {
  }

  lemma OneAdopted(before: seq<Row>, was: seq<Row>, docId: string, page: int, texts: seq<string>, c: nat, group: nat)
    requires AdoptedUpTo(before, was, docId, page, texts, c) && c < |before|
    requires CHILDREN_PER_PARENT * group <= c < CHILDREN_PER_PARENT * (group + 1)
    ensures c < |texts|
    ensures AdoptedUpTo(before[c := Adopted(before[c], docId, page, texts, group)], was, docId, page, texts, c + 1)
  {
    hide Adopted;
    assert c / CHILDREN_PER_PARENT == group;
  }

  // ---------------------------------------------------------------- pages

  /** `texts` are chunks of a page's text as the greedy rule cuts them. */
  ghost predicate Cut(text: string, texts: seq<string>, size: int, overlap: int) {
    Chunker.IsChunking(texts, Words.SplitSentences(Words.Strip(text)), size, overlap)
  }

  function PlainText(page: Page, docId: string, index: nat, text: string): Row {
    Row(TextId(docId, page.number, index), docId, page.number, index, text, Chunker.EstimateTokens(text), false,
        None, page.metadata)
  }

  function TableRow(page: Page, docId: string, offset: nat, t: nat): Row
    requires t < |page.tables|
  {
    Row(TableId(docId, page.number, t), docId, page.number, offset + t, page.tables[t],
        Chunker.EstimateTokens(page.tables[t]), true, None, page.metadata["is_table" := Flag(true)])
  }

  function TextRow(page: Page, docId: string, offset: nat, texts: seq<string>, i: nat): Row
    requires i < |texts|
  {
    var row := PlainText(page, docId, offset + |page.tables| + i, texts[i]);
    if |texts| > 3 then Adopted(row, docId, page.number, texts, i / CHILDREN_PER_PARENT) else row
  }

  ghost predicate AreTables(rows: seq<Row>, page: Page, docId: string, offset: nat) {
    |rows| <= |page.tables| && forall t :: 0 <= t < |rows| ==> rows[t] == TableRow(page, docId, offset, t)
  }

  ghost predicate ArePlain(rows: seq<Row>, page: Page, docId: string, offset: nat, texts: seq<string>) {
    && |rows| <= |texts|
    && forall i :: 0 <= i < |rows| ==> rows[i] == PlainText(page, docId, offset + |page.tables| + i, texts[i])
  }

  ghost predicate AreTexts(rows: seq<Row>, page: Page, docId: string, offset: nat, texts: seq<string>) {
    |rows| == |texts| && forall i :: 0 <= i < |rows| ==> rows[i] == TextRow(page, docId, offset, texts, i)
  }

  /** What the chunks of a page must hold, given the texts its text was cut into. */
  ghost predicate IsPage(rows: seq<Row>, page: Page, docId: string, offset: nat, texts: seq<string>) {
    && |rows| == |page.tables| + |texts|
    && AreTables(rows[..|page.tables|], page, docId, offset)
    && AreTexts(rows[|page.tables|..], page, docId, offset, texts)
  }

  function TextOnly(chunks: seq<Chunk>): seq<Chunk> {
    if chunks == [] then []
    else TextOnly(chunks[..|chunks| - 1]) + if chunks[|chunks| - 1].isTable then [] else [chunks[|chunks| - 1]]
  }

  lemma {:induction false} TablesFirst(tables: seq<Chunk>, texts: seq<Chunk>)
    requires forall c :: c in tables ==> c.isTable
    requires forall c :: c in texts ==> !c.isTable
    ensures TextOnly(tables + texts) == texts
    decreases |tables| + |texts|
  {
    if texts != [] {
      assert (tables + texts)[..|tables + texts| - 1] == tables + texts[..|texts| - 1];
      TablesFirst(tables, texts[..|texts| - 1]);
    } else if tables != [] {
      assert (tables + texts)[..|tables + texts| - 1] == tables[..|tables| - 1] + texts;
      TablesFirst(tables[..|tables| - 1], texts);
    }
  }

  lemma NoRows(page: Page, docId: string, offset: nat, texts: seq<string>)
    ensures Rows([]) == [] && AreTables([], page, docId, offset) && ArePlain([], page, docId, offset, texts)
  {
  }

  method TableChunks(page: Page, docId: string, offset: nat) returns (chunks: seq<Chunk>)
    ensures fresh(chunks) && Distinct(chunks) && |chunks| == |page.tables|
    ensures AreTables(Rows(chunks), page, docId, offset)
    ensures forall c :: c in chunks ==> c.isTable
  {
    hide Rows, AreTables, Chunker.EstimateTokens;
    chunks := [];
    NoRows(page, docId, offset, []);
    for t := 0 to |page.tables|
      invariant |chunks| == t && fresh(chunks) && Distinct(chunks)
      invariant AreTables(Rows(chunks), page, docId, offset)
      invariant forall c :: c in chunks ==> c.isTable
    {
      ghost var before := Rows(chunks);
      var chunk := new Chunk(TableId(docId, page.number, t), docId, page.number, offset + t, page.tables[t], true,
                             page.metadata["is_table" := Flag(true)]);
      assert chunk.Contents().isTable && chunk.Contents() == TableRow(page, docId, offset, t);
      RowsOne(chunks, chunk);
      assert Rows(chunks) == before;
      OneTable(before, page, docId, offset, t);
      chunks := chunks + [chunk];
    }
  }

  method TextChunks(page: Page, docId: string, offset: nat, texts: seq<string>) returns (chunks: seq<Chunk>)
    ensures fresh(chunks) && Distinct(chunks) && |chunks| == |texts|
    ensures ArePlain(Rows(chunks), page, docId, offset, texts)
    ensures forall c :: c in chunks ==> !c.isTable
    ensures Texts(chunks) == texts
  {
    hide Rows, ArePlain, Chunker.EstimateTokens;
    chunks := [];
    NoRows(page, docId, offset, texts);
    for i := 0 to |texts|
      invariant |chunks| == i && fresh(chunks) && Distinct(chunks)
      invariant ArePlain(Rows(chunks), page, docId, offset, texts)
      invariant forall c :: c in chunks ==> !c.isTable
      invariant Texts(chunks) == texts[..i]
    {
      ghost var before := Rows(chunks);
      var index := offset + |page.tables| + i;
      var chunk := new Chunk(TextId(docId, page.number, index), docId, page.number, index, texts[i], false,
                             page.metadata);
      assert !chunk.Contents().isTable && chunk.Contents().text == texts[i];
      RowsOne(chunks, chunk);
      assert Rows(chunks) == before;
      OnePlain(before, page, docId, offset, texts, i);
      chunks := chunks + [chunk];
    }
  }

  lemma OneTable(rows: seq<Row>, page: Page, docId: string, offset: nat, t: nat)
    requires AreTables(rows, page, docId, offset) && |rows| == t < |page.tables|
    ensures AreTables(rows + [TableRow(page, docId, offset, t)], page, docId, offset)
  {
  }

  lemma OnePlain(rows: seq<Row>, page: Page, docId: string, offset: nat, texts: seq<string>, i: nat)
    requires ArePlain(rows, page, docId, offset, texts) && |rows| == i < |texts|
    ensures ArePlain(rows + [PlainText(page, docId, offset + |page.tables| + i, texts[i])], page, docId, offset, texts)
  {
  }

  /** Chunks one page; `offset` is the number of chunks of the pages before it. */
  method ChunkPage(page: Page, docId: string, size: int, overlap: int, offset: nat)
    returns (chunks: seq<Chunk>, ghost texts: seq<string>)
    ensures fresh(chunks) && Distinct(chunks)
    ensures Cut(page.text, texts, size, overlap)
    ensures IsPage(Rows(chunks), page, docId, offset, texts)
  {
    hide Cut, IsPage, AreTables, ArePlain, AdoptedUpTo, TextOnly, Texts, Rows, Words.Strip, Words.SplitSentences;
    var tables := TableChunks(page, docId, offset);
    chunks, texts := tables, [];
    ghost var tableRows := Rows(tables);
    NothingToCut(page.text, size, overlap);
    OnlyTables(tableRows, page, docId, offset);
    var text := Words.Strip(page.text);
    if text == "" { return; }
    var sentences := Words.SplitSentences(text);
    if sentences == [] { return; }

    var textChunks := CutText(page.text, sentences, size, overlap);
    texts := textChunks;
    var more := TextChunks(page, docId, offset, textChunks);
    assert Rows(tables) == tableRows;
    chunks := tables + more;
    RowsAppend(tables, more);
    ghost var plain := Rows(more);

    TablesFirst(tables, more);
    var textOnly := TextOnly(chunks);
    if |textOnly| > 3 {
      AddParentChunks(textOnly, docId, page.number);
      RowsAppend(tables, more);
      assert Rows(tables) == tableRows;
      PageWithParents(tableRows, plain, Rows(more), page, docId, offset, texts);
    } else {
      PageWithoutParents(tableRows, plain, page, docId, offset, texts);
    }
  }

  lemma OnlyTables(tables: seq<Row>, page: Page, docId: string, offset: nat)
    requires AreTables(tables, page, docId, offset) && |tables| == |page.tables|
    ensures IsPage(tables, page, docId, offset, [])
  {
    assert tables[..|page.tables|] == tables;
  }

  lemma PageWithoutParents(tables: seq<Row>, plain: seq<Row>, page: Page, docId: string, offset: nat,
                           texts: seq<string>)
    requires AreTables(tables, page, docId, offset) && |tables| == |page.tables|
    requires ArePlain(plain, page, docId, offset, texts) && |plain| == |texts| <= 3
    ensures IsPage(tables + plain, page, docId, offset, texts)
  {
    assert (tables + plain)[..|tables|] == tables && (tables + plain)[|tables|..] == plain;
  }

  lemma AdoptedTexts(plain: seq<Row>, adopted: seq<Row>, page: Page, docId: string, offset: nat, texts: seq<string>)
    requires ArePlain(plain, page, docId, offset, texts) && |plain| == |texts| > 3
    requires AdoptedUpTo(adopted, plain, docId, page.number, texts, |texts|)
    ensures |adopted| == |texts| && AreTexts(adopted, page, docId, offset, texts)
  {
    hide Adopted, PlainText;
    forall i | 0 <= i < |adopted| ensures adopted[i] == TextRow(page, docId, offset, texts, i) {
      assert plain[i] == PlainText(page, docId, offset + |page.tables| + i, texts[i]);
      assert adopted[i] == Adopted(plain[i], docId, page.number, texts, i / CHILDREN_PER_PARENT);
    }
  }

  lemma PageWithParents(tables: seq<Row>, plain: seq<Row>, adopted: seq<Row>, page: Page, docId: string, offset: nat,
                        texts: seq<string>)
    requires AreTables(tables, page, docId, offset) && |tables| == |page.tables|
    requires ArePlain(plain, page, docId, offset, texts) && |plain| == |texts| > 3
    requires AdoptedUpTo(adopted, plain, docId, page.number, texts, |texts|)
    ensures IsPage(tables + adopted, page, docId, offset, texts)
  {
    hide ArePlain, AreTables, AdoptedUpTo, AreTexts;
    AdoptedTexts(plain, adopted, page, docId, offset, texts);
    assert (tables + adopted)[..|tables|] == tables && (tables + adopted)[|tables|..] == adopted;
  }

  lemma NothingToCut(text: string, size: int, overlap: int)
    ensures Words.Strip(text) == "" || Words.SplitSentences(Words.Strip(text)) == [] ==> Cut(text, [], size, overlap)
  {
    Words.SentencesKeepWords(Words.Strip(text));
    if Words.Strip(text) == "" || Words.SplitSentences(Words.Strip(text)) == [] {
      assert Words.Split("") == [];
      var sentences := Words.SplitSentences(Words.Strip(text));
      assert Words.SplitAll(sentences) == [];
      var none: seq<Chunker.Piece> := [];
      assert Chunker.Built([], none, Words.SplitAll(sentences), size, overlap);
      assert Chunker.Greedy(none, sentences, size, overlap);
    }
  }

  method CutText(text: string, sentences: seq<string>, size: int, overlap: int) returns (texts: seq<string>)
    requires sentences == Words.SplitSentences(Words.Strip(text))
    ensures Cut(text, texts, size, overlap)
  {
    Words.SentencesKeepWords(Words.Strip(text));
    texts := Chunker.ChunkText(sentences, size, overlap);
  }

  // ---------------------------------------------------------------- documents

  /** `rows` are the chunks of the pages one after another, numbered through. */
  ghost predicate IsDocument(rows: seq<Row>, pages: seq<Page>, docId: string, texts: seq<seq<string>>)
    requires |texts| == |pages|
    decreases |pages|
  {
    if pages == [] then rows == []
    else
      var n := |pages| - 1;
      var own := |pages[n].tables| + |texts[n]|;
      && own <= |rows|
      && IsDocument(rows[..|rows| - own], pages[..n], docId, texts[..n])
      && IsPage(rows[|rows| - own..], pages[n], docId, |rows| - own, texts[n])
  }

  lemma NoPages(docId: string)
    ensures IsDocument([], [], docId, [])
  {
  }

  method ChunkDocument(pages: seq<Page>, docId: string, size: int, overlap: int)
    returns (chunks: seq<Chunk>, ghost texts: seq<seq<string>>)
    ensures fresh(chunks) && Distinct(chunks)
    ensures |texts| == |pages| && forall i :: 0 <= i < |pages| ==> Cut(pages[i].text, texts[i], size, overlap)
    ensures IsDocument(Rows(chunks), pages, docId, texts)
  {
    hide Cut, IsDocument, IsPage, Rows;
    chunks, texts := [], [];
    var offset := 0;
    NoPages(docId);
    for p := 0 to |pages|
      invariant offset == |chunks| && fresh(chunks) && Distinct(chunks)
      invariant |texts| == p && forall i :: 0 <= i < p ==> Cut(pages[i].text, texts[i], size, overlap)
      invariant IsDocument(Rows(chunks), pages[..p], docId, texts)
    {
      ghost var rows := Rows(chunks);
      ghost var before := chunks;
      var pageChunks;
      ghost var own;
      pageChunks, own := ChunkPage(pages[p], docId, size, overlap, offset);
      assert Rows(before) == rows;
      RowsAppend(before, pageChunks);
      PageAppended(rows, pages[..p], docId, texts, Rows(pageChunks), pages[p], own);
      chunks := chunks + pageChunks;
      assert pages[..p + 1] == pages[..p] + [pages[p]];
      texts := texts + [own];
      offset := offset + |pageChunks|;
    }
    assert pages[..|pages|] == pages;
  }

  lemma PageSize(rows: seq<Row>, page: Page, docId: string, offset: nat, texts: seq<string>)
    requires IsPage(rows, page, docId, offset, texts)
    ensures |rows| == |page.tables| + |texts|
  {
  }

  lemma PageAppended(rows: seq<Row>, pages: seq<Page>, docId: string, texts: seq<seq<string>>, more: seq<Row>,
                     page: Page, own: seq<string>)
    requires |texts| == |pages| && IsDocument(rows, pages, docId, texts)
    requires IsPage(more, page, docId, |rows|, own)
    ensures IsDocument(rows + more, pages + [page], docId, texts + [own])
  {
    hide IsPage;
    PageSize(more, page, docId, |rows|, own);
    assert |(pages + [page])| - 1 == |pages| && (pages + [page])[|pages|] == page;
    assert (pages + [page])[..|pages|] == pages && (texts + [own])[..|texts|] == texts;
    assert (rows + more)[..|rows|] == rows && (rows + more)[|rows|..] == more;
  }

  // ---------------------------------------------------------------- what a chunked document keeps

  /** The identifier of the `k`-th chunk of a page. */
  function IdAt(page: Page, docId: string, offset: nat, k: nat): ChunkId {
    if k < |page.tables| then TableId(docId, page.number, k) else TextId(docId, page.number, offset + k)
  }

  lemma PageIds(rows: seq<Row>, page: Page, docId: string, offset: nat, texts: seq<string>)
    requires IsPage(rows, page, docId, offset, texts)
    ensures forall k :: 0 <= k < |rows| ==> rows[k].chunkIndex == offset + k
    ensures forall k :: 0 <= k < |rows| ==> rows[k].id == IdAt(page, docId, offset, k)
  {
    hide Adopted;
    var n := |page.tables|;
    forall k | 0 <= k < |rows|
      ensures rows[k].chunkIndex == offset + k
      ensures rows[k].id == IdAt(page, docId, offset, k)
    {
      if k < n {
        assert rows[k] == rows[..n][k];
      } else {
        assert rows[k] == rows[n..][k - n] == TextRow(page, docId, offset, texts, k - n);
        TextRowId(page, docId, offset, texts, k - n);
      }
    }
  }

  lemma TextRowId(page: Page, docId: string, offset: nat, texts: seq<string>, i: nat)
    requires i < |texts|
    ensures var row := TextRow(page, docId, offset, texts, i);
      row.id == TextId(docId, page.number, offset + |page.tables| + i) &&
      row.chunkIndex == offset + |page.tables| + i
  {
  }

  /** Some page with this number has tables. */
  ghost predicate Tabled(pages: seq<Page>, number: int) {
    exists p :: 0 <= p < |pages| && pages[p].number == number && pages[p].tables != []
  }

  /** Through the whole document a chunk's index is its position; a text's identifier ends in that
      index, and a table's names a page that has tables. */
  lemma {:induction false} NumberedThrough(rows: seq<Row>, pages: seq<Page>, docId: string, texts: seq<seq<string>>)
    requires |texts| == |pages| && IsDocument(rows, pages, docId, texts)
    ensures forall k :: 0 <= k < |rows| ==> rows[k].chunkIndex == k
    ensures forall k :: 0 <= k < |rows| && rows[k].id.TextId? ==> rows[k].id.index == k
    ensures forall k :: 0 <= k < |rows| && rows[k].id.TableId? ==> Tabled(pages, rows[k].id.page)
    ensures forall k :: 0 <= k < |rows| ==> !rows[k].id.ParentId?
    decreases |pages|
  {
    hide IsPage;
    if pages != [] {
      var n := |pages| - 1;
      var offset := |rows| - |pages[n].tables| - |texts[n]|;
      NumberedThrough(rows[..offset], pages[..n], docId, texts[..n]);
      PageIds(rows[offset..], pages[n], docId, offset, texts[n]);
      forall k | 0 <= k < |rows|
        ensures rows[k].chunkIndex == k && !rows[k].id.ParentId?
        ensures rows[k].id.TextId? ==> rows[k].id.index == k
        ensures rows[k].id.TableId? ==> Tabled(pages, rows[k].id.page)
      {
        if k < offset {
          assert rows[k] == rows[..offset][k];
          if rows[k].id.TableId? { TabledMore(pages, rows[k].id.page); }
        } else {
          assert rows[k] == rows[offset..][k - offset];
        }
      }
    }
  }

  lemma TabledMore(pages: seq<Page>, number: int)
    requires pages != [] && Tabled(pages[..|pages| - 1], number)
    ensures Tabled(pages, number)
  {
    var p :| 0 <= p < |pages| - 1 && pages[..|pages| - 1][p].number == number && pages[..|pages| - 1][p].tables != [];
    assert pages[p].number == number;
  }

  lemma {:induction false} TabledHasId(rows: seq<Row>, pages: seq<Page>, docId: string, texts: seq<seq<string>>,
                                       number: int)
    returns (k: nat)
    requires |texts| == |pages| && IsDocument(rows, pages, docId, texts) && Tabled(pages, number)
    ensures k < |rows| && rows[k].id == TableId(docId, number, 0)
    decreases |pages|
  {
    hide IsPage;
    var n := |pages| - 1;
    var offset := |rows| - |pages[n].tables| - |texts[n]|;
    if pages[n].number == number && pages[n].tables != [] {
      PageIds(rows[offset..], pages[n], docId, offset, texts[n]);
      k := offset;
      assert rows[k] == rows[offset..][0];
    } else {
      var p :| 0 <= p < |pages| && pages[p].number == number && pages[p].tables != [];
      assert pages[..n][p] == pages[p];
      k := TabledHasId(rows[..offset], pages[..n], docId, texts[..n], number);
      assert rows[k] == rows[..offset][k];
    }
  }

  ghost predicate DistinctIds(rows: seq<Row>) {
    forall i, j :: 0 <= i < j < |rows| ==> rows[i].id != rows[j].id
  }

  /** No two pages with the same number both have tables. */
  ghost predicate TablesApart(pages: seq<Page>) {
    forall i, j :: 0 <= i < j < |pages| && pages[i].number == pages[j].number ==>
      pages[i].tables == [] || pages[j].tables == []
  }

  /** Chunk identifiers are distinct exactly when no two pages of the same number both have tables; in
      particular when page numbers are distinct. */
  lemma {:induction false} IdsAreDistinctExactly(rows: seq<Row>, pages: seq<Page>, docId: string,
                                                 texts: seq<seq<string>>)
    requires |texts| == |pages| && IsDocument(rows, pages, docId, texts)
    ensures DistinctIds(rows) <==> TablesApart(pages)
    decreases |pages|
  {
    hide IsPage;
    if pages != [] {
      var n := |pages| - 1;
      var page := pages[n];
      var offset := |rows| - |page.tables| - |texts[n]|;
      var front := rows[..offset];
      IdsAreDistinctExactly(front, pages[..n], docId, texts[..n]);
      NumberedThrough(front, pages[..n], docId, texts[..n]);
      PageIds(rows[offset..], page, docId, offset, texts[n]);
      if page.tables != [] && Tabled(pages[..n], page.number) {
        var k := TabledHasId(front, pages[..n], docId, texts[..n], page.number);
        assert rows[k].id == rows[offset..][0].id == rows[offset].id;
        var p :| 0 <= p < n && pages[..n][p].number == page.number && pages[..n][p].tables != [];
        assert pages[p].number == pages[n].number;
      } else {
        LastPageApart(rows, pages, docId, offset);
        LastPageTablesApart(pages);
      }
    } else {
      assert rows == [];
    }
  }

  lemma LastPageApart(rows: seq<Row>, pages: seq<Page>, docId: string, offset: nat)
    requires pages != [] && offset <= |rows|
    requires var n := |pages| - 1; var page := pages[n];
      && (page.tables == [] || !Tabled(pages[..n], page.number))
      && (forall k :: 0 <= k < offset && rows[..offset][k].id.TextId? ==> rows[..offset][k].id.index == k)
      && (forall k :: 0 <= k < offset && rows[..offset][k].id.TableId? ==>
            Tabled(pages[..n], rows[..offset][k].id.page))
      && forall k :: 0 <= k < |rows| - offset ==> rows[offset..][k].id == IdAt(page, docId, offset, k)
    ensures DistinctIds(rows) <==> DistinctIds(rows[..offset])
  {
    hide Tabled;
    var page := pages[|pages| - 1];
    assert forall k :: 0 <= k < offset ==> rows[..offset][k] == rows[k];
    assert forall k :: offset <= k < |rows| ==> rows[k] == rows[offset..][k - offset];
    if DistinctIds(rows[..offset]) {
      forall i, j | 0 <= i < j < |rows| ensures rows[i].id != rows[j].id {
        if j < offset {
          assert rows[..offset][i].id != rows[..offset][j].id;
        } else {
          assert rows[j].id == rows[offset..][j - offset].id;
          if i >= offset { assert rows[i].id == rows[offset..][i - offset].id; }
        }
      }
    }
    if DistinctIds(rows) {
      forall i, j | 0 <= i < j < offset ensures rows[..offset][i].id != rows[..offset][j].id {
        assert rows[i].id != rows[j].id;
      }
    }
  }

  lemma LastPageTablesApart(pages: seq<Page>)
    requires pages != []
    requires var n := |pages| - 1; pages[n].tables == [] || !Tabled(pages[..n], pages[n].number)
    ensures TablesApart(pages) <==> TablesApart(pages[..|pages| - 1])
  {
    var n := |pages| - 1;
    if TablesApart(pages[..n]) {
      forall i, j | 0 <= i < j < |pages| && pages[i].number == pages[j].number
        ensures pages[i].tables == [] || pages[j].tables == []
      {
        assert pages[..n][i] == pages[i];
        if j < n { assert pages[..n][j] == pages[j]; }
      }
    }
    if TablesApart(pages) {
      forall i, j | 0 <= i < j < n && pages[..n][i].number == pages[..n][j].number
        ensures pages[..n][i].tables == [] || pages[..n][j].tables == []
      {
        assert pages[i].number == pages[j].number;
      }
    }
  }

  function RowTexts(rows: seq<Row>): (texts: seq<string>)
    ensures |texts| == |rows|
  {
    seq(|rows|, i requires 0 <= i < |rows| => rows[i].text)
  }

  /** The texts to be stored: of each page its tables, then what its text was cut into. */
  function AllTexts(pages: seq<Page>, texts: seq<seq<string>>): seq<string>
    requires |texts| == |pages|
  {
    if pages == [] then []
    else AllTexts(pages[..|pages| - 1], texts[..|pages| - 1]) + pages[|pages| - 1].tables + texts[|pages| - 1]
  }

  /** A quarter of the text's length, at least one. */
  predicate Counts(row: Row) {
    row.tokenCount >= 1 && (|row.text| < 4 ==> row.tokenCount == 1) &&
    (|row.text| >= 4 ==> 4 * row.tokenCount <= |row.text| < 4 * row.tokenCount + 4)
  }

  /** A page's chunks carry its tables and then its texts, counted, flagged and annotated as such. */
  lemma PageHolds(rows: seq<Row>, page: Page, docId: string, offset: nat, texts: seq<string>)
    requires IsPage(rows, page, docId, offset, texts)
    ensures RowTexts(rows) == page.tables + texts
    ensures forall k :: 0 <= k < |rows| ==>
      && Counts(rows[k]) && rows[k].docId == docId && rows[k].pageNumber == page.number
      && (rows[k].isTable <==> k < |page.tables|)
      && (k < |page.tables| ==>
            rows[k].parentId == None && rows[k].metadata == page.metadata["is_table" := Flag(true)])
  {
    hide Adopted;
    var n := |page.tables|;
    forall k | 0 <= k < |rows|
      ensures rows[k].text == (page.tables + texts)[k]
      ensures Counts(rows[k]) && rows[k].docId == docId && rows[k].pageNumber == page.number
      ensures rows[k].isTable <==> k < n
      ensures k < n ==> rows[k].parentId == None && rows[k].metadata == page.metadata["is_table" := Flag(true)]
    {
      if k < n {
        assert rows[k] == rows[..n][k];
      } else {
        assert rows[k] == rows[n..][k - n] == TextRow(page, docId, offset, texts, k - n);
        TextRowHolds(page, docId, offset, texts, k - n);
      }
    }
  }

  lemma TextRowHolds(page: Page, docId: string, offset: nat, texts: seq<string>, i: nat)
    requires i < |texts|
    ensures var row := TextRow(page, docId, offset, texts, i);
      && row.text == texts[i] && Counts(row) && row.docId == docId && row.pageNumber == page.number && !row.isTable
  {
    hide Group, Words.JoinSpace;
  }

  /** What holds of every chunk of a document. */
  ghost predicate WellFormed(row: Row, docId: string) {
    Counts(row) && row.docId == docId && (row.isTable <==> row.id.TableId?)
  }

  /** A page's identifiers: its tables by their place on the page, its texts by their place in the document. */
  lemma PageIsNumbered(rows: seq<Row>, page: Page, docId: string, offset: nat, texts: seq<string>)
    requires IsPage(rows, page, docId, offset, texts)
    ensures forall k :: 0 <= k < |rows| ==>
      && rows[k].chunkIndex == offset + k
      && rows[k].id == if k < |page.tables| then TableId(docId, page.number, k)
                       else TextId(docId, page.number, offset + k)
  {
    hide IsPage;
    PageIds(rows, page, docId, offset, texts);
  }

  lemma PageWellFormed(rows: seq<Row>, page: Page, docId: string, offset: nat, texts: seq<string>)
    requires IsPage(rows, page, docId, offset, texts)
    ensures forall k :: 0 <= k < |rows| ==> WellFormed(rows[k], docId)
  {
    hide IsPage, Counts;
    PageHolds(rows, page, docId, offset, texts);
    PageIds(rows, page, docId, offset, texts);
  }

  /** A document's chunks carry exactly the tables and texts of its pages, in order. */
  lemma {:induction false} DocumentHolds(rows: seq<Row>, pages: seq<Page>, docId: string, texts: seq<seq<string>>)
    requires |texts| == |pages| && IsDocument(rows, pages, docId, texts)
    ensures RowTexts(rows) == AllTexts(pages, texts)
    ensures forall k :: 0 <= k < |rows| ==> WellFormed(rows[k], docId)
    decreases |pages|
  {
    hide IsPage, WellFormed, RowTexts;
    if pages == [] {
      assert rows == [];
    } else {
      var n := |pages| - 1;
      var offset := |rows| - |pages[n].tables| - |texts[n]|;
      var front, own := rows[..offset], rows[offset..];
      DocumentHolds(front, pages[..n], docId, texts[..n]);
      PageWellFormed(own, pages[n], docId, offset, texts[n]);
      PageTexts(own, pages[n], docId, offset, texts[n]);
      assert rows == front + own;
      RowTextsAppend(front, own);
    }
  }

  lemma PageTexts(rows: seq<Row>, page: Page, docId: string, offset: nat, texts: seq<string>)
    requires IsPage(rows, page, docId, offset, texts)
    ensures RowTexts(rows) == page.tables + texts
  {
    hide IsPage;
    PageHolds(rows, page, docId, offset, texts);
  }

  lemma RowTextsAppend(a: seq<Row>, b: seq<Row>)
    ensures RowTexts(a + b) == RowTexts(a) + RowTexts(b)
  {
  }

  /** The annotations of a text chunk: the page's own, and its parent's if the page has more than three. */
  lemma TextIsAnnotated(rows: seq<Row>, page: Page, docId: string, offset: nat, texts: seq<string>, i: nat)
    requires IsPage(rows, page, docId, offset, texts) && i < |texts|
    ensures var row := rows[|page.tables| + i];
      if |texts| <= 3 then row.parentId == None && row.metadata == page.metadata
      else
        var parent := ParentId(docId, page.number, i / 4);
        && row.parentId == Some(parent)
        && row.metadata.Keys == page.metadata.Keys + {"parent_text", "parent_id"}
        && (forall key :: key in page.metadata && key !in {"parent_text", "parent_id"} ==>
              row.metadata[key] == page.metadata[key])
        && row.metadata["parent_id"] == Id(parent)
        && row.metadata["parent_text"] ==
             Text(Words.JoinSpace(texts[4 * (i / 4)..if 4 * (i / 4) + 4 < |texts| then 4 * (i / 4) + 4 else |texts|]))
  {
    hide Words.JoinSpace, Chunker.EstimateTokens, AreTables;
    var n := |page.tables|;
    assert rows[n + i] == rows[n..][i] == TextRow(page, docId, offset, texts, i);
    assert "parent_text" != "parent_id" by { assert |"parent_text"| != |"parent_id"|; }
  }

  /** The parent recorded on a text chunk holds the words of exactly the chunks recorded with it: two
      chunks of a page have the same parent when they fall into the same four. */
  lemma ParentsHoldTheirChildren(rows: seq<Row>, page: Page, docId: string, offset: nat, texts: seq<string>, i: nat,
                                 j: nat)
    requires IsPage(rows, page, docId, offset, texts) && i < |texts| && j < |texts|
    ensures var child, other := rows[|page.tables| + i], rows[|page.tables| + j];
      if |texts| <= 3 then child.parentId == None && child.metadata == page.metadata
      else
        && child.parentId.Some? && (child.parentId == other.parentId <==> i / 4 == j / 4)
        && "parent_text" in child.metadata && child.metadata["parent_text"].Text?
        && Words.Split(child.metadata["parent_text"].text) == Words.SplitAll(Group(texts, i / 4))
        && child.text in Group(texts, i / 4)
  {
    hide Words.Split, Words.SplitAll, Words.JoinSpace, Group, Chunker.EstimateTokens, AreTables;
    var n := |page.tables|;
    assert rows[n + i] == rows[n..][i] == TextRow(page, docId, offset, texts, i);
    assert rows[n + j] == rows[n..][j] == TextRow(page, docId, offset, texts, j);
    if |texts| > 3 {
      Words.SplitJoin(Group(texts, i / 4));
      InGroup(texts, i);
    }
  }

  lemma InGroup(texts: seq<string>, i: nat)
    requires i < |texts|
    ensures texts[i] in Group(texts, i / 4)
  {
    assert Group(texts, i / 4)[i % 4] == texts[i];
  }

  /** No word of a page's text is lost or reordered: removing the overlaps from its chunks rebuilds them. */
  lemma CutKeepsEveryWord(text: string, texts: seq<string>, size: int, overlap: int)
    requires Cut(text, texts, size, overlap)
    ensures exists pieces :: |pieces| == |texts| &&
              Chunker.Greedy(pieces, Words.SplitSentences(Words.Strip(text)), size, overlap) &&
              Chunker.NewWords(texts, pieces) == Words.Split(text)
  {
    hide Words.Split, Words.SplitAll, Words.SplitSentences, Words.Strip, Chunker.Greedy, Chunker.NewWords,
      Chunker.IsChunking;
    Words.SplitStrip(text);
    Words.SentencesKeepWords(Words.Strip(text));
    Chunker.ChunksRebuildTheText(texts, Words.SplitSentences(Words.Strip(text)), size, overlap);
  }
}
