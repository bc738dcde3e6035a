/**
  What a watcher run stores between its steps: query clusters, their diagnoses and the synthesized
  memory entries, each kept as a JSON text (backend/watcher/engine.py, lines 20-55).
  A JSON text is represented by the value it denotes.
 */
module Payloads {
  import opened Wrappers

  datatype QueryCluster = QueryCluster(
    representativeQuery: string,
    queries: seq<string>,
    gradeIds: seq<string>,
    avgRetrievalGrade: real,
    retrievedChunkIds: seq<string>)

  datatype Diagnosis = Diagnosis(
    cluster: QueryCluster,
    failureType: string,
    retrievedTexts: seq<string>,
    sourceFiles: seq<string>,
    notes: string)

  datatype MemoryEntry = MemoryEntry(
    section: string,
    content: string,
    sourceFiles: seq<string>,
    representativeQuery: string)

  datatype Json = Str(s: string) | Num(r: real) | Arr(items: seq<Json>) | Obj(fields: map<string, Json>)

  // ---------------------------------------------------------------- strings and lists

  function Strings(ss: seq<string>): Json { Arr(seq(|ss|, i requires 0 <= i < |ss| => Str(ss[i]))) }

  function ReadStr(fields: map<string, Json>, key: string): Option<string> {
    if key in fields && fields[key].Str? then Some(fields[key].s) else None
  }

  function ReadNum(fields: map<string, Json>, key: string): Option<real> {
    if key in fields && fields[key].Num? then Some(fields[key].r) else None
  }

  function ReadStrings(fields: map<string, Json>, key: string): Option<seq<string>> {
    if key in fields && fields[key].Arr? && forall i :: 0 <= i < |fields[key].items| ==> fields[key].items[i].Str?
    then var items := fields[key].items; Some(seq(|items|, i requires 0 <= i < |items| => items[i].s))
    else None
  }

  /** Decodes a list item by item; one item that does not decode fails the whole list. */
  function DecodeAll<T>(items: seq<Json>, decode: Json -> Option<T>): Option<seq<T>> {
    if items == [] then Some([])
    else match (decode(items[0]), DecodeAll(items[1..], decode))
      case (Some(x), Some(rest)) => Some([x] + rest)
      case _ => None
  }

  function EncodeAll<T>(xs: seq<T>, encode: T -> Json): seq<Json> {
    if xs == [] then [] else [encode(xs[0])] + EncodeAll(xs[1..], encode)
  }

  lemma {:induction false} DecodeEncodeAll<T>(xs: seq<T>, encode: T -> Json, decode: Json -> Option<T>)
    requires forall x :: x in xs ==> decode(encode(x)) == Some(x)
    ensures DecodeAll(EncodeAll(xs, encode), decode) == Some(xs)
  {
    if xs != [] {
      assert xs[0] in xs;
      DecodeEncodeAll(xs[1..], encode, decode);
      assert EncodeAll(xs, encode)[1..] == EncodeAll(xs[1..], encode);
      assert xs == [xs[0]] + xs[1..];
    }
  }

  // ---------------------------------------------------------------- the three payloads

  function EncodeCluster(c: QueryCluster): Json {
    Obj(map["representative_query" := Str(c.representativeQuery), "queries" := Strings(c.queries),
            "grade_ids" := Strings(c.gradeIds), "avg_retrieval_grade" := Num(c.avgRetrievalGrade),
            "retrieved_chunk_ids" := Strings(c.retrievedChunkIds)])
  }

  function DecodeCluster(j: Json): Option<QueryCluster> {
    if !j.Obj? then None
    else match (ReadStr(j.fields, "representative_query"), ReadStrings(j.fields, "queries"),
                ReadStrings(j.fields, "grade_ids"), ReadNum(j.fields, "avg_retrieval_grade"),
                ReadStrings(j.fields, "retrieved_chunk_ids"))
      case (Some(q), Some(qs), Some(ids), Some(avg), Some(chunks)) => Some(QueryCluster(q, qs, ids, avg, chunks))
      case _ => None
  }

  /** The cluster is embedded in the diagnosis. */
  function EncodeDiagnosis(d: Diagnosis): Json {
    Obj(map["cluster" := EncodeCluster(d.cluster), "failure_type" := Str(d.failureType),
            "retrieved_texts" := Strings(d.retrievedTexts), "source_files" := Strings(d.sourceFiles),
            "notes" := Str(d.notes)])
  }

  /** The embedded cluster is taken out first; the rest are the diagnosis's own fields. */
  function DecodeDiagnosis(j: Json): Option<Diagnosis> {
    if !(j.Obj? && "cluster" in j.fields) then None
    else
      var rest := j.fields - {"cluster"};
      match (DecodeCluster(j.fields["cluster"]), ReadStr(rest, "failure_type"), ReadStrings(rest, "retrieved_texts"),
             ReadStrings(rest, "source_files"), ReadStr(rest, "notes"))
      case (Some(c), Some(f), Some(texts), Some(files), Some(notes)) => Some(Diagnosis(c, f, texts, files, notes))
      case _ => None
  }

  function EncodeEntry(e: MemoryEntry): Json {
    Obj(map["section" := Str(e.section), "content" := Str(e.content), "source_files" := Strings(e.sourceFiles),
            "representative_query" := Str(e.representativeQuery)])
  }

  function DecodeEntry(j: Json): Option<MemoryEntry> {
    if !j.Obj? then None
    else match (ReadStr(j.fields, "section"), ReadStr(j.fields, "content"), ReadStrings(j.fields, "source_files"),
                ReadStr(j.fields, "representative_query"))
      case (Some(s), Some(c), Some(files), Some(q)) => Some(MemoryEntry(s, c, files, q))
      case _ => None
  }

  function SerializeClusters(cs: seq<QueryCluster>): Json { Arr(EncodeAll(cs, EncodeCluster)) }
  function SerializeDiagnoses(ds: seq<Diagnosis>): Json { Arr(EncodeAll(ds, EncodeDiagnosis)) }
  function SerializeEntries(es: seq<MemoryEntry>): Json { Arr(EncodeAll(es, EncodeEntry)) }

  /** Reading a column: a null column or a text of another shape raises. */
  function DeserializeClusters(column: Option<Json>): Option<seq<QueryCluster>> {
    if column.Some? && column.value.Arr? then DecodeAll(column.value.items, DecodeCluster) else None
  }

  function DeserializeDiagnoses(column: Option<Json>): Option<seq<Diagnosis>> {
    if column.Some? && column.value.Arr? then DecodeAll(column.value.items, DecodeDiagnosis) else None
  }

  function DeserializeEntries(column: Option<Json>): Option<seq<MemoryEntry>> {
    if column.Some? && column.value.Arr? then DecodeAll(column.value.items, DecodeEntry) else None
  }

  lemma StringsReadBack(fields: map<string, Json>, key: string, ss: seq<string>)
    requires key in fields && fields[key] == Strings(ss)
    ensures ReadStrings(fields, key) == Some(ss)
  {
    assert ReadStrings(fields, key).value == ss;
  }

  lemma ClusterReadsBack(c: QueryCluster)
    ensures DecodeCluster(EncodeCluster(c)) == Some(c)
  {
    var fields := EncodeCluster(c).fields;
    StringsReadBack(fields, "queries", c.queries);
    StringsReadBack(fields, "grade_ids", c.gradeIds);
    StringsReadBack(fields, "retrieved_chunk_ids", c.retrievedChunkIds);
  }

  lemma DiagnosisReadsBack(d: Diagnosis)
    ensures DecodeDiagnosis(EncodeDiagnosis(d)) == Some(d)
  {
    hide DecodeCluster, EncodeCluster;
    ClusterReadsBack(d.cluster);
    var rest := EncodeDiagnosis(d).fields - {"cluster"};
    StringsReadBack(rest, "retrieved_texts", d.retrievedTexts);
    StringsReadBack(rest, "source_files", d.sourceFiles);
  }

  lemma EntryReadsBack(e: MemoryEntry)
    ensures DecodeEntry(EncodeEntry(e)) == Some(e)
  {
    StringsReadBack(EncodeEntry(e).fields, "source_files", e.sourceFiles);
  }

  /** What a step saved is what a resumed run loads. */
  lemma ClustersReadBack(cs: seq<QueryCluster>)
    ensures DeserializeClusters(Some(SerializeClusters(cs))) == Some(cs)
  {
    forall c | c in cs ensures DecodeCluster(EncodeCluster(c)) == Some(c) { ClusterReadsBack(c); }
    DecodeEncodeAll(cs, EncodeCluster, DecodeCluster);
  }

  lemma DiagnosesReadBack(ds: seq<Diagnosis>)
    ensures DeserializeDiagnoses(Some(SerializeDiagnoses(ds))) == Some(ds)
  {
    forall d | d in ds ensures DecodeDiagnosis(EncodeDiagnosis(d)) == Some(d) { DiagnosisReadsBack(d); }
    DecodeEncodeAll(ds, EncodeDiagnosis, DecodeDiagnosis);
  }

  lemma EntriesReadBack(es: seq<MemoryEntry>)
    ensures DeserializeEntries(Some(SerializeEntries(es))) == Some(es)
  {
    forall e | e in es ensures DecodeEntry(EncodeEntry(e)) == Some(e) { EntryReadsBack(e); }
    DecodeEncodeAll(es, EncodeEntry, DecodeEntry);
  }
}
