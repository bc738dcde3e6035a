/** Search results (backend/memory/hybrid.py). */
module Results {
  import opened Wrappers

  /** An embedding. */
  type Vector = seq<real>

  datatype SearchResult = SearchResult(chunkId: string, docId: string, pageNumber: int, text: string, score: real,
                                       isTable: bool, sourceFile: string,
                                       metadata: map<string, string>, embedding: Option<Vector>)
}
