/** The `SemanticSearch` object (SemanticSearch.ts): the indexed records in memory, the
    cached copy on disk, and the operations over them. The embedding service is a parameter:
    the answers to the batches of `generateEmbeddings` and the vector of the query. */
module Store {
  import opened Wrappers
  import opened Entities
  import opened Chunks
  import opened Batching
  import opened Similarity
  import opened Ranking
  import opened Context

  /** The file `.docs/embeddings.json`: absent, present but not readable as JSON, or saved */
  datatype Disk = Missing | Unreadable | Saved(saved: seq<EmbeddingRecord>)

  datatype Index = Index(records: seq<EmbeddingRecord>, disk: Disk)

  /** A fresh object: nothing in memory, whatever is on disk */
  function Fresh(disk: Disk): Index
  {
    Index([], disk)
  }

  /** `getEmbeddingsCount` */
  function Count(ix: Index): nat
  {
    |ix.records|
  }

  /** `generateEmbeddings`: index the chunks of the files, then save the records */
  function Generate(ix: Index, files: seq<CodeFile>, responses: seq<Response>): (r: Index)
    requires |responses| == |Batches(Chunks.Chunks(files))|
    ensures r.disk == Saved(r.records)
  {
    var records := Records(Chunks.Chunks(files), responses);
    Index(records, Saved(records))
  }

  /** `loadEmbeddings`: a readable file replaces the records; otherwise nothing changes */
  function Load(ix: Index): (r: Index)
    ensures r.disk == ix.disk
    ensures ix.disk.Saved? ==> r.records == ix.disk.saved
    ensures !ix.disk.Saved? ==> r == ix
  {
    match ix.disk
    case Saved(rs) => Index(rs, ix.disk)
    case _ => ix
  }

  /** `clearEmbeddings` */
  function Clear(ix: Index): (r: Index)
    ensures Count(r) == 0
  {
    Index([], Missing)
  }

  /** A record with its similarity to the query, `{...item, similarity}` */
  datatype Scored = Scored(record: EmbeddingRecord, similarity: real)

  function SimilarityOf(s: Scored): real
  {
    s.similarity
  }

  function Score(records: seq<EmbeddingRecord>, q: Vector, sqrt: real -> real): (ss: seq<Scored>)
    requires NonZeroRoot(sqrt)
    ensures |ss| == |records|
    ensures forall k :: 0 <= k < |records| ==> ss[k] == Scored(records[k], Cosine(q, records[k].embedding, sqrt))
  {
    seq(|records|, k requires 0 <= k < |records| => Scored(records[k], Cosine(q, records[k].embedding, sqrt)))
  }

  function ResultOf(s: Scored, query: string): SearchResult
  {
    SearchResult(s.record.text, s.record.file, s.record.lineNumber, s.similarity, ContextOf(s.record.text, query))
  }

  /** The results of a search over records that are present */
  function Results(records: seq<EmbeddingRecord>, query: string, q: Vector, limit: int, sqrt: real -> real)
    : (rs: seq<SearchResult>)
    requires NonZeroRoot(sqrt)
    ensures |rs| == |Top(Score(records, q, sqrt), SimilarityOf, limit)|
    ensures forall i :: 0 <= i < |rs| ==> rs[i] == ResultOf(Top(Score(records, q, sqrt), SimilarityOf, limit)[i], query)
  {
    var top := Top(Score(records, q, sqrt), SimilarityOf, limit);
    seq(|top|, i requires 0 <= i < |top| => ResultOf(top[i], query))
  }

  /** `search(query, limit)`: load the file when nothing is in memory, answer nothing when
      there is still nothing, else rank every record by its similarity to the query vector */
  function Search(ix: Index, query: string, q: Vector, limit: int, sqrt: real -> real)
    : (r: (Index, seq<SearchResult>))
    requires NonZeroRoot(sqrt)
    ensures r.0.disk == ix.disk
    ensures |ix.records| > 0 ==> r.0 == ix
  {
    var loaded := if |ix.records| == 0 then Load(ix) else ix;
    if |loaded.records| == 0 then (loaded, [])
    else (loaded, Results(loaded.records, query, q, limit, sqrt))
  }

  /** `searchByFunction`, `searchByClass` and `searchByType` ask for five results,
      `findSimilarCode` for ten */
  function SearchByFunction(ix: Index, name: string, q: Vector, sqrt: real -> real): (r: (Index, seq<SearchResult>))
    requires NonZeroRoot(sqrt)
  {
    Search(ix, "function " + name, q, 5, sqrt)
  }

  function SearchByClass(ix: Index, name: string, q: Vector, sqrt: real -> real): (r: (Index, seq<SearchResult>))
    requires NonZeroRoot(sqrt)
  {
    Search(ix, "class " + name, q, 5, sqrt)
  }

  function SearchByType(ix: Index, name: string, q: Vector, sqrt: real -> real): (r: (Index, seq<SearchResult>))
    requires NonZeroRoot(sqrt)
  {
    Search(ix, "type " + name, q, 5, sqrt)
  }

  function FindSimilarCode(ix: Index, snippet: string, q: Vector, sqrt: real -> real): (r: (Index, seq<SearchResult>))
    requires NonZeroRoot(sqrt)
  {
    Search(ix, snippet, q, 10, sqrt)
  }

  /** The result a search reports for one record */
  function Hit(rec: EmbeddingRecord, query: string, q: Vector, sqrt: real -> real): SearchResult
    requires NonZeroRoot(sqrt)
  {
    SearchResult(rec.text, rec.file, rec.lineNumber, Cosine(q, rec.embedding, sqrt), ContextOf(rec.text, query))
  }

  /** A search returns `limit` results (as `slice` counts them), best first, each the hit
      of a stored record */
  lemma SearchRanked(records: seq<EmbeddingRecord>, query: string, q: Vector, limit: int, sqrt: real -> real)
    requires NonZeroRoot(sqrt)
    ensures |Results(records, query, q, limit, sqrt)| == SliceEnd(|records|, limit)
    ensures var rs := Results(records, query, q, limit, sqrt);
      forall i, j :: 0 <= i < j < |rs| ==> rs[i].similarity >= rs[j].similarity
    ensures var rs := Results(records, query, q, limit, sqrt);
      forall i :: 0 <= i < |rs| ==> exists k :: 0 <= k < |records| && rs[i] == Hit(records[k], query, q, sqrt)
  {
    var scored := Score(records, q, sqrt);
    var top := Top(scored, SimilarityOf, limit);
    var rs := Results(records, query, q, limit, sqrt);
    TopBest(scored, SimilarityOf, limit);
    forall i, j | 0 <= i < j < |rs|
      ensures rs[i].similarity >= rs[j].similarity
    {
      assert rs[i].similarity == SimilarityOf(top[i]) && rs[j].similarity == SimilarityOf(top[j]);
    }
    forall i | 0 <= i < |rs|
      ensures exists k :: 0 <= k < |records| && rs[i] == Hit(records[k], query, q, sqrt)
    {
      assert top[i] in multiset(scored);
      var k :| 0 <= k < |scored| && scored[k] == top[i];
      assert rs[i] == Hit(records[k], query, q, sqrt);
    }
  }

  /** No stored record is passed over for a less similar one: each is among the results or
      at most as similar as every result */
  lemma SearchComplete(records: seq<EmbeddingRecord>, query: string, q: Vector, limit: int, sqrt: real -> real, k: nat)
    requires NonZeroRoot(sqrt) && k < |records|
    ensures var rs := Results(records, query, q, limit, sqrt);
      (exists i :: 0 <= i < |rs| && rs[i] == Hit(records[k], query, q, sqrt))
      || forall i :: 0 <= i < |rs| ==> rs[i].similarity >= Cosine(q, records[k].embedding, sqrt)
  {
    var scored := Score(records, q, sqrt);
    var top := Top(scored, SimilarityOf, limit);
    var dropped := Dropped(scored, SimilarityOf, limit);
    var rs := Results(records, query, q, limit, sqrt);
    TopBest(scored, SimilarityOf, limit);
    assert scored[k] in multiset(scored);
    if scored[k] in multiset(top) {
      var i :| 0 <= i < |top| && top[i] == scored[k];
      assert rs[i] == Hit(records[k], query, q, sqrt);
    } else {
      assert scored[k] in multiset(dropped);
      var j :| 0 <= j < |dropped| && dropped[j] == scored[k];
      forall i | 0 <= i < |rs|
        ensures rs[i].similarity >= Cosine(q, records[k].embedding, sqrt)
      {
        assert SimilarityOf(top[i]) >= SimilarityOf(dropped[j]);
      }
    }
  }

  /** With every batch answered in full, the index holds one record per chunk, each with
      the text and place of its chunk and the vector at the same position */
  lemma GenerateAllAnswered(ix: Index, files: seq<CodeFile>, responses: seq<Response>)
    requires |responses| == |Batches(Chunks.Chunks(files))|
    requires AllAnswered(Chunks.Chunks(files), responses)
    ensures Count(Generate(ix, files, responses)) == |Chunks.Chunks(files)|
    ensures |Embeddings(responses)| == |Chunks.Chunks(files)|
    ensures forall k :: 0 <= k < |Chunks.Chunks(files)| ==>
      Generate(ix, files, responses).records[k] == RecordOf(Chunks.Chunks(files)[k], Embeddings(responses)[k])
  {
    AnsweredInFull(Chunks.Chunks(files), responses);
  }

  /** A new object over the saved file answers every search as the one that generated it */
  lemma ReloadSameResults(ix: Index, files: seq<CodeFile>, responses: seq<Response>,
                          query: string, q: Vector, limit: int, sqrt: real -> real)
    requires |responses| == |Batches(Chunks.Chunks(files))|
    requires NonZeroRoot(sqrt)
    ensures var g := Generate(ix, files, responses);
      Search(Fresh(g.disk), query, q, limit, sqrt).1 == Search(g, query, q, limit, sqrt).1
      && Count(Search(Fresh(g.disk), query, q, limit, sqrt).0) == Count(g)
  {
  }

  /** After `clearEmbeddings` nothing is counted and nothing is found */
  lemma ClearForgets(ix: Index, query: string, q: Vector, limit: int, sqrt: real -> real)
    requires NonZeroRoot(sqrt)
    ensures Count(Clear(ix)) == 0
    ensures Search(Clear(ix), query, q, limit, sqrt) == (Clear(ix), [])
  {
  }

  /** An unreadable file leaves the index empty, so the search finds nothing */
  lemma UnreadableFindsNothing(query: string, q: Vector, limit: int, sqrt: real -> real)
    requires NonZeroRoot(sqrt)
    ensures Search(Fresh(Unreadable), query, q, limit, sqrt) == (Fresh(Unreadable), [])
  {
  }

  /** The searches by name return at most five results */
  lemma SearchByNameAtMostFive(ix: Index, name: string, q: Vector, sqrt: real -> real)
    requires NonZeroRoot(sqrt)
    ensures |SearchByFunction(ix, name, q, sqrt).1| <= 5
    ensures |SearchByClass(ix, name, q, sqrt).1| <= 5
    ensures |SearchByType(ix, name, q, sqrt).1| <= 5
  {
    var loaded := if |ix.records| == 0 then Load(ix) else ix;
    SearchRanked(loaded.records, "function " + name, q, 5, sqrt);
    SearchRanked(loaded.records, "class " + name, q, 5, sqrt);
    SearchRanked(loaded.records, "type " + name, q, 5, sqrt);
  }
}
