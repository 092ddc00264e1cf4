/** Embedding the chunks in batches and storing the results (SemanticSearch.ts:65-93). The
    embedding service is outside the model: the answer to the call for each batch is a
    parameter, `None` when the call threw and `Some(vectors)` when it returned. */
module Batching {
  import opened Wrappers
  import opened Entities
  import opened Lists
  import opened Chunks
  import Analyzer

  const BatchSize: nat := 100

  function Min(a: int, b: int): int
  {
    if a < b then a else b
  }

  // ---------------------------------------------------------------------------------
  // Batches: `texts.slice(i, i + batchSize)` for i = 0, 100, 200, ...

  function Batches<T>(xs: seq<T>): (bs: seq<seq<T>>)
    ensures |bs| == (|xs| + BatchSize - 1) / BatchSize
    ensures forall b :: 0 <= b < |bs| ==> 0 < |bs[b]| <= BatchSize
    decreases |xs|
  {
    if |xs| == 0 then []
    else if |xs| <= BatchSize then [xs]
    else [xs[..BatchSize]] + Batches(xs[BatchSize..])
  }

  function Flatten<T>(xss: seq<seq<T>>): seq<T>
  {
    if |xss| == 0 then [] else xss[0] + Flatten(xss[1..])
  }

  /** The batches, put back together, are the whole input in order */
  lemma {:induction false} BatchesJoin<T>(xs: seq<T>)
    ensures Flatten(Batches(xs)) == xs
    decreases |xs|
  {
    if |xs| > BatchSize {
      BatchesJoin(xs[BatchSize..]);
      assert ([xs[..BatchSize]] + Batches(xs[BatchSize..]))[1..] == Batches(xs[BatchSize..]);
    } else if |xs| > 0 {
      assert [xs][1..] == [];
    }
  }

  /** Batch `b` is the slice that starts at `b * 100` */
  lemma {:induction false} BatchSlice<T>(xs: seq<T>, b: nat)
    requires b < |Batches(xs)|
    ensures b * BatchSize < |xs|
    ensures Batches(xs)[b] == xs[b * BatchSize..Min(b * BatchSize + BatchSize, |xs|)]
    decreases b
  {
    if b > 0 {
      BatchSlice(xs[BatchSize..], b - 1);
      assert Batches(xs)[b] == Batches(xs[BatchSize..])[b - 1];
      assert xs[BatchSize..][(b - 1) * BatchSize..Min((b - 1) * BatchSize + BatchSize, |xs| - BatchSize)]
        == xs[b * BatchSize..Min(b * BatchSize + BatchSize, |xs|)];
    }
  }

  /** There is a batch starting at `i` exactly when `i` is before the end */
  lemma BatchCount(n: nat, b: nat)
    ensures b < (n + BatchSize - 1) / BatchSize <==> b * BatchSize < n
  {
  }

  // ---------------------------------------------------------------------------------
  // Calling the service batch by batch

  /** What the service answered for one batch: its vectors, or `None` when the call threw */
  type Response = Option<seq<Vector>>

  /** The vectors a response adds to `embeddings`: none when the call threw */
  function Returned(r: Response): seq<Vector>
  {
    match r
    case None => []
    case Some(vs) => vs
  }

  /** `embeddings` after the loop: the vectors of the answered batches, in batch order */
  function Embeddings(responses: seq<Response>): seq<Vector>
  {
    FlatMap(responses, Returned)
  }

  /** The batching loop of `generateEmbeddings`: it sends exactly the batches, in order,
      and collects the answered vectors; `responses[b]` is the answer to the `b`-th call */
  method SendBatches(texts: seq<string>, responses: seq<Response>)
    returns (sent: seq<seq<string>>, embeddings: seq<Vector>)
    requires |responses| == |Batches(texts)|
    ensures sent == Batches(texts)
    ensures embeddings == Embeddings(responses)
  {
    sent, embeddings := [], [];
    var i := 0;
    while i < |texts|
      invariant i == |sent| * BatchSize && |sent| <= |Batches(texts)|
      invariant sent == Batches(texts)[..|sent|]
      invariant embeddings == Embeddings(responses[..|sent|])
      decreases |texts| - i
    {
      var b := |sent|;
      BatchCount(|texts|, b);
      BatchSlice(texts, b);
      var batch := texts[i..Min(i + BatchSize, |texts|)];
      embeddings := embeddings + Returned(responses[b]);
      assert responses[..b + 1][..b] == responses[..b];
      sent := sent + [batch];
      assert Batches(texts)[..b + 1] == Batches(texts)[..b] + [Batches(texts)[b]];
      i := i + BatchSize;
    }
    BatchCount(|texts|, |sent|);
    assert sent == Batches(texts);
    assert responses[..|sent|] == responses;
  }

  // ---------------------------------------------------------------------------------
  // Records

  /** The stored record of a chunk and a vector */
  function RecordOf(c: Chunk, v: Vector): EmbeddingRecord
  {
    EmbeddingRecord(c.text, v, c.meta.file, c.meta.lineNumber)
  }

  /** `embeddings.map((embedding, index) => ...)`: vector `k` is stored with the text and
      metadata at position `k`. When there are more vectors than texts, `metadata[index]`
      is `undefined` and reading its `file` throws, so nothing is stored (`None`). */
  function RecordsAsWritten(chunks: seq<Chunk>, responses: seq<Response>): (r: Option<seq<EmbeddingRecord>>)
    ensures r.Some? <==> |Embeddings(responses)| <= |chunks|
    ensures r.Some? ==> |r.value| == |Embeddings(responses)|
  {
    var es := Embeddings(responses);
    if |es| > |chunks| then None else Some(Zipped(chunks, es))
  }

  /** Vector `k` with chunk `k` */
  function Zipped(chunks: seq<Chunk>, es: seq<Vector>): (r: seq<EmbeddingRecord>)
    requires |es| <= |chunks|
    ensures |r| == |es| && forall k :: 0 <= k < |es| ==> r[k] == RecordOf(chunks[k], es[k])
  {
    seq(|es|, k requires 0 <= k < |es| => RecordOf(chunks[k], es[k]))
  }

  /** The records of one batch, each chunk with the vector computed for it: the service
      answers an input array with one vector per input, in order. A call that threw, or an
      answer that does not have one vector per input, gives no records. */
  function Answered(batch: seq<Chunk>, r: Response): (recs: seq<EmbeddingRecord>)
    ensures r.Some? && |r.value| == |batch| ==> |recs| == |batch|
    ensures !(r.Some? && |r.value| == |batch|) ==> recs == []
  {
    match r
    case Some(vs) => if |vs| == |batch| then Zipped(batch, vs) else []
    case None => []
  }

  function RecordsOf(bs: seq<seq<Chunk>>, responses: seq<Response>): seq<EmbeddingRecord>
    requires |bs| == |responses|
  {
    if |bs| == 0 then [] else Answered(bs[0], responses[0]) + RecordsOf(bs[1..], responses[1..])
  }

  /** The stored records with each vector paired with the chunk it was computed for */
  function Records(chunks: seq<Chunk>, responses: seq<Response>): seq<EmbeddingRecord>
    requires |responses| == |Batches(chunks)|
  {
    RecordsOf(Batches(chunks), responses)
  }

  /** Every batch was answered with one vector per input */
  predicate AllAnswered(chunks: seq<Chunk>, responses: seq<Response>)
    requires |responses| == |Batches(chunks)|
  {
    forall b :: 0 <= b < |responses| ==> responses[b].Some? && |responses[b].value| == |Batches(chunks)[b]|
  }

  /** The first batch, then the batches of what follows it */
  lemma BatchesCons<T>(xs: seq<T>)
    requires |xs| > 0
    ensures Batches(xs) == [xs[..Min(BatchSize, |xs|)]] + Batches(xs[Min(BatchSize, |xs|)..])
  {
    if |xs| <= BatchSize {
      assert xs[..|xs|] == xs;
      assert xs[|xs|..] == [];
    }
  }

  lemma EmbeddingsCons(responses: seq<Response>)
    requires |responses| > 0
    ensures Embeddings(responses) == Returned(responses[0]) + Embeddings(responses[1..])
  {
    assert responses == [responses[0]] + responses[1..];
    FlatMapAppend([responses[0]], responses[1..], Returned);
    assert [responses[0]][..0] == [];
  }

  lemma ZippedAppend(chunks: seq<Chunk>, e1: seq<Vector>, e2: seq<Vector>)
    requires |e1| + |e2| <= |chunks|
    ensures Zipped(chunks, e1 + e2) == Zipped(chunks[..|e1|], e1) + Zipped(chunks[|e1|..], e2)
  {
    var a, b := Zipped(chunks[..|e1|], e1), Zipped(chunks[|e1|..], e2);
    forall k | 0 <= k < |e1| + |e2|
      ensures Zipped(chunks, e1 + e2)[k] == (a + b)[k]
    {
      if k >= |e1| {
        assert (a + b)[k] == b[k - |e1|];
      }
    }
  }

  /** When every batch is answered in full, vector `k` is the one computed for chunk `k` */
  lemma {:induction false} AnsweredInFull(chunks: seq<Chunk>, responses: seq<Response>)
    requires |responses| == |Batches(chunks)| && AllAnswered(chunks, responses)
    ensures |Embeddings(responses)| == |chunks|
    ensures Zipped(chunks, Embeddings(responses)) == Records(chunks, responses)
    decreases |chunks|
  {
    if |chunks| == 0 {
      assert Embeddings(responses) == [];
    } else {
      var m := Min(BatchSize, |chunks|);
      var rest, tail := chunks[m..], responses[1..];
      BatchesCons(chunks);
      assert forall b :: 0 <= b < |tail| ==> Batches(rest)[b] == Batches(chunks)[b + 1];
      AnsweredInFull(rest, tail);
      EmbeddingsCons(responses);
      var vs := responses[0].value;
      ZippedAppend(chunks, vs, Embeddings(tail));
      assert chunks[..|vs|] == Batches(chunks)[0];
    }
  }

  /** When every batch is answered in full, the source's records are the paired ones */
  lemma AsWrittenWhenAllAnswered(chunks: seq<Chunk>, responses: seq<Response>)
    requires |responses| == |Batches(chunks)| && AllAnswered(chunks, responses)
    ensures RecordsAsWritten(chunks, responses) == Some(Records(chunks, responses))
  {
    AnsweredInFull(chunks, responses);
  }

  // ---------------------------------------------------------------------------------
  // The records chunk by chunk

  /** The vector computed for chunk `k`: entry `k % 100` of the answer to batch `k / 100`,
      when that batch was answered with one vector per input */
  function VectorFor(chunks: seq<Chunk>, responses: seq<Response>, k: nat): (v: Option<Vector>)
    requires |responses| == |Batches(chunks)| && k < |chunks|
  {
    var b := k / BatchSize;
    BatchCount(|chunks|, b);
    BatchSlice(chunks, b);
    match responses[b]
    case Some(vs) => if |vs| == |Batches(chunks)[b]| then Some(vs[k % BatchSize]) else None
    case None => None
  }

  /** The record stored for chunk `k`, if any */
  function Own(chunks: seq<Chunk>, responses: seq<Response>, k: nat): Option<EmbeddingRecord>
    requires |responses| == |Batches(chunks)| && k < |chunks|
  {
    match VectorFor(chunks, responses, k)
    case Some(v) => Some(RecordOf(chunks[k], v))
    case None => None
  }

  function Owns(chunks: seq<Chunk>, responses: seq<Response>): (xs: seq<Option<EmbeddingRecord>>)
    requires |responses| == |Batches(chunks)|
    ensures |xs| == |chunks|
  {
    seq(|chunks|, k requires 0 <= k < |chunks| => Own(chunks, responses, k))
  }

  /** The records of one batch, position by position */
  function Block(batch: seq<Chunk>, r: Response): (xs: seq<Option<EmbeddingRecord>>)
    ensures |xs| == |batch|
  {
    seq(|batch|, k requires 0 <= k < |batch| =>
      if r.Some? && |r.value| == |batch| then Some(RecordOf(batch[k], r.value[k])) else None)
  }

  lemma BlockAnswered(batch: seq<Chunk>, r: Response)
    ensures Analyzer.Somes(Block(batch, r)) == Answered(batch, r)
  {
    if r.Some? && |r.value| == |batch| {
      Analyzer.AllPresent(Block(batch, r));
    } else {
      Analyzer.NonePresent(Block(batch, r));
    }
  }

  /** Chunk by chunk: the first batch, then the chunks after it with the later answers */
  lemma OwnsCons(chunks: seq<Chunk>, responses: seq<Response>)
    requires |responses| == |Batches(chunks)| && |chunks| > 0
    ensures var m := Min(BatchSize, |chunks|);
      |responses[1..]| == |Batches(chunks[m..])|
      && Owns(chunks, responses) == Block(chunks[..m], responses[0]) + Owns(chunks[m..], responses[1..])
  {
    var m := Min(BatchSize, |chunks|);
    var rest, tail := chunks[m..], responses[1..];
    BatchesCons(chunks);
    var a, b := Block(chunks[..m], responses[0]), Owns(rest, tail);
    forall k | 0 <= k < |chunks|
      ensures Owns(chunks, responses)[k] == (a + b)[k]
    {
      if k < m {
        OwnInFirst(chunks, responses, k);
      } else {
        OwnAfterFirst(chunks, responses, k);
        assert (a + b)[k] == b[k - m];
      }
    }
  }

  lemma OwnInFirst(chunks: seq<Chunk>, responses: seq<Response>, k: nat)
    requires |responses| == |Batches(chunks)| && k < Min(BatchSize, |chunks|)
    ensures Own(chunks, responses, k) == Block(chunks[..Min(BatchSize, |chunks|)], responses[0])[k]
  {
    BatchesCons(chunks);
  }

  lemma OwnAfterFirst(chunks: seq<Chunk>, responses: seq<Response>, k: nat)
    requires |responses| == |Batches(chunks)| && BatchSize <= k < |chunks|
    ensures |responses[1..]| == |Batches(chunks[BatchSize..])|
    ensures Own(chunks, responses, k) == Own(chunks[BatchSize..], responses[1..], k - BatchSize)
  {
    BatchesCons(chunks);
    assert k / BatchSize == (k - BatchSize) / BatchSize + 1;
    assert k % BatchSize == (k - BatchSize) % BatchSize;
    assert Batches(chunks)[k / BatchSize] == Batches(chunks[BatchSize..])[(k - BatchSize) / BatchSize];
  }

  /** The stored records are, in order, the records of the chunks whose own vector came back */
  lemma {:induction false} RecordsPerChunk(chunks: seq<Chunk>, responses: seq<Response>)
    requires |responses| == |Batches(chunks)|
    ensures Records(chunks, responses) == Analyzer.Somes(Owns(chunks, responses))
    decreases |chunks|
  {
    if |chunks| == 0 {
      assert Owns(chunks, responses) == [];
    } else {
      var m := Min(BatchSize, |chunks|);
      OwnsCons(chunks, responses);
      BatchesCons(chunks);
      RecordsPerChunk(chunks[m..], responses[1..]);
      Analyzer.SomesAppend(Block(chunks[..m], responses[0]), Owns(chunks[m..], responses[1..]));
      BlockAnswered(chunks[..m], responses[0]);
    }
  }

  // ---------------------------------------------------------------------------------
  // A failed batch shifts the source's pairing

  /** With 101 to 200 chunks, a first call that throws and a second that answers in full:
      the source stores the vector computed for chunk 100 under the text and location of
      chunk 0, while the paired records start with chunk 100 and leave chunk 0 out */
  lemma MisalignedAsWritten(chunks: seq<Chunk>, vs: seq<Vector>)
    requires BatchSize < |chunks| <= 2 * BatchSize && |vs| == |chunks| - BatchSize
    ensures |Batches(chunks)| == 2 && Batches(chunks)[1][0] == chunks[BatchSize]
    ensures RecordsAsWritten(chunks, [None, Some(vs)]).Some?
    ensures RecordsAsWritten(chunks, [None, Some(vs)]).value[0] == RecordOf(chunks[0], vs[0])
    ensures |Records(chunks, [None, Some(vs)])| == |vs|
    ensures Records(chunks, [None, Some(vs)])[0] == RecordOf(chunks[BatchSize], vs[0])
    ensures Own(chunks, [None, Some(vs)], 0) == None
  {
    var rs: seq<Response> := [None, Some(vs)];
    BatchesCons(chunks);
    BatchesCons(chunks[BatchSize..]);
    assert Batches(chunks[BatchSize..]) == [chunks[BatchSize..]];
    EmbeddingsCons(rs);
    EmbeddingsCons(rs[1..]);
    assert Embeddings(rs[1..][1..]) == [];
    var bs := Batches(chunks);
    assert bs == [chunks[..BatchSize], chunks[BatchSize..]];
    assert RecordsOf(bs[1..], rs[1..]) == Answered(chunks[BatchSize..], Some(vs)) + RecordsOf(bs[1..][1..], rs[1..][1..]);
  }
}
