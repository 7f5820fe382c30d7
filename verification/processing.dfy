/** `content_to_embeddings` of Backend/routes/processing.py: the chunk
    records are embedded batch by batch, each record paired with its vector
    into an entry that carries the record's fields and its source-specific
    metadata, and the entries are handed to the vector store. The chunk
    records are the input (what `read_and_chunk_files` returned); the
    embedding model and the store are inputs too. Any exception becomes an
    `{"error": ...}` answer.

    As written, the route calls `store_embeddings` with the entries alone,
    while the imported function also requires the user and session ids: the
    call always raises, so the route never reports success
    (`AsWrittenNeverSucceeds`). `ContentToEmbeddings` passes the owner ids,
    which is evidently what was meant. */
module Processing {
  import opened Wrappers
  import opened Sorting
  import opened ReadAndChunk
  import opened StoreEmbeddings

  const NoContentMessage: string := "No content found in parsed_files. Please ingest content first."
  const ZeroStepMessage: string := "range() arg 3 must not be zero"
  const ArityMessage: string :=
    "store_embeddings() missing 2 required positional arguments: 'user_id' and 'session_id'"

  function Min(a: int, b: int): int { if a <= b then a else b }

  // ---------------------------------------------------------------- batches

  /** `[s[i:i + size] for i in range(0, len(s), size)]`. */
  function Batches<T>(s: seq<T>, size: nat): (bs: seq<seq<T>>)
    requires size >= 1
    ensures forall k :: 0 <= k < |bs| ==> 1 <= |bs[k]| <= size
    decreases |s|
  {
    if s == [] then []
    else [s[..Min(size, |s|)]] + Batches(s[Min(size, |s|)..], size)
  }

  function Concat<T>(bs: seq<seq<T>>): seq<T> {
    if bs == [] then [] else bs[0] + Concat(bs[1..])
  }

  /** The batches are consecutive and cover the input in order. */
  lemma {:induction false} BatchesCover<T>(s: seq<T>, size: nat)
    requires size >= 1
    ensures Concat(Batches(s, size)) == s
    decreases |s|
  {
    if s != [] {
      var n := Min(size, |s|);
      BatchesCover(s[n..], size);
      assert ([s[..n]] + Batches(s[n..], size))[1..] == Batches(s[n..], size);
      assert s[..n] + s[n..] == s;
    }
  }

  /** Every batch but the last is full. */
  lemma {:induction false} BatchesFull<T>(s: seq<T>, size: nat)
    requires size >= 1
    ensures forall k :: 0 <= k < |Batches(s, size)| - 1 ==> |Batches(s, size)[k]| == size
    decreases |s|
  {
    if s != [] {
      var n := Min(size, |s|);
      var rest := Batches(s[n..], size);
      BatchesFull(s[n..], size);
      var bs := Batches(s, size);
      assert bs == [s[..n]] + rest;
      forall k | 0 <= k < |bs| - 1 ensures |bs[k]| == size {
        if k > 0 {
          assert bs[k] == rest[k - 1];
        } else {
          assert rest != [];
        }
      }
    }
  }

  // ---------------------------------------------------------------- entries

  /** The entry of one record and its vector: the record's fields, plus the
      url for a youtube record or the original file's name and path for a
      pdf record. */
  function EntryOf(c: ChunkRecord, vector: seq<real>): (e: Embedding)
    ensures e.url.Some? <==> c.source == "youtube"
    ensures e.originalFilename.Some? <==> c.source == "pdf"
    ensures e.originalPath.Some? <==> c.source == "pdf"
    ensures e.text == c.text && e.chunkId == Some(c.chunkId as int)
    ensures e.filename == Some(c.filename) && e.source == Some(c.source)
  {
    var youtube := c.source == "youtube";
    var pdf := !youtube && c.source == "pdf";
    Embedding(vector, c.text,
              if youtube then Some(c.url.GetOr("")) else None,
              Some(c.filename), Some(c.chunkId as int), Some(c.source),
              if pdf then Some(c.originalFilename.GetOr("")) else None,
              if pdf then Some(c.originalPath.GetOr("")) else None)
  }

  /** `zip(batch, vectors)`: pairs up to the shorter of the two. */
  function ZipEntries(batch: seq<ChunkRecord>, vectors: seq<seq<real>>): (es: seq<Embedding>)
    ensures |es| == Min(|batch|, |vectors|)
    ensures forall k :: 0 <= k < |es| ==> es[k] == EntryOf(batch[k], vectors[k])
  {
    if batch == [] || vectors == [] then []
    else [EntryOf(batch[0], vectors[0])] + ZipEntries(batch[1..], vectors[1..])
  }

  function TextOf(c: ChunkRecord): string { c.text }

  /** The embedding model: the vectors for a list of texts, or its failure. */
  type Embedder = seq<string> -> Result<seq<seq<real>>>

  /** Embeds the batches in order; the first failure stops the loop. */
  function EmbedAll(batches: seq<seq<ChunkRecord>>, embed: Embedder): Result<seq<Embedding>> {
    if batches == [] then Ok([])
    else
      match embed(Map(TextOf, batches[0]))
      case Err(e) => Err(e)
      case Ok(vectors) =>
        match EmbedAll(batches[1..], embed)
        case Err(e) => Err(e)
        case Ok(rest) => Ok(ZipEntries(batches[0], vectors) + rest)
  }

  /** A model that answers every request with one vector per text. */
  ghost predicate OneVectorPerText(embed: Embedder) {
    forall texts :: embed(texts).Ok? && |embed(texts).value| == |texts|
  }

  /** Entry k belongs to record k. */
  predicate EntriesFor(es: seq<Embedding>, cs: seq<ChunkRecord>) {
    |es| == |cs| && forall k :: 0 <= k < |es| ==> es[k] == EntryOf(cs[k], es[k].values)
  }

  lemma EntriesForAppend(e1: seq<Embedding>, c1: seq<ChunkRecord>, e2: seq<Embedding>, c2: seq<ChunkRecord>)
    requires EntriesFor(e1, c1) && EntriesFor(e2, c2)
    ensures EntriesFor(e1 + e2, c1 + c2)
  {
    forall k | 0 <= k < |e1 + e2| ensures (e1 + e2)[k] == EntryOf((c1 + c2)[k], (e1 + e2)[k].values) {
      if k >= |e1| {
        assert (e1 + e2)[k] == e2[k - |e1|] && (c1 + c2)[k] == c2[k - |e1|];
      }
    }
  }

  /** With a model that returns one vector per text, every record gets its
      entry, in order. */
  lemma {:induction false} EmbedAllEntries(batches: seq<seq<ChunkRecord>>, embed: Embedder)
    requires OneVectorPerText(embed)
    ensures EmbedAll(batches, embed).Ok?
    ensures EntriesFor(EmbedAll(batches, embed).value, Concat(batches))
    decreases |batches|
  {
    if batches != [] {
      var vectors := embed(Map(TextOf, batches[0])).value;
      EmbedAllEntries(batches[1..], embed);
      var here := ZipEntries(batches[0], vectors);
      assert EntriesFor(here, batches[0]);
      EntriesForAppend(here, batches[0], EmbedAll(batches[1..], embed).value, Concat(batches[1..]));
    }
  }

  /** A model that returns fewer vectors than texts loses the unmatched
      records of that batch. */
  lemma ZipStopsAtShorter(batch: seq<ChunkRecord>, vectors: seq<seq<real>>)
    requires |vectors| < |batch|
    ensures |ZipEntries(batch, vectors)| == |vectors|
  {
  }

  // ---------------------------------------------------------------- the route

  /** An entry as shown in `sample_chunk`: every key but the vector. */
  datatype Sample = Sample(chunkId: Option<int>, filename: Option<string>, source: Option<string>, text: string,
                           url: Option<string>, originalFilename: Option<string>, originalPath: Option<string>)

  function SampleOf(e: Embedding): Sample {
    Sample(e.chunkId, e.filename, e.source, e.text, e.url, e.originalFilename, e.originalPath)
  }

  datatype Outcome =
    | ErrorDict(error: string)
    | Processed(numChunks: nat, sourcesProcessed: set<string>, sampleChunk: Option<Sample>)

  function Sources(chunks: seq<ChunkRecord>): set<string> {
    set k | 0 <= k < |chunks| :: chunks[k].source
  }

  /** The route with the store call as a parameter: `store` is what the
      store call does with the entries. */
  function Pipeline(chunks: seq<ChunkRecord>, batchSize: int, embed: Embedder,
                    store: seq<Embedding> -> Result<()>): Outcome
  {
    if chunks == [] then ErrorDict(NoContentMessage)
    else if batchSize == 0 then ErrorDict(ZeroStepMessage)
    else
      var entries := if batchSize < 0 then Ok([]) else EmbedAll(Batches(chunks, batchSize), embed);
      match entries
      case Err(e) => ErrorDict(e)
      case Ok(es) =>
        match store(es)
        case Err(e) => ErrorDict(e)
        case Ok(_) =>
          Processed(|es|, Sources(chunks), if es != [] then Some(SampleOf(es[0])) else None)
  }

  /** The route as written: the one-argument store call raises a TypeError. */
  function ContentToEmbeddingsAsWritten(chunks: seq<ChunkRecord>, batchSize: int, embed: Embedder): Outcome {
    Pipeline(chunks, batchSize, embed, (es: seq<Embedding>) => Err(ArityMessage))
  }

  /** The route with the owner ids passed on; `upsert` is the vector store's
      answer to the upsert request. */
  function ContentToEmbeddings(chunks: seq<ChunkRecord>, batchSize: int, embed: Embedder,
                               userId: string, sessionId: string, freshId: nat -> string,
                               upsert: Upsert -> Result<()>): Outcome {
    Pipeline(chunks, batchSize, embed,
             (es: seq<Embedding>) => upsert(StoreEmbeddings.StoreEmbeddings(es, userId, sessionId, freshId)))
  }

  /** As written, the route never succeeds on any content; when the model
      answers, the error is the arity mismatch. */
  lemma AsWrittenNeverSucceeds(chunks: seq<ChunkRecord>, batchSize: int, embed: Embedder)
    ensures ContentToEmbeddingsAsWritten(chunks, batchSize, embed).ErrorDict?
    ensures chunks != [] && batchSize >= 1 && OneVectorPerText(embed) ==>
      ContentToEmbeddingsAsWritten(chunks, batchSize, embed) == ErrorDict(ArityMessage)
  {
    if chunks != [] && batchSize >= 1 && OneVectorPerText(embed) {
      EmbedAllEntries(Batches(chunks, batchSize), embed);
    }
  }

  /** Without content the answer is the error and nothing is stored: the
      store is never consulted. */
  lemma NoChunksNoStore(batchSize: int, embed: Embedder, s1: seq<Embedding> -> Result<()>,
                        s2: seq<Embedding> -> Result<()>)
    ensures Pipeline([], batchSize, embed, s1) == Pipeline([], batchSize, embed, s2) == ErrorDict(NoContentMessage)
  {
  }

  /** With the owner ids passed, a model answering every batch and a store
      accepting the upsert, every record is stored: the count is the number
      of records, the sources are the records' sources, and the sample is
      the first record's entry. */
  lemma CorrectedStoresEverything(chunks: seq<ChunkRecord>, batchSize: int, embed: Embedder,
                                  userId: string, sessionId: string, freshId: nat -> string,
                                  upsert: Upsert -> Result<()>)
    requires chunks != [] && batchSize >= 1 && OneVectorPerText(embed)
    requires forall u :: upsert(u).Ok?
    ensures var r := ContentToEmbeddings(chunks, batchSize, embed, userId, sessionId, freshId, upsert);
      r.Processed? && r.numChunks == |chunks| && r.sourcesProcessed == Sources(chunks)
      && r.sampleChunk.Some? && r.sampleChunk.value.text == chunks[0].text
      && r.sampleChunk.value.chunkId == Some(chunks[0].chunkId as int)
  {
    var bs := Batches(chunks, batchSize);
    EmbedAllEntries(bs, embed);
    BatchesCover(chunks, batchSize);
    var es := EmbedAll(bs, embed).value;
    assert |es| == |chunks|;
    assert es[0] == EntryOf(chunks[0], es[0].values);
    assert upsert(StoreEmbeddings.StoreEmbeddings(es, userId, sessionId, freshId)).Ok?;
    assert ContentToEmbeddings(chunks, batchSize, embed, userId, sessionId, freshId, upsert)
        == Processed(|es|, Sources(chunks), Some(SampleOf(es[0])));
  }
}
