/** `store_embeddings` of Backend/Processing/store_embeddings.py: every
    embedding becomes one vector item with a fresh id and a metadata record
    whose missing fields take fixed defaults, and all items go to the
    user's namespace in one upsert. The vector-store client and its failures
    are left out; `uuid4()` is the `freshId` input (the id of the k-th item). */
module StoreEmbeddings {
  import opened Wrappers

  /** One embedding handed to `store_embeddings`: the vector and text are
      always there, the other keys may be missing. */
  datatype Embedding = Embedding(values: seq<real>, text: string, url: Option<string>,
                                 filename: Option<string>, chunkId: Option<int>, source: Option<string>,
                                 originalFilename: Option<string>, originalPath: Option<string>)

  datatype Metadata = Metadata(text: string, url: string, filename: string, chunkId: int, source: string,
                               originalFilename: string, originalPath: string, userId: string,
                               sessionId: string, itemType: string)

  datatype VectorItem = VectorItem(id: string, values: seq<real>, metadata: Metadata)

  /** The single upsert: its items and the namespace they go to. */
  datatype Upsert = Upsert(namespace: string, items: seq<VectorItem>)

  const EmbeddingType: string := "embedding"
  const UnknownSource: string := "unknown"
  const MissingChunkId: int := -1

  function MetadataOf(e: Embedding, userId: string, sessionId: string): (m: Metadata)
    ensures m.text == e.text && m.userId == userId && m.sessionId == sessionId
    ensures m.itemType == EmbeddingType
  {
    Metadata(e.text, e.url.GetOr(""), e.filename.GetOr(""), e.chunkId.GetOr(MissingChunkId),
             e.source.GetOr(UnknownSource), e.originalFilename.GetOr(""), e.originalPath.GetOr(""),
             userId, sessionId, EmbeddingType)
  }

  function Items(embeddings: seq<Embedding>, userId: string, sessionId: string, freshId: nat -> string, from: nat)
    : (items: seq<VectorItem>)
    ensures |items| == |embeddings|
    ensures forall k :: 0 <= k < |items| ==>
      items[k] == VectorItem(freshId(from + k), embeddings[k].values, MetadataOf(embeddings[k], userId, sessionId))
    decreases |embeddings|
  {
    if embeddings == [] then []
    else [VectorItem(freshId(from), embeddings[0].values, MetadataOf(embeddings[0], userId, sessionId))]
         + Items(embeddings[1..], userId, sessionId, freshId, from + 1)
  }

  /** `store_embeddings(embeddings, user_id, session_id)`. */
  function StoreEmbeddings(embeddings: seq<Embedding>, userId: string, sessionId: string,
                           freshId: nat -> string): Upsert {
    Upsert(userId, Items(embeddings, userId, sessionId, freshId, 0))
  }

  /** One item per embedding, in order, each with the k-th fresh id and the
      embedding's vector, sent to the user's namespace. */
  lemma OneItemPerEmbedding(embeddings: seq<Embedding>, userId: string, sessionId: string, freshId: nat -> string)
    ensures var u := StoreEmbeddings(embeddings, userId, sessionId, freshId);
      u.namespace == userId && |u.items| == |embeddings|
      && forall k :: 0 <= k < |u.items| ==>
           u.items[k].id == freshId(k) && u.items[k].values == embeddings[k].values
  {
  }

  /** Missing keys take their defaults; present ones are copied; the type is
      always "embedding" and the owner fields come from the arguments. */
  lemma MetadataDefaults(e: Embedding, userId: string, sessionId: string)
    ensures var m := MetadataOf(e, userId, sessionId);
      (e.url.None? ==> m.url == "") && (e.url.Some? ==> m.url == e.url.value)
      && (e.filename.None? ==> m.filename == "") && (e.filename.Some? ==> m.filename == e.filename.value)
      && (e.chunkId.None? ==> m.chunkId == -1) && (e.chunkId.Some? ==> m.chunkId == e.chunkId.value)
      && (e.source.None? ==> m.source == "unknown") && (e.source.Some? ==> m.source == e.source.value)
      && (e.originalFilename.None? ==> m.originalFilename == "")
      && (e.originalPath.None? ==> m.originalPath == "")
      && m.itemType == "embedding" && m.userId == userId && m.sessionId == sessionId
  {
  }

  /** Items are assembled one embedding at a time: storing two lists is
      storing their concatenation, with the second list's ids drawn after
      the first's. */
  lemma {:induction false} ItemsAppend(a: seq<Embedding>, b: seq<Embedding>, userId: string, sessionId: string,
                                       freshId: nat -> string, from: nat)
    ensures Items(a + b, userId, sessionId, freshId, from)
         == Items(a, userId, sessionId, freshId, from) + Items(b, userId, sessionId, freshId, from + |a|)
  {
    var whole := Items(a + b, userId, sessionId, freshId, from);
    var left := Items(a, userId, sessionId, freshId, from);
    var right := Items(b, userId, sessionId, freshId, from + |a|);
    assert |whole| == |left + right|;
    forall k | 0 <= k < |whole| ensures whole[k] == (left + right)[k] {
      if k < |a| {
        assert (a + b)[k] == a[k];
      } else {
        assert (a + b)[k] == b[k - |a|];
        assert from + k == from + |a| + (k - |a|);
      }
    }
  }
}
