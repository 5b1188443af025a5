/** `scripts/embed_chunks.py`: one embedding and one metadata record per
    chunk line, appended to two lists kept side by side. */
module EmbedChunks {
  import opened Results
  import opened Json
  import opened VectorStore

  /** The fields the loop reads with `chunk[...]`, in the order it reads them. */
  const Fields: seq<string> := ["text", "chunk_id", "quelle", "typ", "thema", "sprache"]

  predicate HasFields(c: Object)
  {
    forall f :: f in Fields ==> f in c
  }

  /** The `KeyError` a chunk raises: its first field, in reading order, that
      is absent. */
  function MissingField(c: Object): (key: Option<string>)
    ensures key.None? <==> HasFields(c)
    ensures key.Some? ==> key.value in Fields && key.value !in c
    ensures key.Some? ==> forall j :: 0 <= j < |Fields| && Fields[j] == key.value ==>
                            forall i :: 0 <= i < j ==> Fields[i] in c
  {
    if "text" !in c then Some("text")
    else if "chunk_id" !in c then Some("chunk_id")
    else if "quelle" !in c then Some("quelle")
    else if "typ" !in c then Some("typ")
    else if "thema" !in c then Some("thema")
    else if "sprache" !in c then Some("sprache")
    else None
  }

  /** Lines 26-32: the metadata record of a chunk. */
  function MetaOf(c: Object): (m: Object)
    requires HasFields(c)
    ensures m.Keys == {"chunk_id", "quelle", "typ", "thema", "sprache"}
    ensures "text" !in m && HasId(m)
    ensures forall k :: k in m ==> k in c && m[k] == c[k]
  {
    map["chunk_id" := c["chunk_id"], "quelle" := c["quelle"], "typ" := c["typ"],
        "thema" := c["thema"], "sprache" := c["sprache"]]
  }

  /** Why the loop stopped: the chunk at `index` lacks `key`. */
  datatype Failure = Failure(index: nat, key: string)

  /** Lines 17-32, with `chunks` the decoded lines of the chunk file and
      `encode` the sentence transformer: position `i` of both lists comes from
      chunk `i`; the first chunk missing a field ends the script before
      anything is written. */
  method EmbedAll(encode: Value -> Vector, chunks: seq<Object>)
    returns (r: Result<(seq<Vector>, seq<Object>), Failure>)
    ensures r.Ok? <==> forall i :: 0 <= i < |chunks| ==> HasFields(chunks[i])
    ensures r.Ok? ==>
      var (embeddings, metadaten) := r.value;
      && |embeddings| == |chunks| && |metadaten| == |chunks|
      && forall i :: 0 <= i < |chunks| ==>
           HasFields(chunks[i]) && embeddings[i] == encode(chunks[i]["text"]) && metadaten[i] == MetaOf(chunks[i])
    ensures r.Err? ==>
      && r.error.index < |chunks|
      && (forall i :: 0 <= i < r.error.index ==> HasFields(chunks[i]))
      && MissingField(chunks[r.error.index]) == Some(r.error.key)
  {
    var embeddings: seq<Vector> := [];
    var metadaten: seq<Object> := [];
    var i := 0;
    while i < |chunks|
      invariant i <= |chunks| && |embeddings| == i && |metadaten| == i
      invariant forall k :: 0 <= k < i ==>
        HasFields(chunks[k]) && embeddings[k] == encode(chunks[k]["text"]) && metadaten[k] == MetaOf(chunks[k])
    {
      var chunk := chunks[i];
      var missing := MissingField(chunk);
      if missing.Some? {
        return Err(Failure(i, missing.value));
      }
      embeddings := embeddings + [encode(chunk["text"])];
      metadaten := metadaten + [MetaOf(chunk)];
      i := i + 1;
    }
    return Ok((embeddings, metadaten));
  }
}
