/** How the scripts feed each other: `chunking_pipeline_V2.py` chunks both
    `extracted_sources.jsonl` and the output of `tranlate_sources.py`, and
    `chunks.py` ingests what `embed_chunks.py` wrote. */
module Pipeline {
  import opened Results
  import opened Json
  import opened ChunkRecords
  import opened SemanticChunking
  import opened TranslateSources
  import opened VectorStore
  import opened EmbedChunks
  import opened IngestPrecomputed

  lemma {:induction false} FileChunksAppend(segment: Segmenter, a: seq<Entry>, b: seq<Entry>)
    ensures FileChunks(segment, a + b) == FileChunks(segment, a) + FileChunks(segment, b)
    decreases |b|
  {
    if b != [] {
      var init := b[..|b| - 1];
      assert (a + b)[..|a + b| - 1] == a + init;
      assert (a + b)[|a + b| - 1] == b[|b| - 1];
      FileChunksAppend(segment, a, init);
      assert FileChunks(segment, a + b) == FileChunks(segment, a + init) + EntryChunks(segment, b[|b| - 1]);
      assert FileChunks(segment, b) == FileChunks(segment, init) + EntryChunks(segment, b[|b| - 1]);
    } else {
      assert a + b == a;
    }
  }

  /** The first record of entry `k` sits right after the records of the
      entries before it. */
  lemma FirstRecordOf(segment: Segmenter, entries: seq<Entry>, k: nat)
    requires k < |entries| && EntryChunks(segment, entries[k]) != []
    ensures |FileChunks(segment, entries[..k])| < |FileChunks(segment, entries)|
    ensures FileChunks(segment, entries)[|FileChunks(segment, entries[..k])|] == EntryChunks(segment, entries[k])[0]
  {
    assert entries == entries[..k + 1] + entries[k + 1..];
    FileChunksAppend(segment, entries[..k + 1], entries[k + 1..]);
    FileChunksPrefix(segment, entries, k);
  }

  /** Both input files of the chunker, when both exist. */
  lemma BothFiles(segment: Segmenter, a: seq<Entry>, b: seq<Entry>)
    ensures AllChunks(segment, [Some(a), Some(b)]) == FileChunks(segment, a) + FileChunks(segment, b)
  {
    assert [Some(a), Some(b)][..1] == [Some(a)];
    assert [Some(a)][..0] == [];
    assert AllChunks(segment, [Some(a)]) == FileChunks(segment, a);
  }

  /** Chunk ids are unique only within one entry: an entry that is not
      English passes the translation unchanged, so when it has any chunk the
      chunker, reading the original and the translated file, writes its
      records twice, ids included. */
  lemma RepeatedChunkIds(segment: Segmenter, translator: Translator, entries: seq<Entry>, translated: seq<Entry>, k: nat)
    requires |translated| == |entries|
    requires forall i :: 0 <= i < |entries| ==> Relabel(translator, entries[i]) == Some(translated[i])
    requires k < |entries| && !IsEnglish(entries[k]) && EntryChunks(segment, entries[k]) != []
    ensures var all := AllChunks(segment, [Some(entries), Some(translated)]);
      exists i, j :: 0 <= i < j < |all| && all[i].chunkId == all[j].chunkId
  {
    var all := AllChunks(segment, [Some(entries), Some(translated)]);
    var first, second := FileChunks(segment, entries), FileChunks(segment, translated);
    BothFiles(segment, entries, translated);
    assert all == first + second;
    RelabelMeaning(translator, entries[k]);
    assert translated[k] == entries[k];
    FirstRecordOf(segment, entries, k);
    FirstRecordOf(segment, translated, k);
    var i := |FileChunks(segment, entries[..k])|;
    var j := |FileChunks(segment, translated[..k])|;
    assert all[i] == first[i] && all[|first| + j] == second[j];
  }

  /** The metadata `embed_chunks.py` writes always carries a chunk id, so
      `chunks.py` ingesting it never stops on a missing id: it completes, or
      an `add` fails. */
  lemma EmbeddedChunksIngest(c0: map<string, seq<StoredEntry>>, nfkd: string -> string, chunks: seq<Object>,
                             embs: seq<Vector>, metas: seq<Object>, c1: map<string, seq<StoredEntry>>, o: Outcome)
    requires CollectionName in c0 && |embs| == |metas| == |chunks|
    requires forall i :: 0 <= i < |chunks| ==> HasFields(chunks[i]) && metas[i] == MetaOf(chunks[i])
    requires PlainAddedAs(c0, nfkd, embs, metas, c1, o)
    ensures o.Completed? || o.AddFailed?
  {
  }
}
