/** What both chunkers share: the running state of the sentence-greedy loop,
    the chunk record written to `chunked_sources.jsonl`, and its identifier
    `{id}_{typ}_{nnn}`. */
module ChunkRecords {
  import opened Text

  /** A source entry as `json.loads` reads it from `extracted_sources.jsonl`:
      every field the extractor writes is a string. */
  type Entry = map<string, string>

  /** The loop state of a sentence-greedy chunker: the chunks emitted so far
      and the words of the chunk still being filled. */
  datatype Packing = Packing(chunks: seq<string>, current: seq<string>)

  /** After the loop: a non-empty running chunk is emitted, joined by single spaces. */
  function Finish(st: Packing): seq<string>
  {
    if st.current != [] then st.chunks + [Join(st.current, " ")] else st.chunks
  }

  /** One line of `chunked_sources.jsonl`. */
  datatype ChunkRecord = ChunkRecord(
    chunkId: string, quelle: string, typ: string, thema: string, sprache: string, text: string)

  /** `f"{id}_{typ}_{n:03}"`. */
  function ChunkId(id: string, typ: string, n: nat): (r: string)
    ensures StartsWith(r, id + "_" + typ + "_")
  {
    id + "_" + typ + "_" + Pad3(n)
  }

  /** Within one source entry (same id and typ) different sequence numbers
      give different chunk ids. */
  lemma ChunkIdInjective(id: string, typ: string, m: nat, n: nat)
    requires ChunkId(id, typ, m) == ChunkId(id, typ, n)
    ensures m == n
  {
    var p := id + "_" + typ + "_";
    assert ChunkId(id, typ, m)[|p|..] == Pad3(m);
    assert ChunkId(id, typ, n)[|p|..] == Pad3(n);
    Pad3Injective(m, n);
  }

  // ---- properties both chunkers establish, stated once --------------------

  /** `ws` are the words of one of the sentences in `done`. */
  ghost predicate FromOneSentence(ws: seq<string>, done: seq<string>)
  {
    exists j :: 0 <= j < |done| && Words(done[j]) == ws
  }

  /** Every chunk has at least one word. */
  ghost predicate NonEmptyChunks(chunks: seq<string>)
  {
    forall i :: 0 <= i < |chunks| ==> Words(chunks[i]) != []
  }

  /** Every chunk is a sentence taken as it is, or its own words joined by single spaces. */
  ghost predicate Shaped(chunks: seq<string>, done: seq<string>)
  {
    forall i :: 0 <= i < |chunks| ==> chunks[i] in done || chunks[i] == Join(Words(chunks[i]), " ")
  }

  lemma FromOneSentenceGrows(ws: seq<string>, done: seq<string>, s: string)
    requires FromOneSentence(ws, done)
    ensures FromOneSentence(ws, done + [s])
  {
    var j :| 0 <= j < |done| && Words(done[j]) == ws;
    assert (done + [s])[j] == done[j];
  }

  lemma LastSentence(done: seq<string>, s: string)
    ensures FromOneSentence(Words(s), done + [s])
  {
    assert (done + [s])[|done|] == s;
  }

  lemma NonEmptyAppend(chunks: seq<string>, c: string)
    requires NonEmptyChunks(chunks) && Words(c) != []
    ensures NonEmptyChunks(chunks + [c])
  {
    assert forall i :: 0 <= i < |chunks| ==> (chunks + [c])[i] == chunks[i];
  }

  lemma ShapedGrows(chunks: seq<string>, done: seq<string>, s: string)
    requires Shaped(chunks, done)
    ensures Shaped(chunks, done + [s])
  {
  }

  lemma ShapedAppend(chunks: seq<string>, c: string, done: seq<string>)
    requires Shaped(chunks, done)
    requires c in done || c == Join(Words(c), " ")
    ensures Shaped(chunks + [c], done)
  {
    assert forall i :: 0 <= i < |chunks| ==> (chunks + [c])[i] == chunks[i];
  }

  /** Sentence `j` of `done` is where chunk `i` begins: the chunks before `i`
      hold exactly the words of the sentences before `j`, and chunk `i` starts
      with sentence `j`'s words. */
  ghost predicate OpensChunk(chunks: seq<string>, done: seq<string>, i: int, j: int)
  {
    && 0 <= i < |chunks| && 0 <= j < |done|
    && WordsOf(chunks[..i]) == WordsOf(done[..j])
    && Words(done[j]) <= Words(chunks[i])
  }

  /** The same for the chunk still being filled: it starts with sentence `j`'s words. */
  ghost predicate OpensRunning(st: Packing, done: seq<string>, j: int)
  {
    && 0 <= j < |done|
    && WordsOf(st.chunks) == WordsOf(done[..j])
    && Words(done[j]) <= st.current
  }

  lemma OpensChunkGrows(chunks: seq<string>, done: seq<string>, s: string, i: int, j: int)
    requires OpensChunk(chunks, done, i, j)
    ensures OpensChunk(chunks, done + [s], i, j)
  {
    assert (done + [s])[..j] == done[..j];
  }

  lemma OpensChunkAppend(chunks: seq<string>, c: string, done: seq<string>, i: int, j: int)
    requires OpensChunk(chunks, done, i, j)
    ensures OpensChunk(chunks + [c], done, i, j)
  {
    assert (chunks + [c])[..i] == chunks[..i];
  }

  /** The running chunk grows by a sentence: it still starts where it did. */
  lemma OpensRunningGrows(st: Packing, done: seq<string>, s: string, j: int)
    requires OpensRunning(st, done, j)
    ensures OpensRunning(Packing(st.chunks, st.current + Words(s)), done + [s], j)
  {
    assert (done + [s])[..j] == done[..j];
  }

  /** The running chunk is emitted as `c`: it becomes the last chunk, begun by
      the same sentence. */
  lemma OpensEmitted(st: Packing, done: seq<string>, c: string, j: int)
    requires OpensRunning(st, done, j) && Words(c) == st.current
    ensures OpensChunk(st.chunks + [c], done, |st.chunks|, j)
  {
    assert (st.chunks + [c])[..|st.chunks|] == st.chunks;
  }

  /** With every earlier word emitted, sentence `s` begins what comes next:
      a running chunk `next` that starts with its words, or the chunk `s` itself. */
  lemma OpensFresh(chunks: seq<string>, done: seq<string>, s: string, next: seq<string>)
    requires WordsOf(chunks) == WordsOf(done) && Words(s) <= next
    ensures OpensRunning(Packing(chunks, next), done + [s], |done|)
    ensures OpensChunk(chunks + [s], done + [s], |chunks|, |done|)
  {
    assert (done + [s])[..|done|] == done;
    assert (chunks + [s])[..|chunks|] == chunks;
  }

  /** Chunks whose words are all gone are no chunks at all. */
  lemma NoWordsNoChunks(chunks: seq<string>)
    requires WordsOf(chunks) == [] && NonEmptyChunks(chunks)
    ensures chunks == []
  {
  }
}
