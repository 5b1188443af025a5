/** `scripts/chunking_pipeline_V2.py`: sentence-greedy chunking that counts
    words, and the pass that turns every source entry of the extracted and the
    translated file into chunk records.

    Sentence segmentation is spaCy's; here it is the `Segmenter` parameter,
    called with the pipeline that `tokenize_sentences` picks. */
module SemanticChunking {
  import opened Results
  import opened Text
  import opened Json
  import opened ChunkRecords

  /** `MAX_WORDS_PER_CHUNK`. */
  const MaxWordsPerChunk: int := 120

  /** The two spaCy pipelines loaded at start-up (`de_core_news_sm`, `en_core_web_sm`). */
  datatype SentenceModel = German | English

  /** spaCy's sentence segmentation with a given pipeline: `doc.sents` as texts. */
  type Segmenter = (string, SentenceModel) -> seq<string>

  /** The pipeline lookup of `tokenize_sentences`: the code is lower-cased and
      anything but "de" falls back to the English pipeline. */
  function ModelFor(langCode: string): (m: SentenceModel)
    ensures m == German <==> Lower(langCode) == "de"
    ensures Lower(langCode) == "en" ==> m == English
  {
    if Lower(langCode) == "de" then German else English
  }

  /** `tokenize_sentences`: the segmenter's sentences, each stripped. */
  function TokenizeSentences(segment: Segmenter, text: string, langCode: string): (ss: seq<string>)
    ensures |ss| == |segment(text, ModelFor(langCode))|
    ensures forall i :: 0 <= i < |ss| ==> ss[i] == Strip(segment(text, ModelFor(langCode))[i])
    ensures forall i :: 0 <= i < |ss| ==> ss[i] == [] || (!IsSpace(ss[i][0]) && !IsSpace(ss[i][|ss[i]| - 1]))
  {
    var raw := segment(text, ModelFor(langCode));
    seq(|raw|, i requires 0 <= i < |raw| => Strip(raw[i]))
  }

  // ---- the greedy loop of `chunk_text_semantic` ------------------------------

  /** One iteration of the loop: a sentence that would push the running chunk
      past `maxWords` closes it (or, when nothing is running, becomes a chunk
      of its own); otherwise its words join the running chunk. */
  function Step(st: Packing, sentence: string, maxWords: int): Packing
  {
    var sentenceWords := Words(sentence);
    if |st.current| + |sentenceWords| > maxWords then
      if st.current != [] then Packing(st.chunks + [Join(st.current, " ")], sentenceWords)
      else Packing(st.chunks + [sentence], [])
    else Packing(st.chunks, st.current + sentenceWords)
  }

  function PackFrom(st: Packing, sentences: seq<string>, maxWords: int): Packing
    decreases |sentences|
  {
    if sentences == [] then st else PackFrom(Step(st, sentences[0], maxWords), sentences[1..], maxWords)
  }

  /** The chunks `chunk_text_semantic` returns for a list of sentences. */
  function SemanticChunks(sentences: seq<string>, maxWords: int): seq<string>
  {
    Finish(PackFrom(Packing([], []), sentences, maxWords))
  }

  /** `chunk_text_semantic(text, lang_code, max_words)`. */
  method ChunkTextSemantic(segment: Segmenter, text: string, langCode: string, maxWords: int)
    returns (chunks: seq<string>)
    ensures chunks == SemanticChunks(TokenizeSentences(segment, text, langCode), maxWords)
  {
    var sentences := TokenizeSentences(segment, text, langCode);
    chunks := [];
    var currentChunk: seq<string> := [];
    var currentLen := 0;
    for k := 0 to |sentences|
      invariant currentLen == |currentChunk|
      invariant PackFrom(Packing(chunks, currentChunk), sentences[k..], maxWords)
             == PackFrom(Packing([], []), sentences, maxWords)
    {
      assert sentences[k..][1..] == sentences[k + 1..];
      var sentenceWords := Words(sentences[k]);
      var sentenceLen := |sentenceWords|;
      if currentLen + sentenceLen > maxWords {
        if currentChunk != [] {
          chunks := chunks + [Join(currentChunk, " ")];
          currentChunk := sentenceWords;
          currentLen := sentenceLen;
        } else {
          chunks := chunks + [sentences[k]];
          currentChunk := [];
          currentLen := 0;
        }
      } else {
        currentChunk := currentChunk + sentenceWords;
        currentLen := currentLen + sentenceLen;
      }
    }
    if currentChunk != [] {
      chunks := chunks + [Join(currentChunk, " ")];
    }
  }

  // ---- what the greedy loop guarantees --------------------------------------

  /** Every chunk over the limit holds the words of one sentence. */
  ghost predicate OversizedFromOne(chunks: seq<string>, done: seq<string>, maxWords: int)
  {
    forall i :: 0 <= i < |chunks| && |Words(chunks[i])| > maxWords ==> FromOneSentence(Words(chunks[i]), done)
  }

  /** No two neighbouring chunks fit together under the limit. */
  ghost predicate Neighbours(chunks: seq<string>, maxWords: int)
  {
    forall i :: 0 <= i < |chunks| - 1 ==> |Words(chunks[i])| + |Words(chunks[i + 1])| > maxWords
  }

  /** Every chunk after the first begins with a sentence whose words would
      have pushed the chunk before it past the limit. */
  ghost predicate Closed(chunks: seq<string>, done: seq<string>, maxWords: int)
  {
    forall i :: 0 <= i < |chunks| - 1 ==> ClosedAt(chunks, done, maxWords, i)
  }

  /** Chunk `i + 1` begins with a sentence that would have overflowed chunk `i`. */
  ghost predicate ClosedAt(chunks: seq<string>, done: seq<string>, maxWords: int, i: int)
    requires 0 <= i < |chunks|
  {
    exists j :: OpensChunk(chunks, done, i + 1, j) && |Words(chunks[i])| + |Words(done[j])| > maxWords
  }

  /** The properties of the finished chunk list. */
  ghost predicate ChunkProps(chunks: seq<string>, sentences: seq<string>, maxWords: int)
  {
    && WordsOf(chunks) == WordsOf(sentences)
    && (maxWords >= 0 ==> NonEmptyChunks(chunks))
    && OversizedFromOne(chunks, sentences, maxWords)
    && Neighbours(chunks, maxWords)
    && Closed(chunks, sentences, maxWords)
    && Shaped(chunks, sentences)
  }

  /** The loop invariant: the finished-chunk properties for what is emitted,
      plus what the running chunk contributes. */
  ghost predicate PackingInv(st: Packing, done: seq<string>, maxWords: int)
  {
    && WordsOf(st.chunks) + st.current == WordsOf(done)
    && AllWords(st.current)
    && (maxWords >= 0 ==> NonEmptyChunks(st.chunks))
    && OversizedFromOne(st.chunks, done, maxWords)
    && (st.current == [] || |st.current| <= maxWords || FromOneSentence(st.current, done))
    && Neighbours(st.chunks, maxWords)
    && (st.chunks != [] ==> |Words(st.chunks[|st.chunks| - 1])| + |st.current| > maxWords)
    && Shaped(st.chunks, done)
  }

  /** The second half of the loop invariant: the emitted chunks are `Closed`,
      and a running chunk after the last emitted one begins with a sentence
      that would have overflowed that one. */
  ghost predicate ClosedInv(st: Packing, done: seq<string>, maxWords: int)
  {
    && Closed(st.chunks, done, maxWords)
    && (st.chunks != [] && st.current != [] ==>
          exists j :: OpensRunning(st, done, j) && |Words(st.chunks[|st.chunks| - 1])| + |Words(done[j])| > maxWords)
  }

  lemma ClosedGrows(chunks: seq<string>, done: seq<string>, s: string, maxWords: int)
    requires Closed(chunks, done, maxWords)
    ensures Closed(chunks, done + [s], maxWords)
  {
    forall i | 0 <= i < |chunks| - 1
      ensures ClosedAt(chunks, done + [s], maxWords, i)
    {
      assert ClosedAt(chunks, done, maxWords, i);
      var j :| OpensChunk(chunks, done, i + 1, j) && |Words(chunks[i])| + |Words(done[j])| > maxWords;
      OpensChunkGrows(chunks, done, s, i + 1, j);
      assert (done + [s])[j] == done[j];
    }
  }

  /** Appending chunk `c`, begun by sentence `j` that overflows the last chunk. */
  lemma ClosedAppend(chunks: seq<string>, c: string, done: seq<string>, maxWords: int, j: int)
    requires Closed(chunks, done, maxWords)
    requires chunks != [] ==> OpensChunk(chunks + [c], done, |chunks|, j) && |Words(chunks[|chunks| - 1])| + |Words(done[j])| > maxWords
    ensures Closed(chunks + [c], done, maxWords)
  {
    var all := chunks + [c];
    forall i | 0 <= i < |all| - 1
      ensures ClosedAt(all, done, maxWords, i)
    {
      assert all[i] == chunks[i];
      if i + 1 < |chunks| {
        assert ClosedAt(chunks, done, maxWords, i);
        var k :| OpensChunk(chunks, done, i + 1, k) && |Words(chunks[i])| + |Words(done[k])| > maxWords;
        OpensChunkAppend(chunks, c, done, i + 1, k);
      } else {
        assert OpensChunk(all, done, i + 1, j);
      }
    }
  }

  /** The loop step keeps `ClosedInv`. */
  lemma StepKeepsClosed(st: Packing, done: seq<string>, s: string, maxWords: int)
    requires PackingInv(st, done, maxWords) && ClosedInv(st, done, maxWords)
    ensures ClosedInv(Step(st, s, maxWords), done + [s], maxWords)
  {
    var sw := Words(s);
    if |st.current| + |sw| > maxWords {
      if st.current != [] {
        var c := Join(st.current, " ");
        assert Step(st, s, maxWords) == Packing(st.chunks + [c], sw);
        WordsOfJoin(st.current);
        EmitKeepsClosed(st, done, s, maxWords, c);
      } else {
        assert Step(st, s, maxWords) == Packing(st.chunks + [s], []);
        assert WordsOf(st.chunks) + [] == WordsOf(st.chunks);
        RawKeepsClosed(st.chunks, done, s, maxWords);
      }
    } else {
      assert Step(st, s, maxWords) == Packing(st.chunks, st.current + sw);
      AbsorbKeepsClosed(st, done, s, maxWords);
    }
  }

  /** The running chunk is emitted as `c`; the sentence that did not fit begins the next one. */
  lemma EmitKeepsClosed(st: Packing, done: seq<string>, s: string, maxWords: int, c: string)
    requires ClosedInv(st, done, maxWords)
    requires WordsOf(st.chunks) + st.current == WordsOf(done)
    requires st.current != [] && Words(c) == st.current
    requires |st.current| + |Words(s)| > maxWords
    ensures ClosedInv(Packing(st.chunks + [c], Words(s)), done + [s], maxWords)
  {
    var done' := done + [s];
    var chunks' := st.chunks + [c];
    EmitAppendsClosed(st, done, s, maxWords, c);
    WordsOfAppend(st.chunks, c);
    OpensFresh(chunks', done, s, Words(s));
    assert done'[|done|] == s && chunks'[|chunks'| - 1] == c;
    assert |Words(c)| + |Words(s)| > maxWords;
  }

  /** The emitted chunk `c` begins with the sentence that began the running chunk. */
  lemma EmitAppendsClosed(st: Packing, done: seq<string>, s: string, maxWords: int, c: string)
    requires ClosedInv(st, done, maxWords)
    requires Words(c) == st.current && st.current != []
    ensures Closed(st.chunks + [c], done + [s], maxWords)
  {
    var done' := done + [s];
    ClosedGrows(st.chunks, done, s, maxWords);
    var j := 0;
    if st.chunks != [] {
      j :| OpensRunning(st, done, j) && |Words(st.chunks[|st.chunks| - 1])| + |Words(done[j])| > maxWords;
      OpensEmitted(st, done, c, j);
      OpensChunkGrows(st.chunks + [c], done, s, |st.chunks|, j);
      assert done'[j] == done[j];
    }
    ClosedAppend(st.chunks, c, done', maxWords, j);
  }


  /** Nothing running: an oversized sentence becomes a chunk of its own. */
  lemma RawKeepsClosed(chunks: seq<string>, done: seq<string>, s: string, maxWords: int)
    requires Closed(chunks, done, maxWords)
    requires WordsOf(chunks) == WordsOf(done)
    requires |Words(s)| > maxWords
    ensures ClosedInv(Packing(chunks + [s], []), done + [s], maxWords)
  {
    var done' := done + [s];
    ClosedGrows(chunks, done, s, maxWords);
    OpensFresh(chunks, done, s, Words(s));
    assert done'[|done|] == s;
    ClosedAppend(chunks, s, done', maxWords, |done|);
  }

  /** The sentence's words join the running chunk. */
  lemma AbsorbKeepsClosed(st: Packing, done: seq<string>, s: string, maxWords: int)
    requires ClosedInv(st, done, maxWords)
    requires WordsOf(st.chunks) + st.current == WordsOf(done)
    requires st.chunks != [] ==> |Words(st.chunks[|st.chunks| - 1])| + |st.current| > maxWords
    ensures ClosedInv(Packing(st.chunks, st.current + Words(s)), done + [s], maxWords)
  {
    var done' := done + [s];
    ClosedGrows(st.chunks, done, s, maxWords);
    if st.chunks != [] && st.current != [] {
      var j :| OpensRunning(st, done, j) && |Words(st.chunks[|st.chunks| - 1])| + |Words(done[j])| > maxWords;
      OpensRunningGrows(st, done, s, j);
      assert done'[j] == done[j];
    } else if st.chunks != [] {
      assert WordsOf(st.chunks) + [] == WordsOf(st.chunks);
      assert st.current + Words(s) == Words(s);
      OpensFresh(st.chunks, done, s, Words(s));
      assert done'[|done|] == s;
    }
  }

  lemma OversizedGrows(chunks: seq<string>, done: seq<string>, s: string, maxWords: int)
    requires OversizedFromOne(chunks, done, maxWords)
    ensures OversizedFromOne(chunks, done + [s], maxWords)
  {
    forall i | 0 <= i < |chunks| && |Words(chunks[i])| > maxWords
      ensures FromOneSentence(Words(chunks[i]), done + [s])
    {
      FromOneSentenceGrows(Words(chunks[i]), done, s);
    }
  }

  lemma OversizedAppend(chunks: seq<string>, c: string, done: seq<string>, maxWords: int)
    requires OversizedFromOne(chunks, done, maxWords)
    requires |Words(c)| > maxWords ==> FromOneSentence(Words(c), done)
    ensures OversizedFromOne(chunks + [c], done, maxWords)
  {
    assert forall i :: 0 <= i < |chunks| ==> (chunks + [c])[i] == chunks[i];
  }

  lemma NeighboursAppend(chunks: seq<string>, c: string, maxWords: int)
    requires Neighbours(chunks, maxWords)
    requires chunks != [] ==> |Words(chunks[|chunks| - 1])| + |Words(c)| > maxWords
    ensures Neighbours(chunks + [c], maxWords)
  {
    assert forall i :: 0 <= i < |chunks| ==> (chunks + [c])[i] == chunks[i];
  }

  lemma EmitKeepsWords(chunks: seq<string>, current: seq<string>, done: seq<string>, s: string, c: string, next: seq<string>)
    requires WordsOf(chunks) + current == WordsOf(done)
    requires current != [] ==> Words(c) == current && next == Words(s)
    requires current == [] ==> c == s && next == []
    ensures WordsOf(chunks + [c]) + next == WordsOf(done + [s])
  {
    WordsOfAppend(done, s);
    WordsOfAppend(chunks, c);
  }

  /** A chunk is emitted: either the running chunk `c == Join(current)`, which
      is replaced by the new sentence's words, or (nothing running) the
      oversized sentence itself. */
  lemma EmitKeepsInv(st: Packing, done: seq<string>, s: string, maxWords: int, c: string, next: seq<string>)
    requires PackingInv(st, done, maxWords)
    requires |st.current| + |Words(s)| > maxWords
    requires st.current != [] ==> Words(c) == st.current && c == Join(Words(c), " ") && next == Words(s)
    requires st.current == [] ==> c == s && next == []
    ensures PackingInv(Packing(st.chunks + [c], next), done + [s], maxWords)
  {
    var done' := done + [s];
    EmitKeepsWords(st.chunks, st.current, done, s, c, next);
    LastSentence(done, s);
    OversizedGrows(st.chunks, done, s, maxWords);
    ShapedGrows(st.chunks, done, s);
    if st.current != [] && |st.current| > maxWords {
      FromOneSentenceGrows(st.current, done, s);
    }
    assert st.current == [] ==> c in done';
    OversizedAppend(st.chunks, c, done', maxWords);
    NeighboursAppend(st.chunks, c, maxWords);
    ShapedAppend(st.chunks, c, done');
    if maxWords >= 0 {
      NonEmptyAppend(st.chunks, c);
    }
  }

  lemma StepKeepsInv(st: Packing, done: seq<string>, s: string, maxWords: int)
    requires PackingInv(st, done, maxWords)
    ensures PackingInv(Step(st, s, maxWords), done + [s], maxWords)
  {
    var sw := Words(s);
    if |st.current| + |sw| > maxWords {
      if st.current != [] {
        var c := Join(st.current, " ");
        assert Step(st, s, maxWords) == Packing(st.chunks + [c], sw);
        WordsOfJoin(st.current);
        EmitKeepsInv(st, done, s, maxWords, c, sw);
      } else {
        assert Step(st, s, maxWords) == Packing(st.chunks + [s], []);
        EmitKeepsInv(st, done, s, maxWords, s, []);
      }
    } else {
      assert Step(st, s, maxWords) == Packing(st.chunks, st.current + sw);
      AbsorbKeepsInv(st, done, s, maxWords);
    }
  }

  /** The sentence's words join the running chunk. */
  lemma AbsorbKeepsInv(st: Packing, done: seq<string>, s: string, maxWords: int)
    requires PackingInv(st, done, maxWords)
    requires |st.current| + |Words(s)| <= maxWords
    ensures PackingInv(Packing(st.chunks, st.current + Words(s)), done + [s], maxWords)
  {
    var sw := Words(s);
    WordsOfAppend(done, s);
    AppendAssoc(WordsOf(st.chunks), st.current, sw);
    OversizedGrows(st.chunks, done, s, maxWords);
    ShapedGrows(st.chunks, done, s);
  }

  lemma {:induction false} PackFromKeepsInv(st: Packing, done: seq<string>, rest: seq<string>, maxWords: int)
    requires PackingInv(st, done, maxWords) && ClosedInv(st, done, maxWords)
    ensures PackingInv(PackFrom(st, rest, maxWords), done + rest, maxWords)
    ensures ClosedInv(PackFrom(st, rest, maxWords), done + rest, maxWords)
    decreases |rest|
  {
    if rest == [] {
      assert done + rest == done;
    } else {
      AppendFirst(done, rest);
      StepKeepsInv(st, done, rest[0], maxWords);
      StepKeepsClosed(st, done, rest[0], maxWords);
      PackFromKeepsInv(Step(st, rest[0], maxWords), done + [rest[0]], rest[1..], maxWords);
    }
  }

  /** The last running chunk, emitted, begins with a sentence that overflowed the chunk before it. */
  lemma FinishClosed(st: Packing, done: seq<string>, maxWords: int)
    requires ClosedInv(st, done, maxWords) && AllWords(st.current)
    ensures Closed(Finish(st), done, maxWords)
  {
    if st.current != [] {
      var c := Join(st.current, " ");
      WordsOfJoin(st.current);
      var j := 0;
      if st.chunks != [] {
        j :| OpensRunning(st, done, j) && |Words(st.chunks[|st.chunks| - 1])| + |Words(done[j])| > maxWords;
        OpensEmitted(st, done, c, j);
      }
      ClosedAppend(st.chunks, c, done, maxWords, j);
    }
  }

  lemma FinishProps(st: Packing, done: seq<string>, maxWords: int)
    requires PackingInv(st, done, maxWords) && ClosedInv(st, done, maxWords)
    ensures ChunkProps(Finish(st), done, maxWords)
  {
    FinishClosed(st, done, maxWords);
    if st.current != [] {
      var c := Join(st.current, " ");
      WordsOfAppend(st.chunks, c);
      WordsOfJoin(st.current);
      OversizedAppend(st.chunks, c, done, maxWords);
      NeighboursAppend(st.chunks, c, maxWords);
      ShapedAppend(st.chunks, c, done);
      if maxWords >= 0 {
        NonEmptyAppend(st.chunks, c);
      }
    }
  }

  lemma SemanticChunksProps(sentences: seq<string>, maxWords: int)
    ensures ChunkProps(SemanticChunks(sentences, maxWords), sentences, maxWords)
  {
    var init := Packing([], []);
    PackFromKeepsInv(init, [], sentences, maxWords);
    assert [] + sentences == sentences;
    FinishProps(PackFrom(init, sentences, maxWords), sentences, maxWords);
  }

  /** The words of all chunks, in order, are the words of all sentences, in
      order: nothing is dropped, duplicated or reordered. */
  lemma ChunksKeepWords(sentences: seq<string>, maxWords: int)
    ensures WordsOf(SemanticChunks(sentences, maxWords)) == WordsOf(sentences)
  {
    SemanticChunksProps(sentences, maxWords);
  }

  /** No chunk is empty (for a non-negative limit). */
  lemma ChunksNonEmpty(sentences: seq<string>, maxWords: int)
    requires maxWords >= 0
    ensures forall c :: c in SemanticChunks(sentences, maxWords) ==> Words(c) != []
  {
    SemanticChunksProps(sentences, maxWords);
  }

  /** A chunk with more than `maxWords` words holds the words of exactly one
      sentence, and that sentence alone is over the limit. */
  lemma OversizedChunkIsOneSentence(sentences: seq<string>, maxWords: int, i: nat)
    requires i < |SemanticChunks(sentences, maxWords)|
    requires |Words(SemanticChunks(sentences, maxWords)[i])| > maxWords
    ensures exists j :: 0 <= j < |sentences| && Words(sentences[j]) == Words(SemanticChunks(sentences, maxWords)[i])
  {
    SemanticChunksProps(sentences, maxWords);
  }

  /** No two neighbouring chunks could have been one chunk. */
  lemma NeighboursOverflow(sentences: seq<string>, maxWords: int, i: nat)
    requires i + 1 < |SemanticChunks(sentences, maxWords)|
    ensures |Words(SemanticChunks(sentences, maxWords)[i])| + |Words(SemanticChunks(sentences, maxWords)[i + 1])| > maxWords
  {
    SemanticChunksProps(sentences, maxWords);
  }

  /** Greedy: a chunk is closed only by a sentence that would overflow it.
      Chunk `i + 1` begins with the words of some sentence `j` (all chunks
      before it hold exactly the words of the sentences before `j`), and
      chunk `i`'s words plus sentence `j`'s exceed the limit. */
  lemma ClosedByNextSentence(sentences: seq<string>, maxWords: int, i: nat)
    requires i + 1 < |SemanticChunks(sentences, maxWords)|
    ensures exists j :: OpensChunk(SemanticChunks(sentences, maxWords), sentences, i + 1, j)
                     && |Words(SemanticChunks(sentences, maxWords)[i])| + |Words(sentences[j])| > maxWords
  {
    var chunks := SemanticChunks(sentences, maxWords);
    SemanticChunksProps(sentences, maxWords);
    assert ClosedAt(chunks, sentences, maxWords, i);
  }

  /** `Closed` rules out a split that closes a chunk too early: for the
      sentences "a", "b", "c" and a limit of two words, the chunks "a" and
      "b c" are not closed properly, since "b" would still have fitted after "a". */
  lemma EarlyCloseExcluded()
    ensures !Closed(["a", "b c"], ["a", "b", "c"], 2)
  {
    var chunks := ["a", "b c"];
    var done := ["a", "b", "c"];
    ExampleWords();
    assert chunks[..1] == ["a"] && done[..2] == ["a", "b"];
    forall j | OpensChunk(chunks, done, 1, j)
      ensures |Words(chunks[0])| + |Words(done[j])| <= 2
    {
    }
    assert !ClosedAt(chunks, done, 2, 0);
  }

  /** The words of the strings in `EarlyCloseExcluded`. */
  lemma ExampleWords()
    ensures Words("a") == ["a"] && Words("b") == ["b"] && Words("b c") == ["b", "c"]
    ensures !(Words("a") <= Words("b c"))
    ensures WordsOf(["a"]) == ["a"] && |WordsOf(["a", "b"])| == 2
  {
    WordsOfWord("a");
    WordsOfWord("b");
    assert Join(["b", "c"], " ") == "b c";
    WordsOfJoin(["b", "c"]);
    assert "a"[0] != "b"[0];
    WordsOfAppend([], "a");
    WordsOfAppend(["a"], "b");
  }

  /** A chunk is either a sentence taken as it is (the oversized case) or its
      own words joined by single spaces. */
  lemma ChunkShape(sentences: seq<string>, maxWords: int)
    ensures forall c :: c in SemanticChunks(sentences, maxWords) ==> c in sentences || c == Join(Words(c), " ")
  {
    SemanticChunksProps(sentences, maxWords);
  }

  /** Sentences without any word (in particular no sentences at all) give no
      chunk; sentences with words give at least one. */
  lemma NoChunksIffNoWords(sentences: seq<string>, maxWords: int)
    requires maxWords >= 0
    ensures SemanticChunks(sentences, maxWords) == [] <==> WordsOf(sentences) == []
  {
    SemanticChunksProps(sentences, maxWords);
    var chunks := SemanticChunks(sentences, maxWords);
    if WordsOf(sentences) == [] {
      NoWordsNoChunks(chunks);
    }
  }

  // ---- `main`: chunk records for every entry of both input files ------------

  /** The record for the `i`-th chunk (0-based) of an entry (lines 79-86):
      id and typ fall back to "unk"/"undef" inside the chunk id, and to
      "unbekannt"/"unspezifiziert"/"" in the copied fields. */
  function Record(entry: Entry, sprache: string, i: nat, chunk: string): (r: ChunkRecord)
    ensures r.chunkId == ChunkId(Get(entry, "id", "unk"), Get(entry, "typ", "undef"), i + 1)
    ensures r.quelle == Get(entry, "quelle", "unbekannt") && r.typ == Get(entry, "typ", "unspezifiziert")
    ensures r.thema == Get(entry, "thema", "") && r.sprache == sprache && r.text == chunk
  {
    ChunkRecord(
      ChunkId(Get(entry, "id", "unk"), Get(entry, "typ", "undef"), i + 1),
      Get(entry, "quelle", "unbekannt"),
      Get(entry, "typ", "unspezifiziert"),
      Get(entry, "thema", ""),
      sprache,
      chunk)
  }

  function EntryRecords(entry: Entry, sprache: string, chunks: seq<string>): seq<ChunkRecord>
  {
    seq(|chunks|, i requires 0 <= i < |chunks| => Record(entry, sprache, i, chunks[i]))
  }

  /** The records one entry contributes: none for a blank text, otherwise one
      per chunk of its sentences (the language defaults to "en"). */
  function EntryChunks(segment: Segmenter, entry: Entry): seq<ChunkRecord>
  {
    var text := Get(entry, "text", "");
    var sprache := Get(entry, "sprache", "en");
    if Strip(text) == [] then []
    else EntryRecords(entry, sprache, SemanticChunks(TokenizeSentences(segment, text, sprache), MaxWordsPerChunk))
  }

  function FileChunks(segment: Segmenter, entries: seq<Entry>): seq<ChunkRecord>
  {
    if entries == [] then []
    else FileChunks(segment, entries[..|entries| - 1]) + EntryChunks(segment, entries[|entries| - 1])
  }

  /** `None` stands for an input file that does not exist (it is skipped). */
  function AllChunks(segment: Segmenter, files: seq<Option<seq<Entry>>>): seq<ChunkRecord>
  {
    if files == [] then []
    else
      var last := files[|files| - 1];
      AllChunks(segment, files[..|files| - 1]) + (if last.Some? then FileChunks(segment, last.value) else [])
  }

  /** The body of the entry loop (lines 69-86): the records of one entry. */
  method ChunkEntry(segment: Segmenter, entry: Entry) returns (records: seq<ChunkRecord>)
    ensures records == EntryChunks(segment, entry)
  {
    var text := Get(entry, "text", "");
    var sprache := Get(entry, "sprache", "en");
    if Strip(text) == [] {
      return [];
    }
    var chunks := ChunkTextSemantic(segment, text, sprache, MaxWordsPerChunk);
    records := RecordsFor(entry, sprache, chunks);
  }

  /** The innermost loop (lines 76-86): one record per chunk, numbered from 1. */
  method RecordsFor(entry: Entry, sprache: string, chunks: seq<string>) returns (records: seq<ChunkRecord>)
    ensures records == EntryRecords(entry, sprache, chunks)
  {
    records := [];
    for i := 0 to |chunks|
      invariant records == EntryRecords(entry, sprache, chunks)[..i]
    {
      records := records + [Record(entry, sprache, i, chunks[i])];
    }
  }

  lemma FileChunksPrefix(segment: Segmenter, entries: seq<Entry>, e: nat)
    requires e < |entries|
    ensures FileChunks(segment, entries[..e + 1]) == FileChunks(segment, entries[..e]) + EntryChunks(segment, entries[e])
  {
    var prefix := entries[..e + 1];
    assert prefix[..e] == entries[..e] && prefix[e] == entries[e];
  }

  /** The entry loop over one input file. */
  method ChunkFile(segment: Segmenter, entries: seq<Entry>) returns (records: seq<ChunkRecord>)
    ensures records == FileChunks(segment, entries)
  {
    records := [];
    for e := 0 to |entries|
      invariant records == FileChunks(segment, entries[..e])
    {
      FileChunksPrefix(segment, entries, e);
      var entryRecords := ChunkEntry(segment, entries[e]);
      records := records + entryRecords;
    }
    assert entries[..|entries|] == entries;
  }

  /** `main` without the file I/O: the records in the order they are written. */
  method ChunkSourceFiles(segment: Segmenter, files: seq<Option<seq<Entry>>>) returns (chunkedData: seq<ChunkRecord>)
    ensures chunkedData == AllChunks(segment, files)
  {
    chunkedData := [];
    for f := 0 to |files|
      invariant chunkedData == AllChunks(segment, files[..f])
    {
      assert files[..f + 1][..f] == files[..f];
      assert files[..f + 1][f] == files[f];
      if files[f].Some? {
        var records := ChunkFile(segment, files[f].value);
        chunkedData := chunkedData + records;
      }
    }
    assert files[..|files|] == files;
  }

  /** Chunk ids are unique within one entry. */
  lemma EntryChunkIdsDistinct(segment: Segmenter, entry: Entry, i: nat, j: nat)
    requires i < j < |EntryChunks(segment, entry)|
    ensures EntryChunks(segment, entry)[i].chunkId != EntryChunks(segment, entry)[j].chunkId
  {
    var text := Get(entry, "text", "");
    var sprache := Get(entry, "sprache", "en");
    var chunks := SemanticChunks(TokenizeSentences(segment, text, sprache), MaxWordsPerChunk);
    assert Strip(text) != [];
    assert EntryChunks(segment, entry) == EntryRecords(entry, sprache, chunks);
    RecordIdsDistinct(entry, sprache, chunks, i, j);
  }

  /** The records of one entry's chunks carry pairwise different ids. */
  lemma RecordIdsDistinct(entry: Entry, sprache: string, chunks: seq<string>, i: nat, j: nat)
    requires i < j < |chunks|
    ensures EntryRecords(entry, sprache, chunks)[i].chunkId != EntryRecords(entry, sprache, chunks)[j].chunkId
  {
    var id, typ := Get(entry, "id", "unk"), Get(entry, "typ", "undef");
    var a, b := ChunkId(id, typ, i + 1), ChunkId(id, typ, j + 1);
    assert EntryRecords(entry, sprache, chunks)[i].chunkId == a && EntryRecords(entry, sprache, chunks)[j].chunkId == b;
    if a == b {
      ChunkIdInjective(id, typ, i + 1, j + 1);
    }
  }

  /** An entry contributes no record exactly when its text is blank or its
      sentences hold no word. */
  lemma EntryWithoutChunks(segment: Segmenter, entry: Entry)
    ensures EntryChunks(segment, entry) == [] <==>
      (Strip(Get(entry, "text", "")) == []
       || WordsOf(TokenizeSentences(segment, Get(entry, "text", ""), Get(entry, "sprache", "en"))) == [])
  {
    var text := Get(entry, "text", "");
    var sprache := Get(entry, "sprache", "en");
    NoChunksIffNoWords(TokenizeSentences(segment, text, sprache), MaxWordsPerChunk);
  }
}
