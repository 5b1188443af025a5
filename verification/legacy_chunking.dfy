/** `scripts/chunk_texts.py`: the earlier chunker. Sentences are cut with the
    regular expression `(?<=[.!?]) +` and packed greedily while the running
    chunk, joined by single spaces, stays within `max_words` CHARACTERS (the
    parameter's name notwithstanding, the test is on `len` of a string). */
module LegacyChunking {
  import opened Results
  import opened Text
  import opened ChunkRecords

  /** The default of `chunk_text`'s `max_words`. */
  const DefaultMaxLength: int := 300

  // ---- `re.split(r'(?<=[.!?]) +', text)` --------------------------------------

  predicate IsTerminal(c: char)
  {
    c == '.' || c == '!' || c == '?'
  }

  /** The pattern matches at `i`: the character before is a sentence mark and
      a space (U+0020 only) follows. */
  predicate BreakAt(t: string, i: int)
  {
    0 < i < |t| && IsTerminal(t[i - 1]) && t[i] == ' '
  }

  /** The leftmost match at or after `from`. */
  function FirstBreak(t: string, from: nat): (r: Option<nat>)
    ensures r.Some? ==> from <= r.value < |t| && BreakAt(t, r.value)
    ensures r.Some? ==> forall k :: from <= k < r.value ==> !BreakAt(t, k)
    ensures r.None? ==> forall k :: from <= k < |t| ==> !BreakAt(t, k)
    decreases |t| - from
  {
    if from >= |t| then None
    else if BreakAt(t, from) then Some(from)
    else FirstBreak(t, from + 1)
  }

  /** The end of the run of spaces that `" +"` consumes greedily from `i`. */
  function SpaceRunEnd(t: string, i: nat): (j: nat)
    requires i <= |t|
    ensures i <= j <= |t|
    ensures forall k :: i <= k < j ==> t[k] == ' '
    ensures j < |t| ==> t[j] != ' '
    decreases |t| - i
  {
    if i < |t| && t[i] == ' ' then SpaceRunEnd(t, i + 1) else i
  }

  /** The pieces `re.split` returns: the text is cut at every match and the
      matched spaces are dropped. The search resumes after a match, where the
      look-behind sees a space, so the rest is split on its own. */
  function SplitSentences(t: string): (parts: seq<string>)
    ensures parts != []
    decreases |t|
  {
    match FirstBreak(t, 0)
    case None => [t]
    case Some(i) => [t[..i]] + SplitSentences(t[SpaceRunEnd(t, i)..])
  }

  /** No piece contains a place where the pattern would match. */
  ghost predicate NoBreak(p: string)
  {
    forall k :: !BreakAt(p, k)
  }

  lemma DropSpaces(spaces: string, rest: string)
    requires forall k :: 0 <= k < |spaces| ==> spaces[k] == ' '
    ensures Words(spaces + rest) == Words(rest)
  {
    SpacesHaveNoWords(spaces);
    WordsAppend(spaces, rest);
  }

  /** Splitting keeps every word of the text, in order: only spaces are dropped. */
  lemma {:induction false} SplitKeepsWords(t: string)
    ensures WordsOf(SplitSentences(t)) == Words(t)
    decreases |t|
  {
    match FirstBreak(t, 0)
    case None =>
      assert SplitSentences(t) == [] + [t];
      WordsOfAppend([], t);
    case Some(i) =>
      var j := SpaceRunEnd(t, i);
      SplitKeepsWords(t[j..]);
      SplitAtBreakWords(t, i, j, SplitSentences(t[j..]));
  }

  lemma SplitAtBreakWords(t: string, i: nat, j: nat, restParts: seq<string>)
    requires 0 < i < j <= |t| && t[i] == ' '
    requires forall k :: i <= k < j ==> t[k] == ' '
    requires WordsOf(restParts) == Words(t[j..])
    ensures WordsOf([t[..i]] + restParts) == Words(t)
  {
    var rest := t[j..];
    var tail := t[i..j] + rest;
    WordsOfCons(t[..i], restParts);
    assert t == t[..i] + tail;
    assert tail[0] == ' ';
    WordsAppend(t[..i], tail);
    DropSpaces(t[i..j], rest);
  }

  /** The runs of spaces `re.split` drops, one between each two pieces. */
  function SplitGaps(t: string): (gaps: seq<string>)
    decreases |t|
  {
    match FirstBreak(t, 0)
    case None => []
    case Some(i) => [t[i..SpaceRunEnd(t, i)]] + SplitGaps(t[SpaceRunEnd(t, i)..])
  }

  /** `parts[0] + gaps[0] + parts[1] + ... + parts[|parts| - 1]`. */
  function Interleave(parts: seq<string>, gaps: seq<string>): string
    requires |gaps| + 1 == |parts|
    decreases |gaps|
  {
    if gaps == [] then parts[0] else parts[0] + gaps[0] + Interleave(parts[1..], gaps[1..])
  }

  /** Every piece but the last is non-empty and ends with a sentence mark, and
      no piece contains a further match; the text is the pieces with, between
      each two, the non-empty run of spaces that was dropped, and that run is
      the whole run: the next piece does not start with a space. */
  lemma SplitPiecesShape(t: string)
    ensures forall k :: 0 <= k < |SplitSentences(t)| - 1 ==>
      SplitSentences(t)[k] != [] && IsTerminal(SplitSentences(t)[k][|SplitSentences(t)[k]| - 1])
    ensures forall k :: 0 <= k < |SplitSentences(t)| ==> NoBreak(SplitSentences(t)[k])
    ensures |SplitGaps(t)| + 1 == |SplitSentences(t)|
    ensures forall k :: 0 <= k < |SplitGaps(t)| ==> SplitGaps(t)[k] != []
    ensures forall k, m :: 0 <= k < |SplitGaps(t)| && 0 <= m < |SplitGaps(t)[k]| ==> SplitGaps(t)[k][m] == ' '
    ensures Interleave(SplitSentences(t), SplitGaps(t)) == t
    ensures forall k :: 1 <= k < |SplitSentences(t)| ==> SplitSentences(t)[k] == [] || SplitSentences(t)[k][0] != ' '
  {
    SplitPiecesEnd(t);
    SplitGapsShape(t);
    SplitRejoins(t);
    SplitPiecesStart(t);
  }

  /** The first piece is a prefix of the text. */
  lemma FirstPieceIsPrefix(t: string)
    ensures SplitSentences(t)[0] <= t
  {
    match FirstBreak(t, 0)
    case None =>
    case Some(i) =>
      assert SplitSentences(t)[0] == t[..i];
  }

  /** `" +"` takes the whole run of spaces: no piece after a cut starts with a space. */
  lemma {:induction false} SplitPiecesStart(t: string)
    ensures forall k :: 1 <= k < |SplitSentences(t)| ==> SplitSentences(t)[k] == [] || SplitSentences(t)[k][0] != ' '
    decreases |t|
  {
    match FirstBreak(t, 0)
    case None =>
    case Some(i) =>
      var j := SpaceRunEnd(t, i);
      var rest := t[j..];
      SplitPiecesStart(rest);
      FirstPieceIsPrefix(rest);
      var parts, restParts := SplitSentences(t), SplitSentences(rest);
      assert parts == [t[..i]] + restParts;
      assert forall k :: 1 <= k < |parts| ==> parts[k] == restParts[k - 1];
      assert restParts[0] != [] ==> restParts[0][0] == rest[0] && rest[0] == t[j];
  }

  lemma {:induction false} SplitPiecesEnd(t: string)
    ensures forall k :: 0 <= k < |SplitSentences(t)| - 1 ==>
      SplitSentences(t)[k] != [] && IsTerminal(SplitSentences(t)[k][|SplitSentences(t)[k]| - 1])
    ensures forall k :: 0 <= k < |SplitSentences(t)| ==> NoBreak(SplitSentences(t)[k])
    decreases |t|
  {
    match FirstBreak(t, 0)
    case None =>
    case Some(i) =>
      var rest := t[SpaceRunEnd(t, i)..];
      SplitPiecesEnd(rest);
      var parts := SplitSentences(t);
      assert parts == [t[..i]] + SplitSentences(rest);
      assert forall k :: 1 <= k < |parts| ==> parts[k] == SplitSentences(rest)[k - 1];
      forall k | 0 <= k
        ensures !BreakAt(t[..i], k)
      {
        if BreakAt(t[..i], k) {
          assert BreakAt(t, k);
        }
      }
  }

  lemma {:induction false} SplitGapsShape(t: string)
    ensures |SplitGaps(t)| + 1 == |SplitSentences(t)|
    ensures forall k :: 0 <= k < |SplitGaps(t)| ==> SplitGaps(t)[k] != []
    ensures forall k, m :: 0 <= k < |SplitGaps(t)| && 0 <= m < |SplitGaps(t)[k]| ==> SplitGaps(t)[k][m] == ' '
    decreases |t|
  {
    match FirstBreak(t, 0)
    case None =>
    case Some(i) =>
      var j := SpaceRunEnd(t, i);
      var rest := t[j..];
      SplitGapsShape(rest);
      var gaps, restGaps := SplitGaps(t), SplitGaps(rest);
      assert gaps == [t[i..j]] + restGaps;
      assert forall k :: 1 <= k < |gaps| ==> gaps[k] == restGaps[k - 1];
  }

  lemma {:induction false} SplitRejoins(t: string)
    ensures |SplitGaps(t)| + 1 == |SplitSentences(t)|
    ensures Interleave(SplitSentences(t), SplitGaps(t)) == t
    decreases |t|
  {
    SplitGapsShape(t);
    match FirstBreak(t, 0)
    case None =>
    case Some(i) =>
      var j := SpaceRunEnd(t, i);
      var rest := t[j..];
      SplitRejoins(rest);
      var parts, gaps := SplitSentences(t), SplitGaps(t);
      assert parts[0] == t[..i] && parts[1..] == SplitSentences(rest);
      assert gaps[0] == t[i..j] && gaps[1..] == SplitGaps(rest);
      assert t == t[..i] + t[i..j] + rest;
  }

  // ---- the greedy loop of `chunk_text` ----------------------------------------

  /** One iteration: a sentence that would make the joined running chunk longer
      than `maxLength` characters closes it (or, with nothing running, is
      emitted as it is); otherwise its words join the running chunk. */
  function Step(st: Packing, sentence: string, maxLength: int): Packing
  {
    var words := Words(sentence);
    if |Join(st.current + words, " ")| > maxLength then
      if st.current != [] then Packing(st.chunks + [Join(st.current, " ")], words)
      else Packing(st.chunks + [sentence], st.current)
    else Packing(st.chunks, st.current + words)
  }

  function PackFrom(st: Packing, sentences: seq<string>, maxLength: int): Packing
    decreases |sentences|
  {
    if sentences == [] then st else PackFrom(Step(st, sentences[0], maxLength), sentences[1..], maxLength)
  }

  /** The chunks of a list of sentences. */
  function PackSentences(sentences: seq<string>, maxLength: int): seq<string>
  {
    Finish(PackFrom(Packing([], []), sentences, maxLength))
  }

  /** The chunks `chunk_text(text, max_words)` returns. */
  function LegacyChunks(text: string, maxLength: int): seq<string>
  {
    PackSentences(SplitSentences(text), maxLength)
  }

  /** `chunk_text(text, max_words)`. */
  method ChunkText(text: string, maxLength: int) returns (chunks: seq<string>)
    ensures chunks == LegacyChunks(text, maxLength)
  {
    var sentences := SplitSentences(text);
    chunks := [];
    var current: seq<string> := [];
    for k := 0 to |sentences|
      invariant PackFrom(Packing(chunks, current), sentences[k..], maxLength)
             == PackFrom(Packing([], []), sentences, maxLength)
    {
      assert sentences[k..][1..] == sentences[k + 1..];
      var words := Words(sentences[k]);
      if |Join(current + words, " ")| > maxLength {
        if current != [] {
          chunks := chunks + [Join(current, " ")];
          current := words;
        } else {
          chunks := chunks + [sentences[k]];
        }
      } else {
        current := current + words;
      }
    }
    if current != [] {
      chunks := chunks + [Join(current, " ")];
    }
  }

  // ---- what the greedy loop guarantees ----------------------------------------

  /** Every chunk whose words, joined, exceed the limit holds one sentence's words. */
  ghost predicate OversizedFromOne(chunks: seq<string>, done: seq<string>, maxLength: int)
  {
    forall i :: 0 <= i < |chunks| && |Join(Words(chunks[i]), " ")| > maxLength ==>
      FromOneSentence(Words(chunks[i]), done)
  }

  /** The words of `a` and then `b`, joined, exceed the limit. */
  ghost predicate Overflow(a: string, b: string, maxLength: int)
  {
    |Join(Words(a) + Words(b), " ")| > maxLength
  }

  /** No two neighbouring chunks, joined, fit under the limit. */
  ghost predicate Neighbours(chunks: seq<string>, maxLength: int)
  {
    forall i :: 0 <= i < |chunks| - 1 ==> Overflow(chunks[i], chunks[i + 1], maxLength)
  }

  /** Every chunk after the first begins with a sentence whose words, joined
      after the chunk before it, would have exceeded the limit. */
  ghost predicate Closed(chunks: seq<string>, done: seq<string>, maxLength: int)
  {
    forall i :: 0 <= i < |chunks| - 1 ==> ClosedAt(chunks, done, maxLength, i)
  }

  /** Chunk `i + 1` begins with a sentence that would have overflowed chunk `i`. */
  ghost predicate ClosedAt(chunks: seq<string>, done: seq<string>, maxLength: int, i: int)
    requires 0 <= i < |chunks|
  {
    exists j :: OpensChunk(chunks, done, i + 1, j) && Overflow(chunks[i], done[j], maxLength)
  }

  ghost predicate ChunkProps(chunks: seq<string>, sentences: seq<string>, maxLength: int)
  {
    && WordsOf(chunks) == WordsOf(sentences)
    && (maxLength >= 0 ==> NonEmptyChunks(chunks))
    && OversizedFromOne(chunks, sentences, maxLength)
    && Neighbours(chunks, maxLength)
    && Closed(chunks, sentences, maxLength)
    && Shaped(chunks, sentences)
  }

  ghost predicate PackingInv(st: Packing, done: seq<string>, maxLength: int)
  {
    && WordsOf(st.chunks) + st.current == WordsOf(done)
    && AllWords(st.current)
    && (maxLength >= 0 ==> NonEmptyChunks(st.chunks))
    && OversizedFromOne(st.chunks, done, maxLength)
    && (st.current == [] || |Join(st.current, " ")| <= maxLength || FromOneSentence(st.current, done))
    && Neighbours(st.chunks, maxLength)
    && (st.chunks != [] ==> |Join(Words(st.chunks[|st.chunks| - 1]) + st.current, " ")| > maxLength)
    && Shaped(st.chunks, done)
  }

  /** The second half of the loop invariant: the emitted chunks are `Closed`,
      and a running chunk after the last emitted one begins with a sentence
      that would have overflowed that one. */
  ghost predicate ClosedInv(st: Packing, done: seq<string>, maxLength: int)
  {
    && Closed(st.chunks, done, maxLength)
    && (st.chunks != [] && st.current != [] ==>
          exists j :: OpensRunning(st, done, j) && Overflow(st.chunks[|st.chunks| - 1], done[j], maxLength))
  }

  lemma ClosedGrows(chunks: seq<string>, done: seq<string>, s: string, maxLength: int)
    requires Closed(chunks, done, maxLength)
    ensures Closed(chunks, done + [s], maxLength)
  {
    forall i | 0 <= i < |chunks| - 1
      ensures ClosedAt(chunks, done + [s], maxLength, i)
    {
      assert ClosedAt(chunks, done, maxLength, i);
      var j :| OpensChunk(chunks, done, i + 1, j) && Overflow(chunks[i], done[j], maxLength);
      OpensChunkGrows(chunks, done, s, i + 1, j);
      assert (done + [s])[j] == done[j];
    }
  }

  /** Appending chunk `c`, begun by sentence `j` that overflows the last chunk. */
  lemma ClosedAppend(chunks: seq<string>, c: string, done: seq<string>, maxLength: int, j: int)
    requires Closed(chunks, done, maxLength)
    requires chunks != [] ==> OpensChunk(chunks + [c], done, |chunks|, j) && Overflow(chunks[|chunks| - 1], done[j], maxLength)
    ensures Closed(chunks + [c], done, maxLength)
  {
    var all := chunks + [c];
    forall i | 0 <= i < |all| - 1
      ensures ClosedAt(all, done, maxLength, i)
    {
      assert all[i] == chunks[i];
      if i + 1 < |chunks| {
        assert ClosedAt(chunks, done, maxLength, i);
        var k :| OpensChunk(chunks, done, i + 1, k) && Overflow(chunks[i], done[k], maxLength);
        OpensChunkAppend(chunks, c, done, i + 1, k);
      } else {
        assert OpensChunk(all, done, i + 1, j);
      }
    }
  }

  /** The loop step keeps `ClosedInv`. */
  lemma StepKeepsClosed(st: Packing, done: seq<string>, s: string, maxLength: int)
    requires ClosedInv(st, done, maxLength)
    requires WordsOf(st.chunks) + st.current == WordsOf(done) && AllWords(st.current)
    requires st.chunks != [] ==> |Join(Words(st.chunks[|st.chunks| - 1]) + st.current, " ")| > maxLength
    ensures ClosedInv(Step(st, s, maxLength), done + [s], maxLength)
  {
    var words := Words(s);
    if |Join(st.current + words, " ")| > maxLength {
      if st.current != [] {
        var c := Join(st.current, " ");
        assert Step(st, s, maxLength) == Packing(st.chunks + [c], words);
        WordsOfJoin(st.current);
        EmitKeepsClosed(st, done, s, maxLength, c);
      } else {
        assert Step(st, s, maxLength) == Packing(st.chunks + [s], []);
        assert WordsOf(st.chunks) + [] == WordsOf(st.chunks);
        LastOverflowWhenRaw(st.chunks, s, maxLength);
        RawKeepsClosed(st.chunks, done, s, maxLength);
      }
    } else {
      assert Step(st, s, maxLength) == Packing(st.chunks, st.current + words);
      if st.current == [] {
        LastOverflowWhenRaw(st.chunks, s, maxLength);
      }
      AbsorbKeepsClosed(st, done, s, maxLength);
    }
  }

  /** The running chunk is emitted as `c`; the sentence that did not fit begins the next one. */
  lemma EmitKeepsClosed(st: Packing, done: seq<string>, s: string, maxLength: int, c: string)
    requires ClosedInv(st, done, maxLength)
    requires WordsOf(st.chunks) + st.current == WordsOf(done)
    requires st.current != [] && Words(c) == st.current
    requires |Join(st.current + Words(s), " ")| > maxLength
    ensures ClosedInv(Packing(st.chunks + [c], Words(s)), done + [s], maxLength)
  {
    var done' := done + [s];
    var chunks' := st.chunks + [c];
    EmitAppendsClosed(st, done, s, maxLength, c);
    WordsOfAppend(st.chunks, c);
    OpensFresh(chunks', done, s, Words(s));
    assert done'[|done|] == s && chunks'[|chunks'| - 1] == c;
    assert Overflow(c, s, maxLength);
  }

  /** The emitted chunk `c` begins with the sentence that began the running chunk. */
  lemma EmitAppendsClosed(st: Packing, done: seq<string>, s: string, maxLength: int, c: string)
    requires ClosedInv(st, done, maxLength)
    requires Words(c) == st.current && st.current != []
    ensures Closed(st.chunks + [c], done + [s], maxLength)
  {
    var done' := done + [s];
    ClosedGrows(st.chunks, done, s, maxLength);
    var j := 0;
    if st.chunks != [] {
      j :| OpensRunning(st, done, j) && Overflow(st.chunks[|st.chunks| - 1], done[j], maxLength);
      OpensEmitted(st, done, c, j);
      OpensChunkGrows(st.chunks + [c], done, s, |st.chunks|, j);
      assert done'[j] == done[j];
    }
    ClosedAppend(st.chunks, c, done', maxLength, j);
  }


  /** Nothing running: a sentence too long by itself becomes a chunk of its own. */
  lemma RawKeepsClosed(chunks: seq<string>, done: seq<string>, s: string, maxLength: int)
    requires Closed(chunks, done, maxLength)
    requires WordsOf(chunks) == WordsOf(done)
    requires chunks != [] ==> Overflow(chunks[|chunks| - 1], s, maxLength)
    ensures ClosedInv(Packing(chunks + [s], []), done + [s], maxLength)
  {
    var done' := done + [s];
    ClosedGrows(chunks, done, s, maxLength);
    OpensFresh(chunks, done, s, Words(s));
    assert done'[|done|] == s;
    ClosedAppend(chunks, s, done', maxLength, |done|);
  }

  /** The sentence's words join the running chunk. */
  lemma AbsorbKeepsClosed(st: Packing, done: seq<string>, s: string, maxLength: int)
    requires ClosedInv(st, done, maxLength)
    requires WordsOf(st.chunks) + st.current == WordsOf(done)
    requires st.chunks != [] && st.current == [] ==> Overflow(st.chunks[|st.chunks| - 1], s, maxLength)
    ensures ClosedInv(Packing(st.chunks, st.current + Words(s)), done + [s], maxLength)
  {
    var done' := done + [s];
    ClosedGrows(st.chunks, done, s, maxLength);
    if st.chunks != [] && st.current != [] {
      var j :| OpensRunning(st, done, j) && Overflow(st.chunks[|st.chunks| - 1], done[j], maxLength);
      OpensRunningGrows(st, done, s, j);
      assert done'[j] == done[j];
    } else if st.chunks != [] {
      assert WordsOf(st.chunks) + [] == WordsOf(st.chunks);
      assert st.current + Words(s) == Words(s);
      OpensFresh(st.chunks, done, s, Words(s));
      assert done'[|done|] == s;
    }
  }

  /** The last running chunk, emitted, begins with a sentence that overflowed the chunk before it. */
  lemma FinishClosed(st: Packing, done: seq<string>, maxLength: int)
    requires ClosedInv(st, done, maxLength) && AllWords(st.current)
    ensures Closed(Finish(st), done, maxLength)
  {
    if st.current != [] {
      var c := Join(st.current, " ");
      WordsOfJoin(st.current);
      var j := 0;
      if st.chunks != [] {
        j :| OpensRunning(st, done, j) && Overflow(st.chunks[|st.chunks| - 1], done[j], maxLength);
        OpensEmitted(st, done, c, j);
      }
      ClosedAppend(st.chunks, c, done, maxLength, j);
    }
  }

  lemma OversizedGrows(chunks: seq<string>, done: seq<string>, s: string, maxLength: int)
    requires OversizedFromOne(chunks, done, maxLength)
    ensures OversizedFromOne(chunks, done + [s], maxLength)
  {
    forall i | 0 <= i < |chunks| && |Join(Words(chunks[i]), " ")| > maxLength
      ensures FromOneSentence(Words(chunks[i]), done + [s])
    {
      FromOneSentenceGrows(Words(chunks[i]), done, s);
    }
  }

  lemma OversizedAppend(chunks: seq<string>, c: string, done: seq<string>, maxLength: int)
    requires OversizedFromOne(chunks, done, maxLength)
    requires |Join(Words(c), " ")| > maxLength ==> FromOneSentence(Words(c), done)
    ensures OversizedFromOne(chunks + [c], done, maxLength)
  {
    assert forall i :: 0 <= i < |chunks| ==> (chunks + [c])[i] == chunks[i];
  }

  lemma NeighboursAppend(chunks: seq<string>, c: string, maxLength: int)
    requires Neighbours(chunks, maxLength)
    requires chunks != [] ==> Overflow(chunks[|chunks| - 1], c, maxLength)
    ensures Neighbours(chunks + [c], maxLength)
  {
    var all := chunks + [c];
    forall i | 0 <= i < |all| - 1
      ensures Overflow(all[i], all[i + 1], maxLength)
    {
      assert all[i] == chunks[i];
      if i + 1 < |chunks| {
        assert all[i + 1] == chunks[i + 1];
      } else {
        assert all[i + 1] == c;
      }
    }
  }

  lemma EmitKeepsWords(chunks: seq<string>, current: seq<string>, done: seq<string>, s: string, c: string, next: seq<string>)
    requires WordsOf(chunks) + current == WordsOf(done)
    requires current != [] ==> Words(c) == current && next == Words(s)
    requires current == [] ==> c == s && next == []
    ensures WordsOf(chunks + [c]) + next == WordsOf(done + [s])
  {
    WordsOfAppend(done, s);
    WordsOfAppend(chunks, c);
  }

  /** The running chunk's words, joined, overflow together with the last chunk's. */
  lemma LastOverflowWhenRaw(chunks: seq<string>, s: string, maxLength: int)
    requires chunks != [] ==> |Join(Words(chunks[|chunks| - 1]) + [], " ")| > maxLength
    ensures chunks != [] ==> |Join(Words(chunks[|chunks| - 1]) + Words(s), " ")| > maxLength
  {
    if chunks != [] {
      var w := Words(chunks[|chunks| - 1]);
      assert w + [] == w;
      JoinGrows(w, Words(s), " ");
    }
  }

  /** A chunk is emitted: the running chunk `c` (then `next` is the sentence's
      words) or, with nothing running, the sentence itself. */
  lemma EmitKeepsInv(st: Packing, done: seq<string>, s: string, maxLength: int, c: string, next: seq<string>)
    requires PackingInv(st, done, maxLength)
    requires |Join(st.current + Words(s), " ")| > maxLength
    requires st.current != [] ==> Words(c) == st.current && c == Join(Words(c), " ") && next == Words(s)
    requires st.current == [] ==> c == s && next == []
    ensures PackingInv(Packing(st.chunks + [c], next), done + [s], maxLength)
  {
    var done' := done + [s];
    EmitKeepsWords(st.chunks, st.current, done, s, c, next);
    LastSentence(done, s);
    OversizedGrows(st.chunks, done, s, maxLength);
    ShapedGrows(st.chunks, done, s);
    if st.current != [] {
      if |Join(st.current, " ")| > maxLength {
        FromOneSentenceGrows(st.current, done, s);
      }
    } else {
      assert c in done';
      assert [] + Words(s) == Words(s);
      assert Words(s) + [] == Words(s);
    }
    OversizedAppend(st.chunks, c, done', maxLength);
    EmitNeighbours(st, s, maxLength, c);
    ShapedAppend(st.chunks, c, done');
    if maxLength >= 0 {
      NonEmptyAppend(st.chunks, c);
    }
  }

  /** The emitted chunk overflows together with the one before it. */
  lemma EmitNeighbours(st: Packing, s: string, maxLength: int, c: string)
    requires Neighbours(st.chunks, maxLength)
    requires st.chunks != [] ==> |Join(Words(st.chunks[|st.chunks| - 1]) + st.current, " ")| > maxLength
    requires st.current != [] ==> Words(c) == st.current
    requires st.current == [] ==> c == s
    ensures Neighbours(st.chunks + [c], maxLength)
  {
    if st.current == [] {
      LastOverflowWhenRaw(st.chunks, s, maxLength);
    }
    NeighboursAppend(st.chunks, c, maxLength);
  }

  lemma LastOverflowWhenExtended(w: seq<string>, current: seq<string>, words: seq<string>, maxLength: int)
    requires |Join(w + current, " ")| > maxLength
    ensures |Join(w + (current + words), " ")| > maxLength
  {
    JoinGrows(w + current, words, " ");
    assert w + current + words == w + (current + words);
  }

  lemma ExtendKeepsWords(chunks: seq<string>, current: seq<string>, done: seq<string>, s: string)
    requires WordsOf(chunks) + current == WordsOf(done)
    ensures WordsOf(chunks) + (current + Words(s)) == WordsOf(done + [s])
  {
    WordsOfAppend(done, s);
    AppendAssoc(WordsOf(chunks), current, Words(s));
  }

  lemma ExtendKeepsInv(st: Packing, done: seq<string>, s: string, maxLength: int)
    requires PackingInv(st, done, maxLength)
    requires |Join(st.current + Words(s), " ")| <= maxLength
    ensures PackingInv(Packing(st.chunks, st.current + Words(s)), done + [s], maxLength)
  {
    var next := st.current + Words(s);
    ExtendKeepsWords(st.chunks, st.current, done, s);
    OversizedGrows(st.chunks, done, s, maxLength);
    ShapedGrows(st.chunks, done, s);
    if st.chunks != [] {
      LastOverflowWhenExtended(Words(st.chunks[|st.chunks| - 1]), st.current, Words(s), maxLength);
    }
  }

  lemma StepKeepsInv(st: Packing, done: seq<string>, s: string, maxLength: int)
    requires PackingInv(st, done, maxLength)
    ensures PackingInv(Step(st, s, maxLength), done + [s], maxLength)
  {
    var words := Words(s);
    if |Join(st.current + words, " ")| > maxLength {
      if st.current != [] {
        WordsOfJoin(st.current);
        EmitKeepsInv(st, done, s, maxLength, Join(st.current, " "), words);
      } else {
        EmitKeepsInv(st, done, s, maxLength, s, []);
      }
    } else {
      ExtendKeepsInv(st, done, s, maxLength);
    }
  }

  lemma {:induction false} PackFromKeepsInv(st: Packing, done: seq<string>, rest: seq<string>, maxLength: int)
    requires PackingInv(st, done, maxLength) && ClosedInv(st, done, maxLength)
    ensures PackingInv(PackFrom(st, rest, maxLength), done + rest, maxLength)
    ensures ClosedInv(PackFrom(st, rest, maxLength), done + rest, maxLength)
    decreases |rest|
  {
    if rest == [] {
      assert done + rest == done;
    } else {
      AppendFirst(done, rest);
      StepKeepsInv(st, done, rest[0], maxLength);
      StepKeepsClosed(st, done, rest[0], maxLength);
      PackFromKeepsInv(Step(st, rest[0], maxLength), done + [rest[0]], rest[1..], maxLength);
    }
  }

  lemma FinishProps(st: Packing, done: seq<string>, maxLength: int)
    requires PackingInv(st, done, maxLength) && ClosedInv(st, done, maxLength)
    ensures ChunkProps(Finish(st), done, maxLength)
  {
    FinishClosed(st, done, maxLength);
    FinishKeepsInv(st, done, maxLength);
  }

  /** Flushing `current` keeps every clause of `ChunkProps` but `Closed`. */
  lemma FinishKeepsInv(st: Packing, done: seq<string>, maxLength: int)
    requires PackingInv(st, done, maxLength)
    ensures WordsOf(Finish(st)) == WordsOf(done)
    ensures maxLength >= 0 ==> NonEmptyChunks(Finish(st))
    ensures OversizedFromOne(Finish(st), done, maxLength)
    ensures Neighbours(Finish(st), maxLength)
    ensures Shaped(Finish(st), done)
  {
    if st.current != [] {
      var c := Join(st.current, " ");
      WordsOfAppend(st.chunks, c);
      WordsOfJoin(st.current);
      OversizedAppend(st.chunks, c, done, maxLength);
      NeighboursAppend(st.chunks, c, maxLength);
      ShapedAppend(st.chunks, c, done);
      if maxLength >= 0 {
        NonEmptyAppend(st.chunks, c);
      }
    }
  }

  lemma PackSentencesProps(sentences: seq<string>, maxLength: int)
    ensures ChunkProps(PackSentences(sentences, maxLength), sentences, maxLength)
  {
    var init := Packing([], []);
    PackFromKeepsInv(init, [], sentences, maxLength);
    assert [] + sentences == sentences;
    FinishProps(PackFrom(init, sentences, maxLength), sentences, maxLength);
  }

  /** The chunks hold the words of the text, in order, nothing dropped or repeated. */
  lemma ChunksKeepWords(text: string, maxLength: int)
    ensures WordsOf(LegacyChunks(text, maxLength)) == Words(text)
  {
    PackSentencesProps(SplitSentences(text), maxLength);
    SplitKeepsWords(text);
  }

  /** Every chunk is at most `maxLength` characters long, unless it holds the
      words of a single sentence that is over the limit by itself. */
  lemma ChunkLengthBound(text: string, maxLength: int, i: nat)
    requires i < |LegacyChunks(text, maxLength)|
    ensures |LegacyChunks(text, maxLength)[i]| <= maxLength
         || FromOneSentence(Words(LegacyChunks(text, maxLength)[i]), SplitSentences(text))
  {
    var sentences := SplitSentences(text);
    PackSentencesProps(sentences, maxLength);
    var c := LegacyChunks(text, maxLength)[i];
    if c in sentences {
      var j :| 0 <= j < |sentences| && sentences[j] == c;
      assert Words(sentences[j]) == Words(c);
    }
  }

  /** No chunk is empty, and no two neighbours would have fitted together. */
  lemma ChunksNonEmptyAndGreedy(text: string, maxLength: int)
    requires maxLength >= 0
    ensures forall c :: c in LegacyChunks(text, maxLength) ==> Words(c) != []
    ensures Neighbours(LegacyChunks(text, maxLength), maxLength)
  {
    PackSentencesProps(SplitSentences(text), maxLength);
  }

  /** Greedy: a chunk is closed only by a sentence that would overflow it.
      Chunk `i + 1` begins with the words of some sentence `j` (all chunks
      before it hold exactly the words of the sentences before `j`), and
      chunk `i`'s words followed by sentence `j`'s, joined, exceed the limit. */
  lemma ClosedByNextSentence(text: string, maxLength: int, i: nat)
    requires i + 1 < |LegacyChunks(text, maxLength)|
    ensures exists j :: OpensChunk(LegacyChunks(text, maxLength), SplitSentences(text), i + 1, j)
                     && |Join(Words(LegacyChunks(text, maxLength)[i]) + Words(SplitSentences(text)[j]), " ")| > maxLength
  {
    var chunks := LegacyChunks(text, maxLength);
    PackSentencesProps(SplitSentences(text), maxLength);
    assert ClosedAt(chunks, SplitSentences(text), maxLength, i);
  }

  /** A text without words (empty or blank) gives no chunk, any other text at
      least one. */
  lemma NoChunksIffBlank(text: string, maxLength: int)
    requires maxLength >= 0
    ensures LegacyChunks(text, maxLength) == [] <==> Words(text) == []
  {
    ChunksKeepWords(text, maxLength);
    PackSentencesProps(SplitSentences(text), maxLength);
    if Words(text) == [] {
      NoWordsNoChunks(LegacyChunks(text, maxLength));
    }
  }

  // ---- `main`: records, with Python's `KeyError` on a missing field ------------

  /** The fields `main` subscripts for every chunk, in the order it does so:
      the first one missing aborts the run. */
  function MissingRecordKey(entry: Entry): (r: Option<string>)
    ensures r.None? <==> "id" in entry && "typ" in entry && "quelle" in entry && "thema" in entry && "sprache" in entry
    ensures r.Some? ==> r.value !in entry
    ensures r == Some("typ") ==> "id" in entry
    ensures r == Some("quelle") ==> "id" in entry && "typ" in entry
    ensures r == Some("thema") ==> "id" in entry && "typ" in entry && "quelle" in entry
    ensures r == Some("sprache") ==> "id" in entry && "typ" in entry && "quelle" in entry && "thema" in entry
  {
    if "id" !in entry then Some("id")
    else if "typ" !in entry then Some("typ")
    else if "quelle" !in entry then Some("quelle")
    else if "thema" !in entry then Some("thema")
    else if "sprache" !in entry then Some("sprache")
    else None
  }

  function Record(entry: Entry, i: nat, chunk: string): (r: ChunkRecord)
    requires MissingRecordKey(entry).None?
    ensures r.chunkId == ChunkId(entry["id"], entry["typ"], i + 1) && r.text == chunk
    ensures r.quelle == entry["quelle"] && r.typ == entry["typ"] && r.thema == entry["thema"] && r.sprache == entry["sprache"]
  {
    ChunkRecord(ChunkId(entry["id"], entry["typ"], i + 1), entry["quelle"], entry["typ"], entry["thema"], entry["sprache"], chunk)
  }

  /** The records of one entry, or the name of the key whose absence raises
      `KeyError`: "text" first; the others only once there is a chunk. */
  function EntryRecords(entry: Entry): Result<seq<ChunkRecord>, string>
  {
    if "text" !in entry then Err("text")
    else
      var chunks := LegacyChunks(entry["text"], DefaultMaxLength);
      if chunks == [] then Ok([])
      else if MissingRecordKey(entry).Some? then Err(MissingRecordKey(entry).value)
      else Ok(RecordsOf(entry, chunks))
  }

  function RecordsOf(entry: Entry, chunks: seq<string>): seq<ChunkRecord>
    requires MissingRecordKey(entry).None?
  {
    seq(|chunks|, i requires 0 <= i < |chunks| => Record(entry, i, chunks[i]))
  }

  /** The loop over the chunks of one entry (lines 42-50). */
  method RecordsFor(entry: Entry, chunks: seq<string>) returns (records: seq<ChunkRecord>)
    requires MissingRecordKey(entry).None?
    ensures records == RecordsOf(entry, chunks)
  {
    records := [];
    for i := 0 to |chunks|
      invariant records == RecordsOf(entry, chunks)[..i]
    {
      records := records + [Record(entry, i, chunks[i])];
    }
  }

  /** The whole run: the first `KeyError` ends it and nothing is written. */
  function FileRecords(entries: seq<Entry>): Result<seq<ChunkRecord>, string>
  {
    if entries == [] then Ok([])
    else
      match FileRecords(entries[..|entries| - 1])
      case Err(e) => Err(e)
      case Ok(before) =>
        match EntryRecords(entries[|entries| - 1])
        case Err(e) => Err(e)
        case Ok(rs) => Ok(before + rs)
  }

  /** `main` without the file I/O. */
  method ChunkSources(entries: seq<Entry>) returns (r: Result<seq<ChunkRecord>, string>)
    ensures r == FileRecords(entries)
  {
    var chunkedData: seq<ChunkRecord> := [];
    for e := 0 to |entries|
      invariant FileRecords(entries[..e]) == Ok(chunkedData)
    {
      var entry := entries[e];
      FileRecordsPrefix(entries, e);
      if "text" !in entry {
        FileRecordsErr(entries, e + 1);
        return Err("text");
      }
      var chunks := ChunkText(entry["text"], DefaultMaxLength);
      var missing := MissingRecordKey(entry);
      if chunks != [] && missing.Some? {
        FileRecordsErr(entries, e + 1);
        return Err(missing.value);
      }
      if chunks != [] {
        var records := RecordsFor(entry, chunks);
        chunkedData := chunkedData + records;
      } else {
        assert chunkedData + [] == chunkedData;
      }
    }
    assert entries[..|entries|] == entries;
    return Ok(chunkedData);
  }

  lemma FileRecordsPrefix(entries: seq<Entry>, e: nat)
    requires e < |entries|
    ensures FileRecords(entries[..e + 1]) ==
      match FileRecords(entries[..e])
      case Err(err) => Err(err)
      case Ok(before) =>
        match EntryRecords(entries[e])
        case Err(err) => Err(err)
        case Ok(rs) => Ok(before + rs)
  {
    assert entries[..e + 1][..e] == entries[..e];
    assert entries[..e + 1][e] == entries[e];
  }

  /** An error in the first `n` entries is the error of the whole run. */
  lemma {:induction false} FileRecordsErr(entries: seq<Entry>, n: nat)
    requires n <= |entries| && FileRecords(entries[..n]).Err?
    ensures FileRecords(entries) == FileRecords(entries[..n])
    decreases |entries| - n
  {
    if n < |entries| {
      assert entries[..n + 1][..n] == entries[..n];
      FileRecordsErr(entries, n + 1);
    } else {
      assert entries[..n] == entries;
    }
  }

  /** A completed run means every entry had a text, and every entry that has
      chunks had all the record fields. */
  lemma {:induction false} CompletedRunHadFields(entries: seq<Entry>, k: nat)
    requires FileRecords(entries).Ok? && k < |entries|
    ensures "text" in entries[k]
    ensures LegacyChunks(entries[k]["text"], DefaultMaxLength) != [] ==> MissingRecordKey(entries[k]).None?
    decreases |entries|
  {
    var init := entries[..|entries| - 1];
    if k < |entries| - 1 {
      assert init[k] == entries[k];
      CompletedRunHadFields(init, k);
    }
  }

  /** Within one entry the chunk ids are distinct. */
  lemma EntryChunkIdsDistinct(entry: Entry, i: nat, j: nat)
    requires EntryRecords(entry).Ok? && i < j < |EntryRecords(entry).value|
    ensures EntryRecords(entry).value[i].chunkId != EntryRecords(entry).value[j].chunkId
  {
    var chunks := LegacyChunks(entry["text"], DefaultMaxLength);
    assert chunks != [] && MissingRecordKey(entry).None?;
    assert EntryRecords(entry).value == RecordsOf(entry, chunks);
    RecordIdsDistinct(entry, chunks, i, j);
  }

  lemma RecordIdsDistinct(entry: Entry, chunks: seq<string>, i: nat, j: nat)
    requires MissingRecordKey(entry).None? && i < j < |chunks|
    ensures RecordsOf(entry, chunks)[i].chunkId != RecordsOf(entry, chunks)[j].chunkId
  {
    var id, typ := entry["id"], entry["typ"];
    var a, b := ChunkId(id, typ, i + 1), ChunkId(id, typ, j + 1);
    assert RecordsOf(entry, chunks)[i].chunkId == a && RecordsOf(entry, chunks)[j].chunkId == b;
    if a == b {
      ChunkIdInjective(id, typ, i + 1, j + 1);
    }
  }
}
