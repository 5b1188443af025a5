/** `scripts/build_chroma_db_2.py`: loads the chunk records, rebuilds the
    collection "chunks_semantic" and adds the records batch by batch, each
    with its embedding, defaulted and cleaned metadata and its text as the
    document; the first failing batch ends the run. */
module IngestSemantic {
  import opened Results
  import opened Text
  import opened Json
  import opened VectorStore

  const CollectionName: string := "chunks_semantic"

  /** `[json.loads(line) for line in f if line.strip()]`, with `decode`
      standing for `json.loads`. */
  function LoadEntries(decode: string -> Object, lines: seq<string>): (entries: seq<Object>)
    ensures |entries| <= |lines|
  {
    if lines == [] then []
    else
      var last := lines[|lines| - 1];
      var init := LoadEntries(decode, lines[..|lines| - 1]);
      if Strip(last) == "" then init else init + [decode(last)]
  }

  /** A file yields no entries exactly when all its lines are blank. */
  lemma {:induction false} NoEntriesIffBlank(decode: string -> Object, lines: seq<string>)
    ensures LoadEntries(decode, lines) == [] <==> forall k :: 0 <= k < |lines| ==> Words(lines[k]) == []
  {
    if lines != [] {
      var init := lines[..|lines| - 1];
      NoEntriesIffBlank(decode, init);
      StripEmptyIffNoWords(lines[|lines| - 1]);
      assert forall k :: 0 <= k < |lines| - 1 ==> init[k] == lines[k];
    }
  }

  /** A line that is not blank adds its decoded entry at the end. */
  lemma NonBlankLineLoaded(decode: string -> Object, lines: seq<string>, line: string)
    requires Words(line) != []
    ensures LoadEntries(decode, lines + [line]) == LoadEntries(decode, lines) + [decode(line)]
  {
    StripEmptyIffNoWords(line);
    assert (lines + [line])[..|lines|] == lines;
  }

  /** Loading keeps the order of the lines: the entries of two files read one
      after the other are the entries of the first, then those of the second. */
  lemma {:induction false} LoadEntriesAppend(decode: string -> Object, a: seq<string>, b: seq<string>)
    ensures LoadEntries(decode, a + b) == LoadEntries(decode, a) + LoadEntries(decode, b)
    decreases |b|
  {
    if b == [] {
      assert a + b == a;
    } else {
      var init := b[..|b| - 1];
      var last := b[|b| - 1];
      assert (a + b)[..|a + b| - 1] == a + init;
      assert (a + b)[|a + b| - 1] == last;
      LoadEntriesAppend(decode, a, init);
      assert LoadEntries(decode, b) == if Strip(last) == "" then LoadEntries(decode, init) else LoadEntries(decode, init) + [decode(last)];
    }
  }

  /** A blank line adds no entry. */
  lemma BlankLineSkipped(decode: string -> Object, lines: seq<string>, line: string)
    requires Words(line) == []
    ensures LoadEntries(decode, lines + [line]) == LoadEntries(decode, lines)
  {
    StripEmptyIffNoWords(line);
    assert (lines + [line])[..|lines|] == lines;
  }

  /** The fields `e["text"]` and `e["chunk_id"]` the batch reads without a default. */
  predicate Complete(e: Object)
  {
    "text" in e && "chunk_id" in e
  }

  /** The metadata record of an entry, before cleaning. */
  function Metadata(e: Object): (m: Object)
    requires "chunk_id" in e
    ensures m.Keys == {"chunk_id", "quelle", "typ", "thema", "sprache"}
    ensures "text" !in m
    ensures m["chunk_id"] == e["chunk_id"]
    ensures m["quelle"] == (if "quelle" in e then e["quelle"] else Str("unbekannt"))
    ensures m["typ"] == (if "typ" in e then e["typ"] else Str("unspezifiziert"))
    ensures m["thema"] == (if "thema" in e then e["thema"] else Str(""))
    ensures m["sprache"] == (if "sprache" in e then e["sprache"] else Str("unbekannt"))
  {
    map[
      "chunk_id" := e["chunk_id"],
      "quelle" := Get(e, "quelle", Str("unbekannt")),
      "typ" := Get(e, "typ", Str("unspezifiziert")),
      "thema" := Get(e, "thema", Str("")),
      "sprache" := Get(e, "sprache", Str("unbekannt"))]
  }

  /** What the collection stores for one entry: id, embedding of the text,
      cleaned metadata, and the text itself as the document. */
  function Record(nfkd: string -> string, embed: Value -> Vector, e: Object): StoredEntry
    requires Complete(e)
  {
    StoredEntry(e["chunk_id"], embed(e["text"]), CleanMetadata(nfkd, Metadata(e)), Some(e["text"]))
  }

  function Records(nfkd: string -> string, embed: Value -> Vector, es: seq<Object>): (r: seq<StoredEntry>)
    requires forall k :: 0 <= k < |es| ==> Complete(es[k])
    ensures |r| == |es|
  {
    seq(|es|, k requires 0 <= k < |es| && Complete(es[k]) => Record(nfkd, embed, es[k]))
  }

  /** The records of a prefix extended by the next slice. */
  lemma RecordsSplit(nfkd: string -> string, embed: Value -> Vector, es: seq<Object>, i: nat, e: nat)
    requires i <= e <= |es| && forall k :: 0 <= k < e ==> Complete(es[k])
    ensures Records(nfkd, embed, es[..e]) == Records(nfkd, embed, es[..i]) + Records(nfkd, embed, es[i..e])
  {
    var whole := es[..e];
    assert whole[..i] == es[..i] && whole[i..] == es[i..e];
    RecordsSplitAt(nfkd, embed, whole, i);
  }

  lemma RecordAt(nfkd: string -> string, embed: Value -> Vector, es: seq<Object>, k: nat)
    requires forall k :: 0 <= k < |es| ==> Complete(es[k])
    requires k < |es|
    ensures Records(nfkd, embed, es)[k] == Record(nfkd, embed, es[k])
  {
  }

  lemma RecordsSplitAt(nfkd: string -> string, embed: Value -> Vector, es: seq<Object>, i: nat)
    requires i <= |es| && forall k :: 0 <= k < |es| ==> Complete(es[k])
    ensures Records(nfkd, embed, es) == Records(nfkd, embed, es[..i]) + Records(nfkd, embed, es[i..])
  {
    var all, front, back := Records(nfkd, embed, es), Records(nfkd, embed, es[..i]), Records(nfkd, embed, es[i..]);
    forall k | 0 <= k < |all|
      ensures all[k] == (front + back)[k]
    {
      RecordAt(nfkd, embed, es, k);
      if k < i {
        assert es[..i][k] == es[k];
        RecordAt(nfkd, embed, es[..i], k);
        assert (front + back)[k] == front[k];
      } else {
        assert es[i..][k - i] == es[k];
        RecordAt(nfkd, embed, es[i..], k - i);
        assert (front + back)[k] == back[k - i];
      }
    }
  }

  /** The stored metadata never holds the text, holds exactly the five fields,
      and the document is the entry's text. */
  lemma StoredShape(nfkd: string -> string, embed: Value -> Vector, es: seq<Object>, k: nat)
    requires forall k :: 0 <= k < |es| ==> Complete(es[k])
    requires k < |es|
    ensures Records(nfkd, embed, es)[k].metadata.Keys == {"chunk_id", "quelle", "typ", "thema", "sprache"}
    ensures Records(nfkd, embed, es)[k].id == es[k]["chunk_id"]
    ensures Records(nfkd, embed, es)[k].document == Some(es[k]["text"])
  {
  }

  /** The `KeyError` a batch raises, if any: texts are collected before ids. */
  function MissingKey(batch: seq<Object>): (key: Option<string>)
    ensures key.None? <==> forall k :: 0 <= k < |batch| ==> Complete(batch[k])
    ensures key.Some? ==> key.value in {"text", "chunk_id"}
  {
    if exists k :: 0 <= k < |batch| && "text" !in batch[k] then Some("text")
    else if exists k :: 0 <= k < |batch| && "chunk_id" !in batch[k] then Some("chunk_id")
    else None
  }

  /** Which `KeyError` is raised: "text" when some entry lacks its text, and
      "chunk_id" only when every entry has its text but some lacks its id. */
  lemma MissingKeyOrder(batch: seq<Object>)
    ensures MissingKey(batch) == Some("text") <==> exists k :: 0 <= k < |batch| && "text" !in batch[k]
    ensures MissingKey(batch) == Some("chunk_id") <==>
      (forall k :: 0 <= k < |batch| ==> "text" in batch[k]) && exists k :: 0 <= k < |batch| && "chunk_id" !in batch[k]
  {
  }

  /** How the run ends. */
  datatype Outcome =
    | Completed
    | KeyMissing(start: nat, key: string) // uncaught `KeyError` in the batch at `start`
    | AddFailed(start: nat)               // `add` raised for the batch at `start`; loop left

  /** One pass of the loop body (lines 45-67) for the batch at `i`: nothing
      on success, otherwise how the run ends there. */
  method AddBatch(store: Store, nfkd: string -> string, embed: Value -> Vector, entries: seq<Object>, i: nat)
    returns (failure: Option<Outcome>)
    requires i < |entries| && CollectionName in store.collections
    modifies store
    ensures failure.None? || failure.value.KeyMissing? || failure.value.AddFailed?
    ensures failure.None? || failure.value.start == i
    ensures failure.None? || failure.value.AddFailed? <==> forall k :: i <= k < BatchEnd(i, |entries|) ==> Complete(entries[k])
    ensures failure.Some? && failure.value.KeyMissing? ==> MissingKey(entries[i..BatchEnd(i, |entries|)]) == Some(failure.value.key)
    ensures failure.None? ==>
      store.collections == old(store.collections)[CollectionName := old(store.collections)[CollectionName]
                                                    + Records(nfkd, embed, entries[i..BatchEnd(i, |entries|)])]
    ensures failure.Some? ==> store.collections == old(store.collections)
  {
    var end := BatchEnd(i, |entries|);
    var batch := entries[i..end];
    var missing := MissingKey(batch);
    if missing.Some? {
      forall k | i <= k < end && !Complete(entries[k])
        ensures !Complete(batch[k - i])
      {
      }
      return Some(KeyMissing(i, missing.value));
    }
    forall k | i <= k < end
      ensures Complete(entries[k])
    {
      assert entries[k] == batch[k - i];
    }
    var ok := store.Add(CollectionName, Records(nfkd, embed, batch));
    if !ok {
      return Some(AddFailed(i));
    }
    return None;
  }

  /** The collections `c1` and the outcome `o` are what the batch loop
      leaves after starting from `c0`: every batch before the one at
      `o.start` (all of them when completed) appended to the collection, in
      order, and at `o.start` the batch that raised. */
  ghost predicate AddedAs(c0: map<string, seq<StoredEntry>>, nfkd: string -> string, embed: Value -> Vector,
                          entries: seq<Object>, c1: map<string, seq<StoredEntry>>, o: Outcome)
    requires CollectionName in c0
  {
    match o
    case Completed =>
      && (forall k :: 0 <= k < |entries| ==> Complete(entries[k]))
      && c1 == c0[CollectionName := c0[CollectionName] + Records(nfkd, embed, entries)]
    case KeyMissing(start, key) =>
      && StoppedAt(c0, nfkd, embed, entries, c1, start)
      && MissingKey(entries[start..BatchEnd(start, |entries|)]) == Some(key)
    case AddFailed(start) =>
      && StoppedAt(c0, nfkd, embed, entries, c1, start)
      && forall k :: start <= k < BatchEnd(start, |entries|) ==> Complete(entries[k])
  }

  /** The loop stopped at the batch starting at `start`: the batches before
      it were added, in order. */
  ghost predicate StoppedAt(c0: map<string, seq<StoredEntry>>, nfkd: string -> string, embed: Value -> Vector,
                            entries: seq<Object>, c1: map<string, seq<StoredEntry>>, start: nat)
    requires CollectionName in c0
  {
    && start % BatchSize == 0 && start < |entries|
    && (forall k :: 0 <= k < start ==> Complete(entries[k]))
    && c1 == c0[CollectionName := c0[CollectionName] + Records(nfkd, embed, entries[..start])]
  }

  /** Lines 44-67: the batches of `entries`, added one after the other into
      the collection until one fails. */
  method AddAll(store: Store, nfkd: string -> string, embed: Value -> Vector, entries: seq<Object>)
    returns (o: Outcome)
    requires CollectionName in store.collections
    modifies store
    ensures AddedAs(old(store.collections), nfkd, embed, entries, store.collections, o)
  {
    var n := |entries|;
    var i := 0;
    ghost var before := old(store.collections)[CollectionName];
    assert before + Records(nfkd, embed, entries[..0]) == before;
    while i < n
      invariant i <= n && (i % BatchSize == 0 || i == n)
      invariant forall k :: 0 <= k < i ==> Complete(entries[k])
      invariant store.collections == old(store.collections)[CollectionName := before + Records(nfkd, embed, entries[..i])]
    {
      var failure := AddBatch(store, nfkd, embed, entries, i);
      if failure.Some? {
        return failure.value;
      }
      var e := BatchEnd(i, n);
      RecordsSplit(nfkd, embed, entries, i, e);
      AppendAssoc(before, Records(nfkd, embed, entries[..i]), Records(nfkd, embed, entries[i..e]));
      i := e;
    }
    assert entries[..n] == entries;
    return Completed;
  }

  /** The script from line 30 on: `lines` are the lines of the chunk file,
      `decode` is `json.loads`, `embed` the embedding model, `nfkd` the
      decomposition. The collection is rebuilt empty, every other collection
      is kept, and the loaded entries are added batch by batch. */
  method Ingest(store: Store, decode: string -> Object, nfkd: string -> string, embed: Value -> Vector, lines: seq<string>)
    returns (o: Outcome)
    modifies store
    ensures AddedAs(old(store.collections)[CollectionName := []], nfkd, embed, LoadEntries(decode, lines), store.collections, o)
  {
    store.Recreate(CollectionName);
    var entries := LoadEntries(decode, lines);
    o := AddAll(store, nfkd, embed, entries);
  }

  /** A run that completes leaves exactly the records of all loaded entries
      in the collection; one that fails leaves those of the batches before. */
  lemma IngestedRecords(c0: map<string, seq<StoredEntry>>, nfkd: string -> string, embed: Value -> Vector,
                        entries: seq<Object>, c1: map<string, seq<StoredEntry>>, o: Outcome)
    requires AddedAs(c0[CollectionName := []], nfkd, embed, entries, c1, o)
    ensures CollectionName in c1
    ensures forall name :: name != CollectionName ==> (name in c1 <==> name in c0) && (name in c0 ==> c1[name] == c0[name])
    ensures o.Completed? ==> c1[CollectionName] == Records(nfkd, embed, entries)
    ensures !o.Completed? ==> c1[CollectionName] == Records(nfkd, embed, entries[..o.start])
  {
    if o.Completed? {
      assert [] + Records(nfkd, embed, entries) == Records(nfkd, embed, entries);
    } else {
      assert [] + Records(nfkd, embed, entries[..o.start]) == Records(nfkd, embed, entries[..o.start]);
    }
  }
}
