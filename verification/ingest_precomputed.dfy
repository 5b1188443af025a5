/** `scripts/build_chroma_db.py` and `scripts/chunks.py`: both rebuild the
    collection "chunks", require as many embeddings as metadata records, and
    add the precomputed embeddings with their cleaned metadata batch by batch
    until an `add` fails; `build_chroma_db.py` also stops the whole run when
    the first vector of a batch holds a NaN. */
module IngestPrecomputed {
  import opened Results
  import opened Json
  import opened VectorStore

  const CollectionName: string := "chunks"

  /** How a run ends. */
  datatype Outcome =
    | CountMismatch      // the `assert len(embeddings) == len(metadaten)` failed
    | Completed
    | KeyMissing(start: nat) // `meta["chunk_id"]` raised in the batch at `start`
    | NaNExit(start: nat)    // `exit(1)`: NaN in the first vector of the batch at `start`
    | AddFailed(start: nat)  // `add` raised for the batch at `start`; loop left

  /** `[meta["chunk_id"] for meta in batch_meta]` does not raise. */
  predicate IdsPresent(batch: seq<Object>)
  {
    forall k :: 0 <= k < |batch| ==> HasId(batch[k])
  }

  /** The checked vectors: the first of every batch before `upto` holds no NaN. */
  predicate FirstVectorsClean(hasNaN: Vector -> bool, embs: seq<Vector>, upto: nat)
    requires upto <= |embs|
  {
    forall i :: 0 <= i < upto && i % BatchSize == 0 ==> !hasNaN(embs[i])
  }

  /** The loop stopped at the batch starting at `start`: the batches before
      it were added, in order, and nothing else changed. */
  ghost predicate StoppedAt(c0: map<string, seq<StoredEntry>>, nfkd: string -> string, embs: seq<Vector>,
                            metas: seq<Object>, c1: map<string, seq<StoredEntry>>, start: nat)
    requires CollectionName in c0 && |embs| == |metas|
  {
    && start % BatchSize == 0 && start < |metas|
    && (forall k :: 0 <= k < start ==> HasId(metas[k]))
    && c1 == c0[CollectionName := c0[CollectionName] + PrecomputedRecords(nfkd, embs[..start], metas[..start])]
  }

  /** Every batch was added: all records are in the collection, in order. */
  ghost predicate AddedAll(c0: map<string, seq<StoredEntry>>, nfkd: string -> string, embs: seq<Vector>,
                           metas: seq<Object>, c1: map<string, seq<StoredEntry>>)
    requires CollectionName in c0 && |embs| == |metas|
  {
    && (forall k :: 0 <= k < |metas| ==> HasId(metas[k]))
    && c1 == c0[CollectionName := c0[CollectionName] + PrecomputedRecords(nfkd, embs, metas)]
  }

  /** What the loop of `chunks.py` (lines 42-65) leaves, starting from `c0`. */
  ghost predicate PlainAddedAs(c0: map<string, seq<StoredEntry>>, nfkd: string -> string, embs: seq<Vector>,
                               metas: seq<Object>, c1: map<string, seq<StoredEntry>>, o: Outcome)
    requires CollectionName in c0 && |embs| == |metas|
  {
    match o
    case Completed => AddedAll(c0, nfkd, embs, metas, c1)
    case KeyMissing(start) =>
      && StoppedAt(c0, nfkd, embs, metas, c1, start)
      && !IdsPresent(metas[start..BatchEnd(start, |metas|)])
    case AddFailed(start) =>
      && StoppedAt(c0, nfkd, embs, metas, c1, start)
      && IdsPresent(metas[start..BatchEnd(start, |metas|)])
    case _ => false
  }

  /** What the loop of `build_chroma_db.py` (lines 49-77) leaves, starting
      from `c0`: as in `chunks.py`, except that the first vector of every
      batch that got past its ids was checked for NaN. */
  ghost predicate CheckedAddedAs(c0: map<string, seq<StoredEntry>>, nfkd: string -> string, hasNaN: Vector -> bool,
                                 embs: seq<Vector>, metas: seq<Object>, c1: map<string, seq<StoredEntry>>, o: Outcome)
    requires CollectionName in c0 && |embs| == |metas|
  {
    match o
    case Completed =>
      && AddedAll(c0, nfkd, embs, metas, c1)
      && FirstVectorsClean(hasNaN, embs, |embs|)
    case KeyMissing(start) =>
      && StoppedAt(c0, nfkd, embs, metas, c1, start)
      && FirstVectorsClean(hasNaN, embs, start)
      && !IdsPresent(metas[start..BatchEnd(start, |metas|)])
    case NaNExit(start) =>
      && StoppedAt(c0, nfkd, embs, metas, c1, start)
      && FirstVectorsClean(hasNaN, embs, start)
      && IdsPresent(metas[start..BatchEnd(start, |metas|)])
      && hasNaN(embs[start])
    case AddFailed(start) =>
      && StoppedAt(c0, nfkd, embs, metas, c1, start)
      && FirstVectorsClean(hasNaN, embs, start + 1)
      && IdsPresent(metas[start..BatchEnd(start, |metas|)])
    case CountMismatch => false
  }

  /** The `collection.add` of the batch at `i`, whose ids are all present. */
  method AddSlice(store: Store, nfkd: string -> string, embs: seq<Vector>, metas: seq<Object>, i: nat)
    returns (ok: bool)
    requires |embs| == |metas| && i < |metas| && CollectionName in store.collections
    requires IdsPresent(metas[i..BatchEnd(i, |metas|)])
    modifies store
    ensures forall k :: i <= k < BatchEnd(i, |metas|) ==> HasId(metas[k])
    ensures ok ==> store.collections == old(store.collections)[CollectionName := old(store.collections)[CollectionName]
                      + PrecomputedRecords(nfkd, embs[i..BatchEnd(i, |metas|)], metas[i..BatchEnd(i, |metas|)])]
    ensures !ok ==> store.collections == old(store.collections)
  {
    var end := BatchEnd(i, |metas|);
    var batch := metas[i..end];
    forall k | i <= k < end
      ensures HasId(metas[k])
    {
      assert metas[k] == batch[k - i];
    }
    ok := store.Add(CollectionName, PrecomputedRecords(nfkd, embs[i..end], batch));
  }

  /** The records before `i`, then those of the slice up to `e`. */
  lemma Extend(nfkd: string -> string, embs: seq<Vector>, metas: seq<Object>, before: seq<StoredEntry>, i: nat, e: nat)
    requires |embs| == |metas| && i <= e <= |metas| && forall k :: 0 <= k < e ==> HasId(metas[k])
    ensures before + PrecomputedRecords(nfkd, embs[..i], metas[..i]) + PrecomputedRecords(nfkd, embs[i..e], metas[i..e])
         == before + PrecomputedRecords(nfkd, embs[..e], metas[..e])
  {
    PrecomputedSplit(nfkd, embs[..e], metas[..e], i, e);
    assert embs[..e][..i] == embs[..i] && metas[..e][..i] == metas[..i];
    assert embs[..e][i..e] == embs[i..e] && metas[..e][i..e] == metas[i..e];
    assert embs[..e][..e] == embs[..e] && metas[..e][..e] == metas[..e];
  }

  /** Lines 42-65 of `chunks.py`. */
  method AddAllPlain(store: Store, nfkd: string -> string, embs: seq<Vector>, metas: seq<Object>)
    returns (o: Outcome)
    requires |embs| == |metas| && CollectionName in store.collections
    modifies store
    ensures PlainAddedAs(old(store.collections), nfkd, embs, metas, store.collections, o)
  {
    var n := |metas|;
    var i := 0;
    ghost var before := old(store.collections)[CollectionName];
    assert before + PrecomputedRecords(nfkd, embs[..0], metas[..0]) == before;
    while i < n
      invariant i <= n && (i % BatchSize == 0 || i == n)
      invariant forall k :: 0 <= k < i ==> HasId(metas[k])
      invariant store.collections
             == old(store.collections)[CollectionName := before + PrecomputedRecords(nfkd, embs[..i], metas[..i])]
    {
      var e := BatchEnd(i, n);
      if !IdsPresent(metas[i..e]) {
        return KeyMissing(i);
      }
      var ok := AddSlice(store, nfkd, embs, metas, i);
      if !ok {
        return AddFailed(i);
      }
      Extend(nfkd, embs, metas, before, i, e);
      i := e;
    }
    assert embs[..n] == embs && metas[..n] == metas;
    return Completed;
  }

  /** Lines 49-77 of `build_chroma_db.py`; `hasNaN` stands for
      `any(math.isnan(x) for x in v)`. */
  method AddAllChecked(store: Store, nfkd: string -> string, hasNaN: Vector -> bool, embs: seq<Vector>, metas: seq<Object>)
    returns (o: Outcome)
    requires |embs| == |metas| && CollectionName in store.collections
    modifies store
    ensures CheckedAddedAs(old(store.collections), nfkd, hasNaN, embs, metas, store.collections, o)
  {
    var n := |metas|;
    var i := 0;
    ghost var before := old(store.collections)[CollectionName];
    assert before + PrecomputedRecords(nfkd, embs[..0], metas[..0]) == before;
    while i < n
      invariant i <= n && (i % BatchSize == 0 || i == n)
      invariant forall k :: 0 <= k < i ==> HasId(metas[k])
      invariant FirstVectorsClean(hasNaN, embs, i)
      invariant store.collections
             == old(store.collections)[CollectionName := before + PrecomputedRecords(nfkd, embs[..i], metas[..i])]
    {
      var e := BatchEnd(i, n);
      if !IdsPresent(metas[i..e]) {
        return KeyMissing(i);
      }
      if hasNaN(embs[i]) {
        return NaNExit(i);
      }
      // `if batch_ids:` always holds here: a batch is never empty.
      var ok := AddSlice(store, nfkd, embs, metas, i);
      if !ok {
        return AddFailed(i);
      }
      Extend(nfkd, embs, metas, before, i, e);
      i := e;
    }
    assert embs[..n] == embs && metas[..n] == metas;
    return Completed;
  }

  /** `scripts/chunks.py` from line 26 on, with the loaded `.npy` rows and
      metadata lines as `embs` and `metas`: the collection is rebuilt empty,
      and unless the counts differ the batches are added. */
  method RunChunks(store: Store, nfkd: string -> string, embs: seq<Vector>, metas: seq<Object>)
    returns (o: Outcome)
    modifies store
    ensures o == CountMismatch <==> |embs| != |metas|
    ensures o == CountMismatch ==> store.collections == old(store.collections)[CollectionName := []]
    ensures |embs| == |metas| ==>
      PlainAddedAs(old(store.collections)[CollectionName := []], nfkd, embs, metas, store.collections, o)
  {
    store.Recreate(CollectionName);
    if |embs| != |metas| {
      return CountMismatch;
    }
    o := AddAllPlain(store, nfkd, embs, metas);
  }

  /** `scripts/build_chroma_db.py` from line 34 on, up to the test query. */
  method BuildChromaDb(store: Store, nfkd: string -> string, hasNaN: Vector -> bool, embs: seq<Vector>, metas: seq<Object>)
    returns (o: Outcome)
    modifies store
    ensures o == CountMismatch <==> |embs| != |metas|
    ensures o == CountMismatch ==> store.collections == old(store.collections)[CollectionName := []]
    ensures |embs| == |metas| ==>
      CheckedAddedAs(old(store.collections)[CollectionName := []], nfkd, hasNaN, embs, metas, store.collections, o)
  {
    store.Recreate(CollectionName);
    if |embs| != |metas| {
      return CountMismatch;
    }
    o := AddAllChecked(store, nfkd, hasNaN, embs, metas);
  }

  /** Starting from the rebuilt collection, a run that stops leaves exactly
      the records of the batches before the stop in "chunks", and a
      completed run all of them; other collections are untouched. */
  lemma StoppedRecords(c0: map<string, seq<StoredEntry>>, nfkd: string -> string, embs: seq<Vector>,
                       metas: seq<Object>, c1: map<string, seq<StoredEntry>>, start: nat)
    requires |embs| == |metas|
    requires StoppedAt(c0[CollectionName := []], nfkd, embs, metas, c1, start)
    ensures CollectionName in c1 && c1[CollectionName] == PrecomputedRecords(nfkd, embs[..start], metas[..start])
    ensures |c1[CollectionName]| == start
    ensures forall name :: name != CollectionName ==> (name in c1 <==> name in c0) && (name in c0 ==> c1[name] == c0[name])
  {
    assert [] + PrecomputedRecords(nfkd, embs[..start], metas[..start]) == PrecomputedRecords(nfkd, embs[..start], metas[..start]);
  }

  /** The NaN test looks at the first vector of each batch only: a NaN
      anywhere else does not stop the run, so a completed run may have
      stored a vector with a NaN. */
  lemma OnlyFirstVectorChecked(c0: map<string, seq<StoredEntry>>, nfkd: string -> string, hasNaN: Vector -> bool,
                               embs: seq<Vector>, metas: seq<Object>, c1: map<string, seq<StoredEntry>>, o: Outcome)
    requires CollectionName in c0 && |embs| == |metas|
    requires CheckedAddedAs(c0, nfkd, hasNaN, embs, metas, c1, o)
    ensures o.NaNExit? ==> hasNaN(embs[o.start]) && o.start % BatchSize == 0
    ensures o.Completed? ==> forall k :: 0 <= k < |embs| && hasNaN(embs[k]) ==>
      k % BatchSize != 0 && c1[CollectionName][|c0[CollectionName]| + k].embedding == embs[k]
  {
    if o.Completed? {
      forall k | 0 <= k < |embs| && hasNaN(embs[k])
        ensures k % BatchSize != 0 && c1[CollectionName][|c0[CollectionName]| + k].embedding == embs[k]
      {
        PrecomputedAligned(nfkd, embs, metas, k);
      }
    }
  }
}
