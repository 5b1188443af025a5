/** The parts the ingestion scripts share: the chromadb store as a map from
    collection names to stored entries, the character cleaning of metadata,
    and the split of the input into consecutive batches of 200. */
module VectorStore {
  import opened Results
  import opened Json

  /** An embedding as the sentence-transformer returns it. */
  type Vector = seq<real>

  /** One entry of a collection, as `collection.add` stores it. */
  datatype StoredEntry = StoredEntry(id: Value, embedding: Vector, metadata: Object, document: Option<Value>)

  // ---- `clean_text`, `clean_metadata` ----------------------------------------

  predicate IsAscii(c: char)
  {
    c as int < 128
  }

  /** `.encode("ascii", "ignore").decode("ascii")`: the ASCII characters, in order. */
  function AsciiOnly(s: string): (r: string)
    ensures |r| <= |s|
    ensures forall i :: 0 <= i < |r| ==> IsAscii(r[i])
    ensures forall c :: c in r <==> c in s && IsAscii(c)
  {
    if s == [] then []
    else
      var init := AsciiOnly(s[..|s| - 1]);
      assert s == s[..|s| - 1] + [s[|s| - 1]];
      if IsAscii(s[|s| - 1]) then init + [s[|s| - 1]] else init
  }

  /** Text that is already ASCII is left as it is. */
  lemma {:induction false} AsciiOnlyKeepsAscii(s: string)
    requires forall i :: 0 <= i < |s| ==> IsAscii(s[i])
    ensures AsciiOnly(s) == s
  {
    if s != [] {
      AsciiOnlyKeepsAscii(s[..|s| - 1]);
      assert s == s[..|s| - 1] + [s[|s| - 1]];
    }
  }

  /** `clean_text(v)` with `nfkd` standing for `unicodedata.normalize("NFKD", ·)`:
      strings are decomposed and stripped of non-ASCII characters, every other
      value is returned unchanged. */
  function CleanValue(nfkd: string -> string, v: Value): (r: Value)
    ensures v.Str? <==> r.Str?
    ensures r.Str? ==> forall i :: 0 <= i < |r.s| ==> IsAscii(r.s[i])
    ensures !v.Str? ==> r == v
  {
    match v
    case Str(s) => Str(AsciiOnly(nfkd(s)))
    case _ => v
  }

  /** Cleaning twice is cleaning once, whatever the decomposition does to
      ASCII text, as long as it leaves it alone. */
  lemma CleanValueIdempotent(nfkd: string -> string, v: Value)
    requires forall s :: (forall i :: 0 <= i < |s| ==> IsAscii(s[i])) ==> nfkd(s) == s
    ensures CleanValue(nfkd, CleanValue(nfkd, v)) == CleanValue(nfkd, v)
  {
    if v.Str? {
      var a := AsciiOnly(nfkd(v.s));
      AsciiOnlyKeepsAscii(a);
    }
  }

  /** `clean_metadata(meta)`: the same keys, each value cleaned. */
  function CleanMetadata(nfkd: string -> string, meta: Object): (r: Object)
    ensures r.Keys == meta.Keys
    ensures forall k :: k in r ==> r[k] == CleanValue(nfkd, meta[k])
  {
    map k | k in meta :: CleanValue(nfkd, meta[k])
  }

  // ---- batches -----------------------------------------------------------------

  const BatchSize: nat := 200

  /** The end of the batch starting at `i`: `entries[i:i + BATCH_SIZE]`. */
  function BatchEnd(i: nat, n: nat): (e: nat)
    ensures i < n ==> i < e <= n && e - i <= BatchSize && (e < n ==> e == i + BatchSize)
    ensures i >= n ==> e == n
  {
    if i + BatchSize < n then i + BatchSize else n
  }

  function Min(a: nat, b: nat): nat
  {
    if a < b then a else b
  }

  /** The batches of `range(0, len(xs), BATCH_SIZE)`, in order. */
  function Batches<T>(xs: seq<T>): (bs: seq<seq<T>>)
    ensures forall j :: 0 <= j < |bs| ==> 0 < |bs[j]| <= BatchSize
    decreases |xs|
  {
    if xs == [] then []
    else if |xs| <= BatchSize then [xs]
    else [xs[..BatchSize]] + Batches(xs[BatchSize..])
  }

  function Flatten<T>(bs: seq<seq<T>>): seq<T>
  {
    if bs == [] then [] else bs[0] + Flatten(bs[1..])
  }

  /** The batches cover every entry exactly once and in order. */
  lemma {:induction false} BatchesPartition<T>(xs: seq<T>)
    ensures Flatten(Batches(xs)) == xs
    decreases |xs|
  {
    if xs != [] && |xs| > BatchSize {
      BatchesPartition(xs[BatchSize..]);
      var bs := Batches(xs);
      assert bs[0] == xs[..BatchSize] && bs[1..] == Batches(xs[BatchSize..]);
      assert xs[..BatchSize] + xs[BatchSize..] == xs;
    } else if xs != [] {
      assert Flatten([xs]) == xs + Flatten<T>([]);
    }
  }

  /** The `j`-th batch starts at `j * 200` and is the slice the loop takes there. */
  lemma {:induction false} BatchAt<T>(xs: seq<T>, j: nat)
    requires j < |Batches(xs)|
    ensures j * BatchSize < |xs|
    ensures Batches(xs)[j] == xs[j * BatchSize..BatchEnd(j * BatchSize, |xs|)]
    decreases j
  {
    if j > 0 {
      assert |xs| > BatchSize;
      var rest := xs[BatchSize..];
      BatchAt(rest, j - 1);
      var s := (j - 1) * BatchSize;
      assert s + BatchSize == j * BatchSize;
      assert BatchEnd(s, |rest|) + BatchSize == BatchEnd(j * BatchSize, |xs|);
      assert Batches(xs)[j] == Batches(rest)[j - 1];
      assert rest[s..BatchEnd(s, |rest|)] == xs[j * BatchSize..BatchEnd(j * BatchSize, |xs|)];
    }
  }

  /** The number of batches: `ceil(len(xs) / 200)`. */
  lemma {:induction false} BatchCount<T>(xs: seq<T>)
    ensures |Batches(xs)| == (|xs| + BatchSize - 1) / BatchSize
    decreases |xs|
  {
    if xs != [] && |xs| > BatchSize {
      BatchCount(xs[BatchSize..]);
    }
  }

  // ---- precomputed embeddings with their metadata records -----------------------

  /** `meta["chunk_id"]` does not raise. */
  predicate HasId(meta: Object)
  {
    "chunk_id" in meta
  }

  /** What `add(ids=[m["chunk_id"] ...], embeddings=..., metadatas=[clean_metadata(m) ...])`
      stores for index-aligned embeddings and metadata records: no document. */
  function PrecomputedRecords(nfkd: string -> string, embs: seq<Vector>, metas: seq<Object>): (r: seq<StoredEntry>)
    requires |embs| == |metas| && forall k :: 0 <= k < |metas| ==> HasId(metas[k])
    ensures |r| == |metas|
  {
    seq(|metas|, k requires 0 <= k < |metas| && HasId(metas[k]) => StoredEntry(metas[k]["chunk_id"], embs[k], CleanMetadata(nfkd, metas[k]), None))
  }

  /** Entry `k` of the stored records comes from embedding `k` and metadata record `k`:
      its id is the record's chunk id, its metadata the cleaned record. */
  lemma PrecomputedAligned(nfkd: string -> string, embs: seq<Vector>, metas: seq<Object>, k: nat)
    requires |embs| == |metas| && forall k :: 0 <= k < |metas| ==> HasId(metas[k])
    requires k < |metas|
    ensures PrecomputedRecords(nfkd, embs, metas)[k].id == metas[k]["chunk_id"]
    ensures PrecomputedRecords(nfkd, embs, metas)[k].embedding == embs[k]
    ensures PrecomputedRecords(nfkd, embs, metas)[k].metadata.Keys == metas[k].Keys
    ensures PrecomputedRecords(nfkd, embs, metas)[k].document.None?
  {
  }

  /** The records of two consecutive slices are the records of their union. */
  lemma PrecomputedSplit(nfkd: string -> string, embs: seq<Vector>, metas: seq<Object>, i: nat, e: nat)
    requires |embs| == |metas| && forall k :: 0 <= k < |metas| ==> HasId(metas[k])
    requires i <= e <= |metas|
    ensures PrecomputedRecords(nfkd, embs[..e], metas[..e])
      == PrecomputedRecords(nfkd, embs[..i], metas[..i]) + PrecomputedRecords(nfkd, embs[i..e], metas[i..e])
  {
  }

  // ---- the store ---------------------------------------------------------------

  /** A persistent chromadb client: its collections by name. */
  class Store {
    var collections: map<string, seq<StoredEntry>>

    constructor (initial: map<string, seq<StoredEntry>>)
      ensures collections == initial
    {
      collections := initial;
    }

    /** `delete_collection` when the name exists, then `create_collection`:
        the collection is there and empty, the others are untouched. */
    method Recreate(name: string)
      modifies this
      ensures collections == old(collections)[name := []]
    {
      if name in collections {
        collections := map k | k in collections && k != name :: collections[k];
      }
      collections := collections[name := []];
    }

    /** `collection.add(...)`: appends the entries, or raises and stores nothing.
        Why chromadb rejects a batch (a duplicate or malformed id, a metadata
        value of the wrong type, ...) is not modelled: it may always fail. */
    method Add(name: string, entries: seq<StoredEntry>) returns (ok: bool)
      requires name in collections
      modifies this
      ensures ok ==> collections == old(collections)[name := old(collections)[name] + entries]
      ensures !ok ==> collections == old(collections)
    {
      ok :| true;
      if ok {
        collections := collections[name := collections[name] + entries];
      }
    }
  }
}
