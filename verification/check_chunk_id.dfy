/** `scripts/check_chunk_id.py`: counts the chunk lines and collects the
    chunk ids seen and the ids seen more than once. */
module CheckChunkIds {
  import opened Results
  import opened Json

  /** `entry.get("chunk_id")` as the sets see it: an absent key and an
      explicit `null` are both `None`, and `True`/`False` are equal (with equal
      hashes) to `1`/`0`, so they stand for the same set element. */
  function IdOf(entry: Object): (id: Value)
    ensures id == Null <==> "chunk_id" !in entry || entry["chunk_id"] == Null
    ensures !id.Bool?
    ensures "chunk_id" in entry && (entry["chunk_id"].Str? || entry["chunk_id"].Int?) ==> id == entry["chunk_id"]
    ensures "chunk_id" in entry && entry["chunk_id"].Bool? ==> id == Int(if entry["chunk_id"].b then 1 else 0)
  {
    match Get(entry, "chunk_id", Null)
    case Bool(b) => Int(if b then 1 else 0)
    case v => v
  }

  function Ids(entries: seq<Object>): (ids: seq<Value>)
    ensures |ids| == |entries|
    ensures forall k :: 0 <= k < |entries| ==> ids[k] == IdOf(entries[k])
  {
    seq(|entries|, k requires 0 <= k < |entries| => IdOf(entries[k]))
  }

  /** The distinct ids of `ids`. */
  ghost function Distinct(ids: seq<Value>): set<Value>
  {
    set x | x in ids
  }

  /** The ids that occur at least twice in `ids`. */
  ghost function Repeated(ids: seq<Value>): set<Value>
  {
    set x | x in ids && multiset(ids)[x] >= 2
  }

  /** Lines 11-20 over the decoded lines `entries`. */
  method Scan(entries: seq<Object>) returns (seen: set<Value>, duplicates: set<Value>, total: nat)
    ensures total == |entries|
    ensures seen == Distinct(Ids(entries))
    ensures duplicates == Repeated(Ids(entries))
    ensures duplicates <= seen
  {
    ghost var ids := Ids(entries);
    seen := {};
    duplicates := {};
    total := 0;
    for i := 0 to |entries|
      invariant total == i
      invariant seen == Distinct(ids[..i])
      invariant duplicates == Repeated(ids[..i])
    {
      total := total + 1;
      var chunkId := IdOf(entries[i]);
      Step(ids, i);
      if chunkId in seen {
        duplicates := duplicates + {chunkId};
      } else {
        seen := seen + {chunkId};
      }
    }
    assert ids[..|entries|] == ids;
  }

  /** `ScanStep` for the prefixes the loop walks through. */
  lemma Step(ids: seq<Value>, i: nat)
    requires i < |ids|
    ensures Distinct(ids[..i + 1]) == Distinct(ids[..i]) + {ids[i]}
    ensures ids[i] in Distinct(ids[..i]) ==> Repeated(ids[..i + 1]) == Repeated(ids[..i]) + {ids[i]}
    ensures ids[i] !in Distinct(ids[..i]) ==> Repeated(ids[..i + 1]) == Repeated(ids[..i])
  {
    assert ids[..i + 1] == ids[..i] + [ids[i]];
    ScanStep(ids[..i], ids[i]);
  }

  /** One more id: it joins the distinct ids, and the repeated ones exactly
      when it was already there. */
  lemma ScanStep(ids: seq<Value>, x: Value)
    ensures Distinct(ids + [x]) == Distinct(ids) + {x}
    ensures x in Distinct(ids) ==> Repeated(ids + [x]) == Repeated(ids) + {x}
    ensures x !in Distinct(ids) ==> Repeated(ids + [x]) == Repeated(ids)
  {
    assert multiset(ids + [x]) == multiset(ids) + multiset{x};
    if x in Distinct(ids) {
      assert multiset(ids)[x] >= 1;
    }
  }

  /** A line without a chunk id and a line whose id is `null` count as the
      same id seen twice: one distinct id, and it is a duplicate. */
  lemma MissingAndNullCollide()
    ensures var ids := Ids([map["a" := Int(1)], map["chunk_id" := Null]]);
      Distinct(ids) == {Null} && Repeated(ids) == {Null}
  {
    var ids := Ids([map["a" := Int(1)], map["chunk_id" := Null]]);
    assert ids == [Null, Null];
    assert multiset(ids)[Null] == 2;
  }

  /** Every repeated id was also seen. */
  lemma RepeatedAreSeen(ids: seq<Value>)
    ensures Repeated(ids) <= Distinct(ids)
  {
  }

  /** There are no duplicates exactly when there are as many distinct ids as
      lines: `len(seen) == total`. */
  lemma {:induction false} NoRepeatsIffAllDistinct(ids: seq<Value>)
    ensures |Distinct(ids)| <= |ids|
    ensures Repeated(ids) == {} <==> |Distinct(ids)| == |ids|
    decreases |ids|
  {
    if ids != [] {
      var init := ids[..|ids| - 1];
      var x := ids[|ids| - 1];
      assert ids == init + [x];
      NoRepeatsIffAllDistinct(init);
      ScanStep(init, x);
      if x in Distinct(init) {
        assert Distinct(ids) == Distinct(init);
        assert x in Repeated(ids);
      } else {
        assert |Distinct(ids)| == |Distinct(init)| + 1;
      }
    }
  }

  /** Lines 26-28: `list(duplicates)[:10]`, in whatever order the set yields. */
  method Shown(duplicates: set<Value>) returns (shown: seq<Value>)
    ensures |shown| == if |duplicates| < 10 then |duplicates| else 10
    ensures forall i :: 0 <= i < |shown| ==> shown[i] in duplicates
    ensures forall i, j :: 0 <= i < j < |shown| ==> shown[i] != shown[j]
  {
    shown := [];
    var rest := duplicates;
    while rest != {} && |shown| < 10
      invariant rest <= duplicates && |shown| <= 10
      invariant |shown| + |rest| == |duplicates|
      invariant forall i :: 0 <= i < |shown| ==> shown[i] in duplicates && shown[i] !in rest
      invariant forall i, j :: 0 <= i < j < |shown| ==> shown[i] != shown[j]
      decreases |rest|
    {
      var d :| d in rest;
      shown := shown + [d];
      rest := rest - {d};
    }
  }
}
