/** `scripts/utils.py`: `speichere_chatverlauf`, which saves the chat history
    as the next numbered `chat_<n>.json` in the history folder. */
module Snapshots {
  import opened Results
  import opened Text
  import opened Json

  /** One exchange of the chat: the question and the answer as the model's
      reply held it. */
  type Exchange = (string, Value)

  /** `f.split("_")[-1].split(".")[0]`. */
  function NumberPart(name: string): string
  {
    BeforeFirst(AfterLast(name, '_'), '.')
  }

  /** The filter of the comprehension: `f.startswith("chat_") and f.endswith(".json")`. */
  predicate IsSnapshotName(name: string)
  {
    StartsWith(name, "chat_") && EndsWith(name, ".json")
  }

  /** `vorhandene`: the numbers of the snapshot files, in listing order, or
      the number part on which `int()` raises `ValueError`. */
  function ScanNumbers(listing: seq<string>): (r: Result<seq<int>, string>)
    ensures r.Err? ==> exists f :: f in listing && IsSnapshotName(f) && ParseInt(NumberPart(f)) == None
  {
    if listing == [] then Ok([])
    else
      var f := listing[|listing| - 1];
      var init := listing[..|listing| - 1];
      assert listing == init + [f];
      match ScanNumbers(init)
      case Err(e) => Err(e)
      case Ok(nums) =>
        if !IsSnapshotName(f) then Ok(nums)
        else
          match ParseInt(NumberPart(f))
          case None => Err(NumberPart(f))
          case Some(n) => Ok(nums + [n])
  }

  /** The scan fails exactly when some snapshot name has a non-numeric part,
      and otherwise yields exactly the numbers of the snapshot names. */
  lemma {:induction false} ScanNumbersMeaning(listing: seq<string>)
    ensures ScanNumbers(listing).Ok? <==>
      forall f :: f in listing && IsSnapshotName(f) ==> ParseInt(NumberPart(f)).Some?
    ensures ScanNumbers(listing).Ok? ==> forall n ::
      n in ScanNumbers(listing).value <==>
      exists f :: f in listing && IsSnapshotName(f) && ParseInt(NumberPart(f)) == Some(n)
  {
    if listing != [] {
      var f := listing[|listing| - 1];
      var init := listing[..|listing| - 1];
      assert listing == init + [f];
      ScanNumbersMeaning(init);
    }
  }

  function MaxOf(xs: seq<int>): (m: int)
    requires xs != []
    ensures m in xs && forall x :: x in xs ==> x <= m
  {
    if |xs| == 1 then xs[0]
    else
      var rest := MaxOf(xs[1..]);
      assert xs == [xs[0]] + xs[1..];
      if xs[0] >= rest then xs[0] else rest
  }

  /** `max(vorhandene) + 1 if vorhandene else 1`. */
  function NextNumber(nums: seq<int>): (n: int)
    ensures forall m :: m in nums ==> m < n
    ensures nums == [] ==> n == 1
    ensures nums != [] ==> n - 1 in nums
  {
    if nums == [] then 1 else MaxOf(nums) + 1
  }

  /** `f"chat_{neue_nummer}.json"`. */
  function SnapshotName(n: int): (name: string)
    ensures IsSnapshotName(name)
  {
    "chat_" + IntToString(n) + ".json"
  }

  lemma IntToStringHasNoSeparator(n: int)
    ensures '_' !in IntToString(n) && '.' !in IntToString(n)
  {
    var s := IntToString(n);
    var m: nat := if n < 0 then -n else n;
    assert forall i :: 0 <= i < |NatToString(m)| ==> IsDigit(NatToString(m)[i]);
    assert s == NatToString(m) || s == "-" + NatToString(m);
  }

  /** The number of the name of snapshot `n` reads back as `n`. */
  lemma NumberOfSnapshotName(n: int)
    ensures NumberPart(SnapshotName(n)) == IntToString(n)
    ensures ParseInt(NumberPart(SnapshotName(n))) == Some(n)
  {
    var digits := IntToString(n);
    var name := SnapshotName(n);
    IntToStringHasNoSeparator(n);
    var tail := digits + ".json";
    assert name == "chat_" + tail;
    AfterLastNoSep("chat_", tail, '_');
    BeforeFirstAtSep(digits, ".json", '.');
    ParseIntOfIntToString(n);
  }

  lemma {:induction false} AfterLastNoSep(a: string, b: string, c: char)
    requires a != [] && a[|a| - 1] == c && c !in b
    ensures AfterLast(a + b, c) == b
    decreases |b|
  {
    if b == [] {
      assert a + b == a;
    } else {
      var init := b[..|b| - 1];
      assert (a + b)[..|a + b| - 1] == a + init;
      assert c !in init by {
        assert forall x :: x in init ==> x in b;
      }
      AfterLastNoSep(a, init, c);
      assert init + [b[|b| - 1]] == b;
    }
  }

  lemma {:induction false} BeforeFirstAtSep(a: string, b: string, c: char)
    requires c !in a && b != [] && b[0] == c
    ensures BeforeFirst(a + b, c) == a
    decreases |a|
  {
    if a == [] {
      assert a + b == b;
    } else {
      assert (a + b)[1..] == a[1..] + b;
      assert c !in a[1..] by {
        assert forall x :: x in a[1..] ==> x in a;
      }
      BeforeFirstAtSep(a[1..], b, c);
      assert [a[0]] + a[1..] == a;
    }
  }

  /** The name the next snapshot gets is new: every snapshot name already in
      the folder has a number below the new one, and the new name's own
      number is the new number. */
  lemma NextSnapshotNameIsFresh(listing: seq<string>)
    requires ScanNumbers(listing).Ok?
    ensures SnapshotName(NextNumber(ScanNumbers(listing).value)) !in listing
  {
    var nums := ScanNumbers(listing).value;
    var n := NextNumber(nums);
    var name := SnapshotName(n);
    NumberOfSnapshotName(n);
    ScanNumbersMeaning(listing);
    forall f | f in listing
      ensures f != name
    {
      if IsSnapshotName(f) {
        var v := ParseInt(NumberPart(f)).value;
        assert v in nums;
        assert ParseInt(NumberPart(f)) != ParseInt(NumberPart(name));
      }
    }
  }

  /** What a file of the folder holds, as far as this model goes. */
  datatype Content = History(exchanges: seq<Exchange>) | OtherContent

  /** The folder `files1`/`listing1` and the result `r` are what saving
      `history` into the folder `files0`/`listing0` gives: on an unreadable
      snapshot number an error and no change, otherwise exactly one new file,
      holding the history, under the next number's name. */
  predicate SavedAs(files0: map<string, Content>, listing0: seq<string>, history: seq<Exchange>,
                    files1: map<string, Content>, listing1: seq<string>, r: Result<string, string>)
  {
    match ScanNumbers(listing0)
    case Err(e) => r == Err(e) && files1 == files0 && listing1 == listing0
    case Ok(nums) =>
      && r == Ok(SnapshotName(NextNumber(nums)))
      && files1 == files0[r.value := History(history)]
      && listing1 == listing0 + [r.value]
  }

  /** The chat history folder: its files and the order `os.listdir` lists them in. */
  class SnapshotFolder {
    var files: map<string, Content>
    var listing: seq<string>

    ghost predicate Valid()
      reads this
    {
      && (forall f :: f in listing <==> f in files)
      && (forall i, j :: 0 <= i < j < |listing| ==> listing[i] != listing[j])
    }

    constructor (files0: map<string, Content>, listing0: seq<string>)
      requires forall f :: f in listing0 <==> f in files0
      requires forall i, j :: 0 <= i < j < |listing0| ==> listing0[i] != listing0[j]
      ensures Valid() && files == files0 && listing == listing0
    {
      files := files0;
      listing := listing0;
    }

    /** `speichere_chatverlauf(chat_history)`: scans the snapshot numbers,
        writes the history to the next number's file and returns its name;
        on a non-numeric snapshot name it raises (`Err`) and writes nothing. */
    method Save(history: seq<Exchange>) returns (r: Result<string, string>)
      requires Valid()
      modifies this
      ensures Valid()
      ensures r.Ok? ==> r.value !in old(files)
      ensures SavedAs(old(files), old(listing), history, files, listing, r)
    {
      var vorhandene := ScanNumbers(listing);
      if vorhandene.Err? {
        return Err(vorhandene.error);
      }
      var name := SnapshotName(NextNumber(vorhandene.value));
      NextSnapshotNameIsFresh(listing);
      files := files[name := History(history)];
      listing := listing + [name];
      r := Ok(name);
    }
  }

  /** The module's test: with `chat_1.json` and `chat_2.json` present the
      history goes to `chat_3.json`. */
  lemma SaveAfterTwoSnapshots()
    ensures ScanNumbers([SnapshotName(1)] + [SnapshotName(2)]) == Ok([1] + [2])
    ensures NextNumber([1, 2]) == 3
  {
    ScanTwo(1, 2);
    var n := NextNumber([1, 2]);
    assert 2 in [1, 2];
    assert n - 1 == 1 || n - 1 == 2;
  }

  lemma ScanTwo(a: int, b: int)
    ensures ScanNumbers([SnapshotName(a)] + [SnapshotName(b)]) == Ok([a] + [b])
  {
    ScanOne(a);
    ScanOneMore([SnapshotName(a)], [a], b);
  }

  lemma ScanOne(a: int)
    ensures ScanNumbers([SnapshotName(a)]) == Ok([a])
  {
    ScanOneMore([], [], a);
    assert [] + [SnapshotName(a)] == [SnapshotName(a)];
    assert [] + [a] == [a];
  }

  /** Appending the name of snapshot `n` to a listing adds `n` to its numbers. */
  lemma ScanOneMore(listing: seq<string>, nums: seq<int>, n: int)
    requires ScanNumbers(listing) == Ok(nums)
    ensures ScanNumbers(listing + [SnapshotName(n)]) == Ok(nums + [n])
  {
    NumberOfSnapshotName(n);
    assert (listing + [SnapshotName(n)])[..|listing|] == listing;
  }

  lemma SnapshotNamesSpelled()
    ensures SnapshotName(1) == "chat_1.json"
    ensures SnapshotName(3) == "chat_3.json"
  {
    assert IntToString(1) == "1";
    assert IntToString(3) == "3";
  }
}
