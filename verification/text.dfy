/** String helpers shared by every part of the model: Python's whitespace
    `split()`, `sep.join(...)`, `lower()`, `strip()`, `startswith`/`endswith`,
    substring search, and conversion between integers and decimal text. */
module Text {
  import opened Results

  /** Python's `str.isspace()` (the characters Unicode classifies as whitespace). */
  predicate IsSpace(c: char) {
    c == ' ' || c == '\t' || c == '\n' || c == '\r' || c == '\U{B}' || c == '\U{C}'
    || ('\U{1C}' <= c <= '\U{1F}') || c == '\U{85}' || c == '\U{A0}' || c == '\U{1680}'
    || ('\U{2000}' <= c <= '\U{200A}') || c == '\U{2028}' || c == '\U{2029}'
    || c == '\U{202F}' || c == '\U{205F}' || c == '\U{3000}'
  }

  predicate NoSpace(s: string) {
    forall i :: 0 <= i < |s| ==> !IsSpace(s[i])
  }

  /** A token that `split()` can produce: non-empty and free of whitespace. */
  predicate IsWord(w: string) {
    w != [] && NoSpace(w)
  }

  predicate AllWords(ws: seq<string>) {
    forall i :: 0 <= i < |ws| ==> IsWord(ws[i])
  }

  /** The longest whitespace-free prefix of `s`. */
  function WordPrefix(s: string): (w: string)
    ensures w <= s && NoSpace(w)
    ensures |w| < |s| ==> IsSpace(s[|w|])
  {
    if s == [] || IsSpace(s[0]) then [] else [s[0]] + WordPrefix(s[1..])
  }

  /** Python's `s.split()` with no argument: the maximal whitespace-free runs, in order. */
  function Words(s: string): (ws: seq<string>)
    ensures AllWords(ws)
    decreases |s|
  {
    if s == [] then []
    else if IsSpace(s[0]) then Words(s[1..])
    else
      var w := WordPrefix(s);
      [w] + Words(s[|w|..])
  }

  /** Concatenation is associative (stated once, for any sequences, so that
      the solver need not rediscover it on long terms). */
  lemma AppendAssoc<T>(a: seq<T>, b: seq<T>, c: seq<T>)
    ensures a + (b + c) == (a + b) + c
  {
  }

  /** Moving the first element of `b` to the end of `a`. */
  lemma AppendFirst<T>(a: seq<T>, b: seq<T>)
    requires b != []
    ensures (a + [b[0]]) + b[1..] == a + b
  {
    assert b == [b[0]] + b[1..];
    AppendAssoc(a, [b[0]], b[1..]);
  }

  /** Python's `sep.join(parts)`. */
  function Join(parts: seq<string>, sep: string): string
  {
    if |parts| == 0 then ""
    else if |parts| == 1 then parts[0]
    else parts[0] + sep + Join(parts[1..], sep)
  }

  /** The words of several strings, in order (the words of their concatenation
      when each is separated from the next by whitespace). */
  function WordsOf(ss: seq<string>): seq<string>
  {
    if ss == [] then [] else WordsOf(ss[..|ss| - 1]) + Words(ss[|ss| - 1])
  }

  lemma WordsOfAppend(ss: seq<string>, s: string)
    ensures WordsOf(ss + [s]) == WordsOf(ss) + Words(s)
  {
    assert (ss + [s])[..|ss|] == ss;
  }

  lemma {:induction false} WordsOfCons(s: string, ss: seq<string>)
    ensures WordsOf([s] + ss) == Words(s) + WordsOf(ss)
    decreases |ss|
  {
    if ss == [] {
      assert [s] + ss == [s];
      assert WordsOf([s]) == WordsOf([]) + Words(s);
    } else {
      var init := ss[..|ss| - 1];
      var last := ss[|ss| - 1];
      assert [s] + ss == ([s] + init) + [last];
      assert ss == init + [last];
      WordsOfAppend([s] + init, last);
      WordsOfAppend(init, last);
      WordsOfCons(s, init);
    }
  }

  /** A run of whitespace has no words. */
  lemma {:induction false} SpacesHaveNoWords(s: string)
    requires forall k :: 0 <= k < |s| ==> IsSpace(s[k])
    ensures Words(s) == []
    decreases |s|
  {
    if s != [] {
      SpacesHaveNoWords(s[1..]);
    }
  }

  lemma {:induction false} WordPrefixAppend(x: string, y: string)
    requires |WordPrefix(x)| < |x| || y == [] || IsSpace(y[0])
    ensures WordPrefix(x + y) == WordPrefix(x)
    decreases |x|
  {
    if x == [] {
      assert x + y == y;
    } else if IsSpace(x[0]) {
    } else {
      assert (x + y)[1..] == x[1..] + y;
      WordPrefixAppend(x[1..], y);
    }
  }

  /** Splitting distributes over concatenation when the seam is whitespace
      (or one side is empty): no word straddles it. */
  lemma {:induction false} WordsAppend(x: string, y: string)
    requires x == [] || y == [] || IsSpace(x[|x| - 1]) || IsSpace(y[0])
    ensures Words(x + y) == Words(x) + Words(y)
    decreases |x|
  {
    if x == [] {
      assert x + y == y;
    } else if IsSpace(x[0]) {
      var rest := x[1..];
      assert (x + y)[1..] == rest + y;
      WordsAppend(rest, y);
    } else {
      var w := WordPrefix(x);
      var rest := x[|w|..];
      WordPrefixAppend(x, y);
      assert (x + y)[|w|..] == rest + y;
      WordsAppend(rest, y);
      assert Words(x + y) == [w] + (Words(rest) + Words(y));
    }
  }

  lemma WordsOfWord(w: string)
    requires IsWord(w)
    ensures Words(w) == [w]
  {
    assert WordPrefix(w) == w by { WordPrefixWhole(w); }
    assert w[|w|..] == [];
  }

  lemma {:induction false} WordPrefixWhole(w: string)
    requires NoSpace(w)
    ensures WordPrefix(w) == w
  {
    if w != [] {
      WordPrefixWhole(w[1..]);
      assert w == [w[0]] + w[1..];
    }
  }

  /** Round trip: splitting the space-joined words gives the words back. */
  lemma {:induction false} WordsOfJoin(ws: seq<string>)
    requires AllWords(ws)
    ensures Words(Join(ws, " ")) == ws
  {
    if |ws| == 0 {
    } else if |ws| == 1 {
      WordsOfWord(ws[0]);
    } else {
      var rest := Join(ws[1..], " ");
      WordsOfWord(ws[0]);
      WordsOfJoin(ws[1..]);
      assert Join(ws, " ") == ws[0] + (" " + rest);
      WordsAppend(ws[0], " " + rest);
      assert (" " + rest)[1..] == rest;
    }
  }

  lemma {:induction false} JoinAppend(a: seq<string>, b: seq<string>, sep: string)
    requires a != [] && b != []
    ensures Join(a + b, sep) == Join(a, sep) + sep + Join(b, sep)
  {
    if |a| == 1 {
      assert (a + b)[1..] == b;
    } else {
      assert (a + b)[1..] == a[1..] + b;
      JoinAppend(a[1..], b, sep);
    }
  }

  /** Appending parts never shortens the joined text. */
  lemma JoinGrows(a: seq<string>, b: seq<string>, sep: string)
    ensures |Join(a, sep)| <= |Join(a + b, sep)|
  {
    if a == [] {
    } else if b == [] {
      assert a + b == a;
    } else {
      JoinAppend(a, b, sep);
    }
  }

  lemma JoinOfWordsNonEmpty(ws: seq<string>)
    requires AllWords(ws) && ws != []
    ensures Join(ws, " ") != []
  {
    WordsOfJoin(ws);
  }

  /** Python's `str.lower()` on one character, for ASCII and Latin-1 letters. */
  function LowerChar(c: char): char
  {
    if 'A' <= c <= 'Z' || ('\U{C0}' <= c <= '\U{DE}' && c != '\U{D7}') then (c as int + 32) as char
    else c
  }

  /** Python's `str.lower()`: character by character. */
  function Lower(s: string): (r: string)
    ensures |r| == |s|
    ensures forall i :: 0 <= i < |s| ==> r[i] == LowerChar(s[i])
  {
    seq(|s|, i requires 0 <= i < |s| => LowerChar(s[i]))
  }

  lemma LowerIdempotent(s: string)
    ensures Lower(Lower(s)) == Lower(s)
  {
  }

  /** `p` occurs in `t` starting at index `i`. */
  predicate OccursAt(t: string, p: string, i: int)
  {
    0 <= i && i + |p| <= |t| && t[i..i + |p|] == p
  }

  /** Python's `p in t` for strings, searching from index `from`. */
  function ContainsFrom(t: string, p: string, from: nat): (r: bool)
    ensures r <==> exists i :: from <= i && OccursAt(t, p, i)
    decreases |t| - from
  {
    if from + |p| > |t| then false
    else if t[from..from + |p|] == p then assert OccursAt(t, p, from); true
    else ContainsFrom(t, p, from + 1)
  }

  /** Python's `p in t` for strings. */
  function Contains(t: string, p: string): (r: bool)
    ensures r <==> exists i :: OccursAt(t, p, i)
  {
    ContainsFrom(t, p, 0)
  }

  /** Python's `s.count(c)` for a single character. */
  function Count(s: string, c: char): (n: nat)
    ensures n == multiset(s)[c]
  {
    if s == [] then 0
    else
      assert s == [s[0]] + s[1..];
      (if s[0] == c then 1 else 0) + Count(s[1..], c)
  }

  /** Python's `s.lstrip()`. */
  function StripLeft(s: string): (r: string)
    ensures |r| <= |s|
    ensures forall i :: 0 <= i < |s| - |r| ==> IsSpace(s[i])
  {
    if s != [] && IsSpace(s[0]) then StripLeft(s[1..]) else s
  }

  /** What `StripLeft` keeps is the tail of `s` from its first non-space. */
  lemma {:induction false} StripLeftIsTail(s: string)
    ensures StripLeft(s) == s[|s| - |StripLeft(s)|..]
    ensures StripLeft(s) == [] || !IsSpace(StripLeft(s)[0])
    decreases |s|
  {
    if s != [] && IsSpace(s[0]) {
      StripLeftIsTail(s[1..]);
    }
  }

  /** Python's `s.rstrip()`. */
  function StripRight(s: string): (r: string)
    ensures r <= s
    ensures r == [] || !IsSpace(r[|r| - 1])
    ensures forall i :: |r| <= i < |s| ==> IsSpace(s[i])
  {
    if s != [] && IsSpace(s[|s| - 1]) then StripRight(s[..|s| - 1]) else s
  }

  /** Python's `s.strip()`. */
  function Strip(s: string): (r: string)
    ensures r == [] || (!IsSpace(r[0]) && !IsSpace(r[|r| - 1]))
  {
    StripLeftIsTail(s);
    StripRight(StripLeft(s))
  }

  /** What `strip` returns is the slice of `s` left once the whitespace at
      both ends is cut off: it sits in `s` with only whitespace around it,
      and neither of its ends is whitespace. */
  lemma StripMeaning(s: string)
    ensures Strip(s) == [] || (!IsSpace(Strip(s)[0]) && !IsSpace(Strip(s)[|Strip(s)| - 1]))
    ensures exists i :: StrippedAt(s, Strip(s), i)
  {
    StripLeftIsTail(s);
    StripIsSlice(s, StripLeft(s), Strip(s));
  }

  /** `r` sits in `s` at `i`, with only whitespace before and after it. */
  predicate StrippedAt(s: string, r: string, i: int)
  {
    && 0 <= i <= i + |r| <= |s| && s[i..i + |r|] == r
    && (forall k :: 0 <= k < i ==> IsSpace(s[k]))
    && (forall k :: i + |r| <= k < |s| ==> IsSpace(s[k]))
  }

  /** `t` is `s` without leading whitespace, `r` is `t` without trailing whitespace. */
  lemma StripIsSlice(s: string, t: string, r: string)
    requires |t| <= |s| && t == s[|s| - |t|..] && forall k :: 0 <= k < |s| - |t| ==> IsSpace(s[k])
    requires r <= t && forall k :: |r| <= k < |t| ==> IsSpace(t[k])
    ensures StrippedAt(s, r, |s| - |t|)
  {
    var l := |s| - |t|;
    forall k | l + |r| <= k < |s|
      ensures IsSpace(s[k])
    {
      assert s[k] == t[k - l];
    }
    SliceOfTail(s, l, r);
  }

  /** A prefix of the tail of `s` from `l` is a slice of `s`. */
  lemma SliceOfTail(s: string, l: nat, r: string)
    requires l <= |s| && r <= s[l..]
    ensures l + |r| <= |s| && s[l..l + |r|] == r
  {
    var t := s[l..];
    forall k | 0 <= k < |r|
      ensures s[l..l + |r|][k] == r[k]
    {
      assert r[k] == t[k] == s[l + k];
    }
  }

  /** A string strips to nothing exactly when it holds no words. */
  lemma {:induction false} StripEmptyIffNoWords(s: string)
    ensures Strip(s) == [] <==> Words(s) == []
    decreases |s|
  {
    if s == [] {
    } else if IsSpace(s[0]) {
      StripEmptyIffNoWords(s[1..]);
    } else {
      assert StripLeft(s) == s;
      assert StripRight(s) != [];
    }
  }

  predicate StartsWith(s: string, prefix: string) {
    prefix <= s
  }

  predicate EndsWith(s: string, suffix: string) {
    |suffix| <= |s| && s[|s| - |suffix|..] == suffix
  }

  /** `s.split(c)[-1]`: the text after the last `c` (all of `s` without one);
      with `c` = '/' also `os.path.basename(s)`. */
  function AfterLast(s: string, c: char): (r: string)
    ensures |r| <= |s| && c !in r
  {
    if s == [] then []
    else if s[|s| - 1] == c then []
    else AfterLast(s[..|s| - 1], c) + [s[|s| - 1]]
  }

  /** What `AfterLast` cuts off ends in `c`, and what it keeps is the tail of `s`. */
  lemma {:induction false} AfterLastIsTail(s: string, c: char)
    ensures EndsWith(s, AfterLast(s, c))
    ensures |AfterLast(s, c)| < |s| ==> s[|s| - |AfterLast(s, c)| - 1] == c
    decreases |s|
  {
    if s != [] && s[|s| - 1] != c {
      var init := s[..|s| - 1];
      AfterLastIsTail(init, c);
      var r := AfterLast(init, c);
      assert s[|s| - |r| - 1..] == init[|init| - |r|..] + [s[|s| - 1]];
    }
  }

  /** `s.split(c)[0]`: the text before the first `c` (all of `s` without one). */
  function BeforeFirst(s: string, c: char): (r: string)
    ensures r <= s
    ensures c !in r
    ensures |r| < |s| ==> s[|r|] == c
  {
    if s == [] then []
    else if s[0] == c then []
    else [s[0]] + BeforeFirst(s[1..], c)
  }

  /** `s.replace(c, "")`: `s` without any `c`, the rest in order. */
  function Remove(s: string, c: char): (r: string)
    ensures |r| <= |s|
    ensures forall x :: x in r <==> x in s && x != c
    ensures multiset(r) == multiset(s)[c := 0]
  {
    if s == [] then []
    else
      assert s == [s[0]] + s[1..];
      (if s[0] == c then [] else [s[0]]) + Remove(s[1..], c)
  }

  /** `replace` works piece by piece, so the kept characters stay in order. */
  lemma {:induction false} RemoveAppend(a: string, b: string, c: char)
    ensures Remove(a + b, c) == Remove(a, c) + Remove(b, c)
    decreases |a|
  {
    if a != [] {
      assert (a + b)[0] == a[0] && (a + b)[1..] == a[1..] + b;
      RemoveAppend(a[1..], b, c);
      var head := if a[0] == c then [] else [a[0]];
      AppendAssoc(head, Remove(a[1..], c), Remove(b, c));
    } else {
      assert a + b == b;
    }
  }

  /** One character is dropped when it is `c` and kept otherwise. */
  lemma RemoveOne(x: char, c: char)
    ensures Remove([x], c) == if x == c then [] else [x]
  {
    assert [x][1..] == [];
  }

  // ---- decimal numbers -------------------------------------------------------

  predicate IsDigit(c: char) {
    '0' <= c <= '9'
  }

  predicate AllDigits(s: string) {
    forall i :: 0 <= i < |s| ==> IsDigit(s[i])
  }

  function DigitChar(d: nat): char
    requires d < 10
  {
    ('0' as int + d) as char
  }

  function DigitValue(c: char): nat
    requires IsDigit(c)
  {
    c as int - '0' as int
  }

  /** The value of a string of decimal digits, most significant first. */
  function DigitsValue(s: string): nat
    requires AllDigits(s)
  {
    if s == [] then 0 else DigitsValue(s[..|s| - 1]) * 10 + DigitValue(s[|s| - 1])
  }

  /** Python's `str(n)` for a natural number: no leading zeros. */
  function NatToString(n: nat): (s: string)
    ensures s != [] && AllDigits(s)
    ensures s[0] == '0' ==> n == 0
  {
    if n < 10 then [DigitChar(n)] else NatToString(n / 10) + [DigitChar(n % 10)]
  }

  /** Python's `str(n)` for any integer. */
  function IntToString(n: int): string
  {
    if n < 0 then "-" + NatToString(-n) else NatToString(n)
  }

  /** Python's `f"{n:03}"` for a natural number: zero-padded to at least three digits. */
  function Pad3(n: nat): (s: string)
    ensures |s| >= 3 && AllDigits(s)
  {
    var d := NatToString(n);
    if |d| >= 3 then d else seq(3 - |d|, _ => '0') + d
  }

  lemma {:induction false} NatToStringValue(n: nat)
    ensures DigitsValue(NatToString(n)) == n
  {
    if n >= 10 {
      NatToStringValue(n / 10);
      var s := NatToString(n);
      assert s[..|s| - 1] == NatToString(n / 10);
    }
  }

  lemma {:induction false} LeadingZerosValue(k: nat, s: string)
    requires AllDigits(s)
    ensures AllDigits(seq(k, _ => '0') + s)
    ensures DigitsValue(seq(k, _ => '0') + s) == DigitsValue(s)
    decreases k + |s|
  {
    var z := seq(k, _ => '0');
    if s == [] {
      assert z + s == z;
      if k > 0 {
        assert z[..k - 1] == seq(k - 1, _ => '0');
        LeadingZerosValue(k - 1, []);
        assert seq(k - 1, _ => '0') + [] == seq(k - 1, _ => '0');
      }
    } else {
      var t := z + s;
      assert t[..|t| - 1] == z + s[..|s| - 1];
      LeadingZerosValue(k, s[..|s| - 1]);
    }
  }

  lemma Pad3Value(n: nat)
    ensures DigitsValue(Pad3(n)) == n
  {
    var d := NatToString(n);
    NatToStringValue(n);
    if |d| < 3 {
      LeadingZerosValue(3 - |d|, d);
    }
  }

  /** Distinct sequence numbers give distinct zero-padded texts. */
  lemma Pad3Injective(m: nat, n: nat)
    requires Pad3(m) == Pad3(n)
    ensures m == n
  {
    Pad3Value(m);
    Pad3Value(n);
  }

  /** Python's `int(s)` on a decimal string: optional surrounding whitespace,
      an optional sign, then one or more ASCII digits; anything else raises
      (`None` here). */
  function ParseInt(s: string): (r: Option<int>)
  {
    var t := Strip(s);
    if t != [] && (t[0] == '-' || t[0] == '+') then
      (if t[1..] != [] && AllDigits(t[1..]) then
         var v: int := DigitsValue(t[1..]);
         Some(if t[0] == '-' then -v else v)
       else None)
    else if t != [] && AllDigits(t) then Some(DigitsValue(t))
    else None
  }

  lemma StripOfNoSpace(s: string)
    requires s != [] && NoSpace(s)
    ensures Strip(s) == s
  {
  }

  lemma DigitsHaveNoSpace(s: string)
    requires AllDigits(s)
    ensures NoSpace(s)
  {
  }

  lemma ParseIntOfDigits(d: string)
    requires d != [] && AllDigits(d)
    ensures ParseInt(d) == Some(DigitsValue(d) as int)
    ensures ParseInt("-" + d) == Some(-(DigitsValue(d) as int))
  {
    DigitsHaveNoSpace(d);
    StripOfNoSpace(d);
    var s := "-" + d;
    assert s[1..] == d;
    assert NoSpace(s);
    StripOfNoSpace(s);
  }

  /** Round trip: `int(str(n)) == n`. */
  lemma ParseIntOfIntToString(n: int)
    ensures ParseInt(IntToString(n)) == Some(n)
  {
    var m: nat := if n < 0 then -n else n;
    NatToStringValue(m);
    ParseIntOfDigits(NatToString(m));
  }
}
