/** The handful of Python `str` operations the message handler relies on:
    `lower`, `strip`, `startswith`, `in`, `split(sep)[1]` and `split(None, 1)`. */
module PyStr {

  import opened Wrappers

  /** Python's `str.isspace()`: the characters `strip()` and `split()` treat as
      whitespace. The class is reached through `SpaceClass`, whose `depth`
      argument only keeps the solver from expanding the class where a proof
      does not need it; `SpaceDef` states it in one step. */
  predicate IsSpace(c: char) {
    SpaceClass(c, 2)
  }

  predicate SpaceClass(c: char, depth: nat)
    decreases depth
  {
    if depth > 0 then SpaceClass(c, depth - 1)
    else
      c == ' ' || ('\t' <= c <= '\r') || ('\U{1C}' <= c <= '\U{1F}') ||
      c == '\U{85}' || c == '\U{A0}' || c == '\U{1680}' || ('\U{2000}' <= c <= '\U{200A}') ||
      c == '\U{2028}' || c == '\U{2029}' || c == '\U{202F}' || c == '\U{205F}' || c == '\U{3000}'
  }

  lemma SpaceDef(c: char)
    ensures IsSpace(c) <==>
      c == ' ' || ('\t' <= c <= '\r') || ('\U{1C}' <= c <= '\U{1F}') ||
      c == '\U{85}' || c == '\U{A0}' || c == '\U{1680}' || ('\U{2000}' <= c <= '\U{200A}') ||
      c == '\U{2028}' || c == '\U{2029}' || c == '\U{202F}' || c == '\U{205F}' || c == '\U{3000}'
  {
    assert SpaceClass(c, 2) == SpaceClass(c, 1) == SpaceClass(c, 0);
  }

  predicate AllSpace(s: string) {
    forall i :: 0 <= i < |s| ==> IsSpace(s[i])
  }

  predicate IsUpper(c: char) {
    'A' <= c <= 'Z'
  }

  /** Lower-casing of one character (ASCII letters only). */
  function LowerChar(c: char): (d: char)
    ensures !IsUpper(d)
    ensures IsUpper(c) ==> d as int == c as int + 32
    ensures !IsUpper(c) ==> d == c
    ensures IsSpace(d) <==> IsSpace(c)
  {
    if IsUpper(c) then (c as int + 32) as char else c
  }

  /** `s.lower()` */
  function Lower(s: string): (r: string)
    ensures |r| == |s|
    ensures forall i :: 0 <= i < |s| ==> r[i] == LowerChar(s[i])
  {
    seq(|s|, i requires 0 <= i < |s| => LowerChar(s[i]))
  }

  /** Lower-casing twice is lower-casing once. */
  lemma LowerIdempotent(s: string)
    ensures Lower(Lower(s)) == Lower(s)
  {
    assert forall i :: 0 <= i < |s| ==> Lower(Lower(s))[i] == Lower(s)[i];
  }

  lemma LowerAppend(a: string, b: string)
    ensures Lower(a + b) == Lower(a) + Lower(b)
  {
    assert forall i :: 0 <= i < |a + b| ==> Lower(a + b)[i] == (Lower(a) + Lower(b))[i];
  }

  /** Whitespace is left alone by `lower()`. */
  lemma LowerOfSpace(s: string)
    requires AllSpace(s)
    ensures Lower(s) == s
  {
  }

  /** `s.lstrip()`: drops the leading whitespace and nothing else. */
  function TrimLeft(s: string): (r: string)
    ensures |r| <= |s| && r == s[|s| - |r|..]
    ensures r == [] || !IsSpace(r[0])
    decreases |s|
  {
    if |s| > 0 && IsSpace(s[0]) then TrimLeft(s[1..]) else s
  }

  /** `s.rstrip()`: drops the trailing whitespace and nothing else. */
  function TrimRight(s: string): (r: string)
    ensures |r| <= |s| && r == s[..|r|]
    ensures r == [] || !IsSpace(r[|r| - 1])
    decreases |s|
  {
    if |s| > 0 && IsSpace(s[|s| - 1]) then TrimRight(s[..|s| - 1]) else s
  }

  /** What `lstrip()` drops is whitespace. */
  lemma {:induction false} TrimLeftDropsSpace(s: string)
    ensures AllSpace(s[..|s| - |TrimLeft(s)|])
    decreases |s|
  {
    if |s| > 0 && IsSpace(s[0]) {
      TrimLeftDropsSpace(s[1..]);
      var k := |s| - |TrimLeft(s)|;
      assert s[..k] == [s[0]] + s[1..][..k - 1];
    }
  }

  /** What `rstrip()` drops is whitespace. */
  lemma {:induction false} TrimRightDropsSpace(s: string)
    ensures AllSpace(s[|TrimRight(s)|..])
    decreases |s|
  {
    if |s| > 0 && IsSpace(s[|s| - 1]) {
      var t := s[..|s| - 1];
      TrimRightDropsSpace(t);
      assert s[|TrimRight(s)|..] == t[|TrimRight(t)|..] + [s[|s| - 1]];
    }
  }

  /** `s.strip()` */
  function Strip(s: string): (r: string)
    ensures |r| <= |s|
    ensures r == [] || (!IsSpace(r[0]) && !IsSpace(r[|r| - 1]))
  {
    var l := TrimLeft(s);
    var r := TrimRight(l);
    assert r != [] ==> r[0] == l[0];
    r
  }

  /** What `strip()` keeps is the slice of `s` that starts at `k`. */
  lemma StripSlice(s: string, k: nat)
    requires k == |s| - |TrimLeft(s)|
    ensures k + |Strip(s)| <= |s| && Strip(s) == s[k..k + |Strip(s)|]
  {
    var l := TrimLeft(s);
    var r := TrimRight(l);
    assert r == Strip(s);
    SliceOfSuffix(s, l, r, k);
  }

  /** A prefix of the suffix from `k` is the slice starting at `k`. */
  lemma SliceOfSuffix(s: string, l: string, r: string, k: nat)
    requires k <= |s| && l == s[k..] && |r| <= |l| && r == l[..|r|]
    ensures k + |r| <= |s| && r == s[k..k + |r|]
  {
  }

  /** `strip()` removes exactly a whitespace prefix and a whitespace suffix:
      what is left is the slice of `s` that starts at `k`. */
  lemma StripShape(s: string, k: nat)
    requires k == |s| - |TrimLeft(s)|
    ensures k + |Strip(s)| <= |s| && Strip(s) == s[k..k + |Strip(s)|]
    ensures AllSpace(s[..k]) && AllSpace(s[k + |Strip(s)|..])
  {
    StripSlice(s, k);
    TrimLeftDropsSpace(s);
    StripDropsTail(s, k);
  }

  lemma StripDropsTail(s: string, k: nat)
    requires k == |s| - |TrimLeft(s)|
    ensures k + |Strip(s)| <= |s|
    ensures AllSpace(s[k + |Strip(s)|..])
  {
    var l := TrimLeft(s);
    StripOfTrimmedLeft(s, l);
    TrimRightDropsSpace(l);
    SpaceAfterSlice(s, l, Strip(s), k);
  }

  /** `strip()` is `rstrip()` of what `lstrip()` left, a prefix of it. */
  lemma StripOfTrimmedLeft(s: string, l: string)
    requires l == TrimLeft(s)
    ensures Strip(s) == TrimRight(l) && Strip(s) == l[..|Strip(s)|]
  {
  }

  /** Whitespace after a prefix of the suffix from `k` is whitespace of `s` itself. */
  lemma SpaceAfterSlice(s: string, l: string, r: string, k: nat)
    requires k <= |s| && l == s[k..] && |r| <= |l| && AllSpace(l[|r|..])
    ensures k + |r| <= |s| && AllSpace(s[k + |r|..])
  {
    assert s[k + |r|..] == l[|r|..];
  }

  /** `strip()` leaves nothing exactly when the text is all whitespace. */
  lemma StripEmptyIff(s: string)
    ensures Strip(s) == [] <==> AllSpace(s)
  {
    var l := TrimLeft(s);
    if AllSpace(s) {
      TrimLeftAllSpace(s);
    }
    if l != [] {
      TrimRightDropsSpace(l);
      assert !IsSpace(l[0]);
      assert TrimRight(l) != [];
    }
    if l == [] {
      TrimLeftDropsSpace(s);
      assert s[..|s|] == s;
    }
  }

  lemma {:induction false} TrimLeftPadded(ws: string, s: string)
    requires AllSpace(ws)
    ensures TrimLeft(ws + s) == TrimLeft(s)
    decreases |ws|
  {
    if ws == [] {
      assert ws + s == s;
    } else {
      assert (ws + s)[1..] == ws[1..] + s;
      TrimLeftPadded(ws[1..], s);
    }
  }

  lemma {:induction false} TrimRightPadded(s: string, ws: string)
    requires AllSpace(ws)
    ensures TrimRight(s + ws) == TrimRight(s)
    decreases |ws|
  {
    if ws == [] {
      assert s + ws == s;
    } else {
      assert (s + ws)[..|s + ws| - 1] == s + ws[..|ws| - 1];
      TrimRightPadded(s, ws[..|ws| - 1]);
    }
  }

  lemma {:induction false} TrimLeftAppend(s: string, t: string)
    requires TrimLeft(s) != []
    ensures TrimLeft(s + t) == TrimLeft(s) + t
    decreases |s|
  {
    if IsSpace(s[0]) {
      assert (s + t)[1..] == s[1..] + t;
      TrimLeftAppend(s[1..], t);
    }
  }

  lemma {:induction false} TrimLeftAllSpace(s: string)
    requires AllSpace(s)
    ensures TrimLeft(s) == []
    decreases |s|
  {
    if s != [] {
      TrimLeftAllSpace(s[1..]);
    }
  }

  /** Surrounding whitespace makes no difference to `strip()`. */
  lemma StripPadded(pre: string, s: string, post: string)
    requires AllSpace(pre) && AllSpace(post)
    ensures Strip(pre + s + post) == Strip(s)
  {
    assert pre + s + post == pre + (s + post);
    TrimLeftPadded(pre, s + post);
    if TrimLeft(s) == [] {
      var k := |s| - |TrimLeft(s)|;
      TrimLeftDropsSpace(s);
      assert s == s[..k];
      assert AllSpace(s + post);
      TrimLeftAllSpace(s + post);
    } else {
      TrimLeftAppend(s, post);
      TrimRightPadded(TrimLeft(s), post);
    }
  }

  /** A string free of whitespace at both ends is its own `strip()`. */
  lemma StripOfTrimmed(s: string)
    requires s == [] || (!IsSpace(s[0]) && !IsSpace(s[|s| - 1]))
    ensures Strip(s) == s
  {
  }

  /** `p` occurs in `s` at index `i`. */
  predicate OccursAt(s: string, p: string, i: int) {
    0 <= i && i + |p| <= |s| && s[i..i + |p|] == p
  }

  /** `s.find(p, i)`, as an option: the leftmost occurrence of `p` at or after `i`. */
  function FindFrom(s: string, p: string, i: nat): (r: Option<nat>)
    ensures r.Some? ==> i <= r.value && OccursAt(s, p, r.value)
    ensures r.Some? ==> forall j :: i <= j < r.value ==> !OccursAt(s, p, j)
    ensures r.None? ==> forall j :: i <= j ==> !OccursAt(s, p, j)
    decreases |s| - i
  {
    if i + |p| > |s| then None
    else if s[i..i + |p|] == p then Some(i)
    else FindFrom(s, p, i + 1)
  }

  /** `p in s` */
  predicate Contains(s: string, p: string) {
    FindFrom(s, p, 0).Some?
  }

  lemma ContainsAt(s: string, p: string, i: int)
    requires OccursAt(s, p, i)
    ensures Contains(s, p)
  {
  }

  /** An occurrence of `p` inside `s[k..]` is an occurrence in `s`, shifted. */
  lemma OccursShift(s: string, p: string, k: nat, i: int)
    requires k <= |s|
    ensures OccursAt(s[k..], p, i) <==> (i >= 0 && OccursAt(s, p, k + i))
  {
    if i >= 0 && i + |p| <= |s| - k {
      assert s[k..][i..i + |p|] == s[k + i..k + i + |p|];
    }
  }

  /** A string that never holds the character `p[j]` holds no occurrence of `p`. */
  lemma AbsentChar(s: string, p: string, j: nat, i: int)
    requires j < |p|
    requires p[j] !in s
    ensures !OccursAt(s, p, i)
  {
    if 0 <= i && i + |p| <= |s| {
      assert s[i..i + |p|][j] == s[i + j];
    }
  }

  /** `s.split(sep)[1]` for an `s` that starts with `sep`: the text between the
      first occurrence (at 0) and the second occurrence of `sep`, or the end. */
  function SplitSecond(s: string, sep: string): (seg: string)
    requires |sep| > 0 && sep <= s
    ensures |sep| + |seg| <= |s| && seg == s[|sep|..|sep| + |seg|]
    ensures forall j :: |sep| <= j < |sep| + |seg| ==> !OccursAt(s, sep, j)
    ensures |sep| + |seg| == |s| || OccursAt(s, sep, |sep| + |seg|)
  {
    match FindFrom(s, sep, |sep|)
    case Some(e) => s[|sep|..e]
    case None => s[|sep|..]
  }

  /** The segment is the longest run without `sep` starting right after the prefix:
      neither it nor any part of it contains `sep`. */
  lemma SegmentHasNoSep(s: string, sep: string, i: int)
    requires |sep| > 0 && sep <= s
    ensures !OccursAt(SplitSecond(s, sep), sep, i)
  {
    var seg := SplitSecond(s, sep);
    if OccursAt(seg, sep, i) {
      assert s[|sep|..][..|seg|] == seg;
      assert OccursAt(s[|sep|..], sep, i);
      OccursShift(s, sep, |sep|, i);
    }
  }

  /** The end of the whitespace run that starts at `i`. */
  function SkipSpace(s: string, i: nat): (j: nat)
    requires i <= |s|
    ensures i <= j <= |s|
    ensures forall k :: i <= k < j ==> IsSpace(s[k])
    ensures j == |s| || !IsSpace(s[j])
    decreases |s| - i
  {
    if i < |s| && IsSpace(s[i]) then SkipSpace(s, i + 1) else i
  }

  /** The end of the word (whitespace-free run) that starts at `i`. */
  function SkipWord(s: string, i: nat): (j: nat)
    requires i <= |s|
    ensures i <= j <= |s|
    ensures forall k :: i <= k < j ==> !IsSpace(s[k])
    ensures j == |s| || IsSpace(s[j])
    decreases |s| - i
  {
    if i < |s| && !IsSpace(s[i]) then SkipWord(s, i + 1) else i
  }

  /** `s.split(None, 1)`: at most two parts, the first word and the rest of the
      line after the whitespace that follows it (trailing whitespace kept). */
  function SplitOnce(s: string): (parts: seq<string>)
    ensures |parts| <= 2
    ensures parts == [] <==> AllSpace(s)
    ensures |parts| >= 1 ==> parts[0] != [] && forall i :: 0 <= i < |parts[0]| ==> !IsSpace(parts[0][i])
    ensures |parts| == 2 ==> parts[1] != [] && !IsSpace(parts[1][0])
    ensures |parts| == 2 ==> |parts[1]| <= |s| && parts[1] == s[|s| - |parts[1]|..]
  {
    var i := SkipSpace(s, 0);
    if i == |s| then []
    else
      var w := SkipWord(s, i);
      var k := SkipSpace(s, w);
      if k == |s| then [s[i..w]] else [s[i..w], s[k..]]
  }

  /** Where the parts of a `split(None, 1)` of `s` come from, when its leading
      whitespace ends at `i`: the first part is the word that starts at `i`, and
      what separates it from the rest (or follows it, when there is no rest) is
      whitespace. */
  predicate SplitShape(s: string, parts: seq<string>, i: nat) {
    |parts| >= 1 ==>
      var e := i + |parts[0]|;
      e <= |s| && parts[0] == s[i..e] && (e == |s| || IsSpace(s[e])) &&
      AllSpace(s[..i]) &&
      (|parts| == 1 ==> AllSpace(s[e..])) &&
      (|parts| == 2 ==> e < |s| - |parts[1]| && AllSpace(s[e..|s| - |parts[1]|]))
  }

  /** The parts of `s.split(None, 1)` are cut out of `s` as `SplitShape` says. */
  lemma SplitOnceShape(s: string)
    ensures SplitShape(s, SplitOnce(s), SkipSpace(s, 0))
  {
    var i := SkipSpace(s, 0);
    if i < |s| {
      var w := SkipWord(s, i);
      var k := SkipSpace(s, w);
      SpaceRun(s, 0, i);
      SpaceRun(s, w, k);
      SplitOnceAt(s, i, w, k);
      ShapeOfRuns(s, SplitOnce(s), i, w, k);
    }
  }

  /** A run of whitespace characters is an all-whitespace slice. */
  lemma SpaceRun(s: string, lo: nat, hi: nat)
    requires lo <= hi <= |s|
    requires forall j :: lo <= j < hi ==> IsSpace(s[j])
    ensures AllSpace(s[lo..hi])
  {
    assert forall j :: 0 <= j < hi - lo ==> s[lo..hi][j] == s[lo + j];
  }

  /** `SplitOnce` cuts at the ends of the leading run, the word and the gap. */
  lemma SplitOnceAt(s: string, i: nat, w: nat, k: nat)
    requires i == SkipSpace(s, 0) < |s| && w == SkipWord(s, i) && k == SkipSpace(s, w)
    ensures i < w <= k <= |s| && (w == |s| || IsSpace(s[w])) && (k < |s| ==> w < k)
    ensures SplitOnce(s) == if k == |s| then [s[i..w]] else [s[i..w], s[k..]]
  {
  }

  lemma ShapeOfRuns(s: string, parts: seq<string>, i: nat, w: nat, k: nat)
    requires i < w <= k <= |s| && (w == |s| || IsSpace(s[w])) && (k < |s| ==> w < k)
    requires parts == if k == |s| then [s[i..w]] else [s[i..w], s[k..]]
    requires AllSpace(s[0..i]) && AllSpace(s[w..k])
    ensures SplitShape(s, parts, i)
  {
    assert s[..i] == s[0..i];
    if k == |s| {
      assert s[w..] == s[w..k];
    }
  }

  /** `(w + " " + rest).split(None, 1) == [w, rest]` for a word `w` and a `rest`
      that does not start with whitespace. */
  lemma SplitWordAndRest(w: string, rest: string)
    requires w != [] && forall i :: 0 <= i < |w| ==> !IsSpace(w[i])
    requires rest != [] && !IsSpace(rest[0])
    ensures SplitOnce(w + " " + rest) == [w, rest]
  {
    var s := w + " " + rest;
    assert SkipSpace(s, 0) == 0 by { assert s[0] == w[0]; }
    var e := SkipWord(s, 0);
    assert e == |w| by {
      assert s[|w|] == ' ';
      assert forall k :: 0 <= k < |w| ==> s[k] == w[k];
    }
    assert SkipSpace(s, |w|) == |w| + 1 by { assert s[|w| + 1] == rest[0]; }
    assert s[..|w|] == w;
    assert s[|w| + 1..] == rest;
  }

  /** `w.split(None, 1) == [w]` for a single word `w`. */
  lemma SplitWord(w: string)
    requires w != [] && forall i :: 0 <= i < |w| ==> !IsSpace(w[i])
    ensures SplitOnce(w) == [w]
  {
    assert SkipSpace(w, 0) == 0;
    assert SkipWord(w, 0) == |w|;
    assert w[0..|w|] == w;
  }

  /** An occurrence inside a slice is an occurrence in the whole string. */
  lemma OccursInSlice(s: string, lo: nat, hi: nat, p: string, i: int)
    requires lo <= hi <= |s|
    ensures OccursAt(s[lo..hi], p, i) ==> OccursAt(s, p, lo + i)
  {
    if 0 <= i && i + |p| <= hi - lo {
      var a := s[lo..hi][i..i + |p|];
      var b := s[lo + i..lo + i + |p|];
      assert forall k :: 0 <= k < |a| ==> a[k] == b[k];
      assert a == b;
    }
  }

  /** A slice of a text free of `p` is free of `p`. */
  lemma SliceKeepsAbsence(s: string, lo: nat, hi: nat, p: string, i: int)
    requires lo <= hi <= |s|
    requires forall j :: !OccursAt(s, p, j)
    ensures !OccursAt(s[lo..hi], p, i)
  {
    OccursInSlice(s, lo, hi, p, i);
    assert !OccursAt(s, p, lo + i);
  }

  /** No tail of `strip()` of a text free of `p` holds `p`. */
  lemma StripKeepsAbsence(seg: string, p: string, tail: string, i: int)
    requires forall j :: !OccursAt(seg, p, j)
    requires |tail| <= |Strip(seg)| && tail == Strip(seg)[|Strip(seg)| - |tail|..]
    ensures !OccursAt(tail, p, i)
  {
    var l := TrimLeft(seg);
    var r := TrimRight(l);
    assert r == Strip(seg);
    assert seg[|seg| - |l|..|seg|] == l;
    forall j ensures !OccursAt(l, p, j) {
      SliceKeepsAbsence(seg, |seg| - |l|, |seg|, p, j);
    }
    assert l[0..|r|] == r;
    forall j ensures !OccursAt(r, p, j) {
      SliceKeepsAbsence(l, 0, |r|, p, j);
    }
    assert r[|r| - |tail|..|r|] == tail;
    SliceKeepsAbsence(r, |r| - |tail|, |r|, p, i);
  }

  /** When `x` holds no `sep`, `(sep + x).split(sep)[1]` is all of `x`. */
  lemma SplitSecondWhole(sep: string, x: string)
    requires |sep| > 0
    requires forall i :: !OccursAt(x, sep, i)
    ensures SplitSecond(sep + x, sep) == x
  {
    var s := sep + x;
    assert s[|sep|..] == x;
    var seg := SplitSecond(s, sep);
    if |sep| + |seg| < |s| {
      OccursShift(s, sep, |sep|, |seg|);
      assert false;
    }
  }

  /** When `x` never holds the first character of `sep`, `(sep + x).split(sep)[1]` is `x`. */
  lemma SplitAfterPrefix(sep: string, x: string)
    requires |sep| > 0 && sep[0] !in x
    ensures SplitSecond(sep + x, sep) == x
  {
    forall i ensures !OccursAt(x, sep, i) {
      AbsentChar(x, sep, 0, i);
    }
    SplitSecondWhole(sep, x);
  }

  /** Text without an upper-case letter. */
  predicate NoUpper(s: string) {
    forall i :: 0 <= i < |s| ==> !IsUpper(s[i])
  }

  lemma LowerOfNoUpper(s: string)
    requires NoUpper(s)
    ensures Lower(s) == s
  {
  }

  lemma SpaceNoUpper(s: string)
    requires AllSpace(s)
    ensures NoUpper(s)
  {
  }

  lemma NoUpperAppend(a: string, b: string)
    requires NoUpper(a) && NoUpper(b)
    ensures NoUpper(a + b)
  {
    forall i | 0 <= i < |a + b| ensures !IsUpper((a + b)[i]) {
      if i >= |a| {
        assert (a + b)[i] == b[i - |a|];
      }
    }
  }

  /** One leading blank before trimmed text is all that `strip()` removes. */
  lemma StripLeadingBlank(body: string)
    requires body != [] && !IsSpace(body[0]) && !IsSpace(body[|body| - 1])
    ensures Strip(" " + body) == body
  {
    StripPadded(" ", body, []);
    assert " " + body + [] == " " + body;
    StripOfTrimmed(body);
  }

  lemma PrefixOfAppend(p: string, x: string)
    ensures p <= p + x
  {
  }

  /** Strings that differ at an index inside both are not prefix and extension. */
  lemma NotPrefixAt(p: string, s: string, i: nat)
    requires i < |p| && i < |s| && p[i] != s[i]
    ensures !(p <= s)
  {
  }

  /** Trailing whitespace after trimmed text is all that `strip()` removes. */
  lemma StripTrailing(s: string, ws: string)
    requires s != [] && !IsSpace(s[0]) && !IsSpace(s[|s| - 1])
    requires AllSpace(ws)
    ensures Strip(s + ws) == s
  {
    StripPadded([], s, ws);
    assert [] + s + ws == s + ws;
    StripOfTrimmed(s);
  }
}
