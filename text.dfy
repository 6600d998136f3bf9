/** The string operations the job relies on: Python's `strip`, `in`,
    `split` and `join`, on `seq<char>`.  Whitespace is ASCII whitespace and
    lines are separated by '\n' only. */
module Text {
  import opened Wrappers

  /** The ASCII characters Python's `str.strip()` removes (those
      `str.isspace()` accepts): space, tab, '\n', vertical tab, form feed,
      '\r', and the separators 0x1C to 0x1F. */
  predicate IsSpace(c: char) {
    c == ' ' || '\t' <= c <= '\r' || '\U{001C}' <= c <= '\U{001F}'
  }

  predicate AllSpace(s: string) {
    forall i :: 0 <= i < |s| ==> IsSpace(s[i])
  }

  /** `s` neither begins nor ends with whitespace. */
  predicate Stripped(s: string) {
    s == [] || (!IsSpace(s[0]) && !IsSpace(s[|s| - 1]))
  }

  /** How many whitespace characters `s` begins with. */
  function LeadingSpace(s: string): (n: nat)
    ensures n <= |s|
    ensures forall i :: 0 <= i < n ==> IsSpace(s[i])
    ensures n < |s| ==> !IsSpace(s[n])
  {
    if |s| > 0 && IsSpace(s[0]) then
      var n := 1 + LeadingSpace(s[1..]);
      assert forall i :: 1 <= i < n ==> s[i] == s[1..][i - 1];
      n
    else
      0
  }

  /** Where the whitespace `s` ends with begins. */
  function TrailingSpace(s: string): (n: nat)
    ensures n <= |s|
    ensures forall i :: n <= i < |s| ==> IsSpace(s[i])
    ensures 0 < n ==> !IsSpace(s[n - 1])
  {
    if |s| > 0 && IsSpace(s[|s| - 1]) then
      var n := TrailingSpace(s[..|s| - 1]);
      assert forall i :: n <= i < |s| - 1 ==> s[i] == s[..|s| - 1][i];
      n
    else
      |s|
  }

  /** The leading whitespace is the longest whitespace prefix. */
  lemma LeadingSpaceIs(s: string, k: nat)
    requires k <= |s| && (forall i :: 0 <= i < k ==> IsSpace(s[i])) && (k < |s| ==> !IsSpace(s[k]))
    ensures LeadingSpace(s) == k
  {
  }

  /** The trailing whitespace is the longest whitespace suffix. */
  lemma TrailingSpaceIs(s: string, k: nat)
    requires k <= |s| && (forall i :: k <= i < |s| ==> IsSpace(s[i])) && (0 < k ==> !IsSpace(s[k - 1]))
    ensures TrailingSpace(s) == k
  {
  }

  /** Python's `s.lstrip()`. */
  function TrimStart(s: string): string {
    s[LeadingSpace(s)..]
  }

  /** Python's `s.rstrip()`. */
  function TrimEnd(s: string): string {
    s[..TrailingSpace(s)]
  }

  /** Python's `s.strip()`: the text between leading and trailing whitespace. */
  function Trim(s: string): (r: string)
    ensures Stripped(r)
  {
    var t := TrimStart(s);
    assert t != [] ==> !IsSpace(t[0]);
    TrimEnd(t)
  }

  lemma LeadingSpaceAll(s: string)
    ensures AllSpace(s[..LeadingSpace(s)])
  {
    var w := s[..LeadingSpace(s)];
    forall k | 0 <= k < |w| ensures IsSpace(w[k]) {
      assert w[k] == s[k];
    }
  }

  lemma TrailingSpaceAll(s: string)
    ensures AllSpace(s[TrailingSpace(s)..])
  {
    var n := TrailingSpace(s);
    var w := s[n..];
    forall k | 0 <= k < |w| ensures IsSpace(w[k]) {
      assert w[k] == s[n + k];
    }
  }

  /** `s` cut at `i` and `j` into three pieces. */
  lemma Pieces(s: string, i: nat, j: nat)
    requires i <= j <= |s|
    ensures s == s[..i] + s[i..j] + s[j..]
  {
  }

  /** `s` is `Trim(s)` with whitespace `w1` before it and `w2` after it. */
  lemma TrimInfix(s: string) returns (w1: string, w2: string)
    ensures s == w1 + Trim(s) + w2 && AllSpace(w1) && AllSpace(w2)
  {
    var i := LeadingSpace(s);
    var t := s[i..];
    var b := TrailingSpace(t);
    assert Trim(s) == t[..b] == s[i..i + b];
    LeadingSpaceAll(s);
    TrailingSpaceAll(t);
    assert s[i + b..] == t[b..];
    w1, w2 := s[..i], s[i + b..];
    Pieces(s, i, i + b);
  }

  /** The only split of `s` into leading whitespace, a stripped middle and
      trailing whitespace has `Trim(s)` in the middle. */
  lemma TrimUnique(s: string, w1: string, m: string, w2: string)
    requires s == w1 + m + w2 && AllSpace(w1) && AllSpace(w2) && Stripped(m)
    ensures Trim(s) == m
  {
    if m == [] {
      assert forall i :: 0 <= i < |s| ==> IsSpace(s[i]) by {
        forall i | 0 <= i < |s| ensures IsSpace(s[i]) {
          if i < |w1| { assert s[i] == w1[i]; } else { assert s[i] == w2[i - |w1|]; }
        }
      }
      LeadingSpaceIs(s, |s|);
      assert TrimStart(s) == [];
    } else {
      forall i | 0 <= i < |w1| ensures IsSpace(s[i]) {
        assert s[i] == w1[i];
      }
      assert s[|w1|] == m[0];
      LeadingSpaceIs(s, |w1|);
      var t := s[|w1|..];
      assert t == m + w2;
      forall i | |m| <= i < |t| ensures IsSpace(t[i]) {
        assert t[i] == w2[i - |m|];
      }
      assert t[|m| - 1] == m[|m| - 1];
      TrailingSpaceIs(t, |m|);
      assert t[..|m|] == m;
    }
  }

  lemma TrimOfStripped(s: string)
    requires Stripped(s)
    ensures Trim(s) == s
  {
    assert s == [] + s + [];
    TrimUnique(s, [], s, []);
  }

  lemma TrimAllSpace(s: string)
    requires AllSpace(s)
    ensures Trim(s) == []
  {
    assert s == s + [] + [];
    TrimUnique(s, s, [], []);
  }

  lemma AllSpaceConcat(a: string, b: string)
    requires AllSpace(a) && AllSpace(b)
    ensures AllSpace(a + b)
  {
    forall k | 0 <= k < |a + b| ensures IsSpace((a + b)[k]) {
      if k >= |a| { assert (a + b)[k] == b[k - |a|]; }
    }
  }

  lemma Regroup(a: string, b: string, c: string, d: string)
    ensures a + (b + c + d) == (a + b) + c + d
    ensures (a + b + c) + d == a + b + (c + d)
  {
  }

  /** Whitespace added on the left does not change the trimmed text. */
  lemma TrimSpacePrefix(w: string, p: string)
    requires AllSpace(w)
    ensures Trim(w + p) == Trim(p)
  {
    var w1, w2 := TrimInfix(p);
    AllSpaceConcat(w, w1);
    Regroup(w, w1, Trim(p), w2);
    TrimUnique(w + p, w + w1, Trim(p), w2);
  }

  /** Whitespace added on the right does not change the trimmed text. */
  lemma TrimSpaceSuffix(p: string, w: string)
    requires AllSpace(w)
    ensures Trim(p + w) == Trim(p)
  {
    var w1, w2 := TrimInfix(p);
    AllSpaceConcat(w2, w);
    Regroup(w1, Trim(p), w2, w);
    TrimUnique(p + w, w1, Trim(p), w2 + w);
  }

  /** Python's `s.find(c)`, with `None` for -1. */
  function IndexOf(s: string, c: char): (r: Option<nat>)
    ensures r.None? ==> forall j :: 0 <= j < |s| ==> s[j] != c
    ensures r.Some? ==> r.value < |s| && s[r.value] == c && forall j :: 0 <= j < r.value ==> s[j] != c
  {
    if |s| == 0 then None
    else if s[0] == c then Some(0)
    else
      var r := IndexOf(s[1..], c);
      assert forall j :: 1 <= j < |s| ==> s[j] == s[1..][j - 1];
      if r.None? then None else Some(r.value + 1)
  }

  /** `c` occurs in `s` exactly when `IndexOf` finds it. */
  lemma IndexOfFinds(s: string, c: char)
    ensures IndexOf(s, c).Some? <==> c in s
  {
  }

  lemma IndexOfUnique(s: string, c: char, k: nat)
    requires k < |s| && s[k] == c && c !in s[..k]
    ensures IndexOf(s, c) == Some(k)
  {
    forall j | 0 <= j < k ensures s[j] != c {
      assert s[j] == s[..k][j];
    }
  }

  /** `String.join` with a one-character separator. */
  function Join(parts: seq<string>, c: char): string {
    if |parts| == 0 then ""
    else if |parts| == 1 then parts[0]
    else parts[0] + [c] + Join(parts[1..], c)
  }

  /** `s.split(c)`: the pieces between the occurrences of `c`. */
  function Split(s: string, c: char): (r: seq<string>)
    ensures |r| >= 1
    decreases |s|
  {
    match IndexOf(s, c)
    case None => [s]
    case Some(k) => [s[..k]] + Split(s[k + 1..], c)
  }

  /** No piece holds the separator. */
  lemma {:induction false} SplitPieces(s: string, c: char)
    ensures forall i :: 0 <= i < |Split(s, c)| ==> c !in Split(s, c)[i]
    decreases |s|
  {
    var k := IndexOf(s, c);
    if k.Some? {
      SplitPieces(s[k.value + 1..], c);
      SplitFirst(s, c, k.value);
      assert c !in s[..k.value];
    }
  }

  /** Joining the pieces gives back the text. */
  lemma {:induction false} JoinSplit(s: string, c: char)
    ensures Join(Split(s, c), c) == s
    decreases |s|
  {
    match IndexOf(s, c)
    case None =>
    case Some(k) =>
      JoinSplit(s[k + 1..], c);
      var rest := Split(s[k + 1..], c);
      var r := [s[..k]] + rest;
      assert r[1..] == rest;
      assert s == s[..k] + [c] + s[k + 1..];
  }

  /** Splitting undoes joining, when no part holds the separator. */
  lemma {:induction false} SplitJoin(parts: seq<string>, c: char)
    requires |parts| >= 1
    requires forall i :: 0 <= i < |parts| ==> c !in parts[i]
    ensures Split(Join(parts, c), c) == parts
  {
    if |parts| == 1 {
      var p := parts[0];
      assert Join(parts, c) == p;
      IndexOfFinds(p, c);
      assert Split(p, c) == [p];
    } else {
      var p := parts[0];
      var tail := Join(parts[1..], c);
      var s := p + [c] + tail;
      assert Join(parts, c) == s;
      assert s[..|p|] == p;
      IndexOfUnique(s, c, |p|);
      assert s[|p| + 1..] == tail;
      SplitFirst(s, c, |p|);
      SplitJoin(parts[1..], c);
      assert parts == [p] + parts[1..];
    }
  }

  /** The pieces of `a + b` from those of `a` and of `b`: the last piece of
      `a` and the first of `b` become one. */
  function Fuse(x: seq<string>, y: seq<string>): seq<string>
    requires |x| >= 1 && |y| >= 1
  {
    x[..|x| - 1] + [x[|x| - 1] + y[0]] + y[1..]
  }

  lemma FuseCons(h: string, x: seq<string>, y: seq<string>)
    requires |x| >= 1 && |y| >= 1
    ensures Fuse([h] + x, y) == [h] + Fuse(x, y)
  {
    assert ([h] + x)[..|x|] == [h] + x[..|x| - 1];
  }

  lemma {:induction false} SplitAppend(a: string, b: string, c: char)
    ensures Split(a + b, c) == Fuse(Split(a, c), Split(b, c))
    decreases |a|
  {
    var ia := IndexOf(a, c);
    if ia.None? {
      SplitAppendNoSeparator(a, b, c);
      assert Split(a, c) == [a];
    } else {
      var k := ia.value;
      SplitAppendFirst(a, b, c, k);
      SplitAppend(a[k + 1..], b, c);
      SplitFirst(a, c, k);
      FuseCons(a[..k], Split(a[k + 1..], c), Split(b, c));
    }
  }

  lemma SplitFirst(a: string, c: char, k: nat)
    requires IndexOf(a, c) == Some(k)
    ensures Split(a, c) == [a[..k]] + Split(a[k + 1..], c)
  {
  }

  lemma SplitAppendFirst(a: string, b: string, c: char, k: nat)
    requires IndexOf(a, c) == Some(k)
    ensures Split(a + b, c) == [a[..k]] + Split(a[k + 1..] + b, c)
  {
    var s := a + b;
    assert s[..k] == a[..k];
    IndexOfUnique(s, c, k);
    SplitFirst(s, c, k);
    assert s[k + 1..] == a[k + 1..] + b;
  }

  lemma SplitNone(a: string, c: char)
    requires IndexOf(a, c).None?
    ensures Split(a, c) == [a]
  {
  }

  lemma SplitAppendNoSeparator(a: string, b: string, c: char)
    requires IndexOf(a, c).None?
    ensures var sb := Split(b, c);
      Split(a + b, c) == [a + sb[0]] + sb[1..]
  {
    if IndexOf(b, c).None? {
      SplitAppendNeither(a, b, c);
    } else {
      SplitAppendSecond(a, b, c, IndexOf(b, c).value);
    }
  }

  lemma SplitAppendNeither(a: string, b: string, c: char)
    requires IndexOf(a, c).None? && IndexOf(b, c).None?
    ensures Split(a + b, c) == [a + b]
  {
    var s := a + b;
    forall j | 0 <= j < |s| ensures s[j] != c {
      if j < |a| { assert s[j] == a[j]; } else { assert s[j] == b[j - |a|]; }
    }
    IndexOfFinds(s, c);
    SplitNone(s, c);
  }

  lemma IndexOfAfter(a: string, b: string, c: char, k: nat)
    requires IndexOf(a, c).None? && IndexOf(b, c) == Some(k)
    ensures IndexOf(a + b, c) == Some(|a| + k)
  {
    var s := a + b;
    forall j | 0 <= j < |a| + k ensures s[j] != c {
      if j < |a| { assert s[j] == a[j]; } else { assert s[j] == b[j - |a|]; }
    }
    assert s[|a| + k] == c;
  }

  lemma SplitAppendSecond(a: string, b: string, c: char, k: nat)
    requires IndexOf(a, c).None? && IndexOf(b, c) == Some(k)
    ensures Split(a + b, c) == [a + b[..k]] + Split(b[k + 1..], c)
  {
    var s := a + b;
    IndexOfAfter(a, b, c, k);
    SplitFirst(s, c, |a| + k);
    assert s[..|a| + k] == a + b[..k];
    assert s[|a| + k + 1..] == b[k + 1..];
  }

  /** Every piece of a whitespace-only text is whitespace-only. */
  lemma {:induction false} SplitAllSpace(w: string, c: char)
    requires AllSpace(w)
    ensures forall i :: 0 <= i < |Split(w, c)| ==> AllSpace(Split(w, c)[i])
    decreases |w|
  {
    var k := IndexOf(w, c);
    if k.Some? {
      var j := k.value;
      assert AllSpace(w[..j]) by {
        forall i | 0 <= i < j ensures IsSpace(w[..j][i]) { assert w[..j][i] == w[i]; }
      }
      var tail := w[j + 1..];
      assert AllSpace(tail) by {
        forall i | 0 <= i < |tail| ensures IsSpace(tail[i]) { assert tail[i] == w[j + 1 + i]; }
      }
      SplitAllSpace(w[j + 1..], c);
      SplitFirst(w, c, j);
    }
  }
}
