/** The .NET string operations the CLI relies on, over `string` = `seq<char>`:
    `char.IsWhiteSpace`, `string.Trim`, `string.IndexOf`/`LastIndexOf` on a char,
    `string.Join`, and two specification helpers (whitespace removal and concatenation). */
module Strings {

  /** `char.IsWhiteSpace`: the Unicode space, line and paragraph separators,
      U+0009..U+000D and U+0085. `string.Trim` and `string.IsNullOrWhiteSpace`
      use the same set. */
  predicate IsWs(c: char)
  {
    || c == ' '
    || ('\t' <= c <= '\r')
    || c == '\U{0085}'
    || c == '\U{00A0}'
    || c == '\U{1680}'
    || ('\U{2000}' <= c <= '\U{200A}')
    || c == '\U{2028}'
    || c == '\U{2029}'
    || c == '\U{202F}'
    || c == '\U{205F}'
    || c == '\U{3000}'
  }

  /** `string.IsNullOrWhiteSpace` on a non-null string: empty or whitespace only. */
  predicate AllWs(s: string)
  {
    forall i :: 0 <= i < |s| ==> IsWs(s[i])
  }

  /** The first index in `[i, hi)` that does not hold whitespace, or `hi`: the
      forward scan of `string.Trim` and of the skip loop in `SplitIntoChunks`. */
  function SkipWs(s: string, i: nat, hi: nat): (j: nat)
    requires i <= hi <= |s|
    ensures i <= j <= hi
    decreases hi - i
  {
    if i < hi && IsWs(s[i]) then SkipWs(s, i + 1, hi) else i
  }

  /** `SkipWs` steps over exactly one run of whitespace. */
  lemma {:induction false} SkipWsSpec(s: string, i: nat, hi: nat)
    requires i <= hi <= |s|
    ensures forall k :: i <= k < SkipWs(s, i, hi) ==> IsWs(s[k])
    ensures SkipWs(s, i, hi) < hi ==> !IsWs(s[SkipWs(s, i, hi)])
    decreases hi - i
  {
    if i < hi && IsWs(s[i]) {
      SkipWsSpec(s, i + 1, hi);
    }
  }

  /** The backward scan of `string.Trim`, from `j` down to no further than
      `lo`: the smallest index `i >= lo` such that `s[i..j]` is all whitespace. */
  function SkipWsBack(s: string, j: nat, lo: nat): (i: nat)
    requires lo <= j <= |s|
    ensures lo <= i <= j
    decreases j
  {
    if j > lo && IsWs(s[j - 1]) then SkipWsBack(s, j - 1, lo) else j
  }

  /** `SkipWsBack` steps back over exactly one run of whitespace. */
  lemma {:induction false} SkipWsBackSpec(s: string, j: nat, lo: nat)
    requires lo <= j <= |s|
    ensures forall k :: SkipWsBack(s, j, lo) <= k < j ==> IsWs(s[k])
    ensures SkipWsBack(s, j, lo) > lo ==> !IsWs(s[SkipWsBack(s, j, lo) - 1])
    decreases j
  {
    if j > lo && IsWs(s[j - 1]) {
      SkipWsBackSpec(s, j - 1, lo);
    }
  }

  /** `string.Trim()`: the slice of `s` left once the leading and trailing
      whitespace is removed. */
  function Trim(s: string): string
  {
    var a := SkipWs(s, 0, |s|);
    s[a..SkipWsBack(s, |s|, a)]
  }

  /** `Trim` removes whitespace only, and all of it at both ends. */
  lemma TrimSpec(s: string)
    ensures var a, t := SkipWs(s, 0, |s|), Trim(s);
      && a + |t| <= |s|
      && t == s[a..a + |t|]
      && AllWs(s[..a]) && AllWs(s[a + |t|..])
      && (t == [] <==> AllWs(s))
      && (t != [] ==> !IsWs(t[0]) && !IsWs(t[|t| - 1]))
  {
    var a := SkipWs(s, 0, |s|);
    var e := SkipWsBack(s, |s|, a);
    SkipWsSpec(s, 0, |s|);
    SkipWsBackSpec(s, |s|, a);
    assert a < |s| ==> a < e;
    var head, tail := s[..a], s[e..];
    forall k | 0 <= k < |head| ensures IsWs(head[k]) { }
    forall k | 0 <= k < |tail| ensures IsWs(tail[k]) { assert tail[k] == s[e + k]; }
  }

  /** Scanning a slice is scanning the string between the slice's bounds. */
  lemma {:induction false} SkipWsSlice(s: string, lo: nat, hi: nat, i: nat)
    requires lo <= i <= hi <= |s|
    ensures SkipWs(s[lo..hi], i - lo, hi - lo) == SkipWs(s, i, hi) - lo
    decreases hi - i
  {
    if i < hi {
      assert s[lo..hi][i - lo] == s[i];
      SkipWsSlice(s, lo, hi, i + 1);
    }
  }

  lemma {:induction false} SkipWsBackSlice(s: string, lo: nat, hi: nat, j: nat, stop: nat)
    requires lo <= stop <= j <= hi <= |s|
    ensures SkipWsBack(s[lo..hi], j - lo, stop - lo) == SkipWsBack(s, j, stop) - lo
    decreases j
  {
    if j > stop {
      assert s[lo..hi][j - 1 - lo] == s[j - 1];
      SkipWsBackSlice(s, lo, hi, j - 1, stop);
    }
  }

  /** Trimming the slice `s[lo..hi]` keeps `s[a..z]`, where `a` skips the
      leading and `z` the trailing whitespace of the range. */
  lemma TrimSlice(s: string, lo: nat, hi: nat)
    requires lo <= hi <= |s|
    ensures var a := SkipWs(s, lo, hi);
      Trim(s[lo..hi]) == s[a..SkipWsBack(s, hi, a)]
  {
    var t := s[lo..hi];
    var a := SkipWs(s, lo, hi);
    var z := SkipWsBack(s, hi, a);
    SkipWsSlice(s, lo, hi, lo);
    SkipWsBackSlice(s, lo, hi, hi, a);
    TrimBetween(t, a - lo, z - lo);
    SliceOfSlice(s, lo, hi, a, z);
  }

  lemma TrimBetween(t: string, a: nat, z: nat)
    requires a == SkipWs(t, 0, |t|) && a <= z <= |t| && z == SkipWsBack(t, |t|, a)
    ensures Trim(t) == t[a..z]
  {
  }

  lemma SliceOfSlice(s: string, lo: nat, hi: nat, i: nat, j: nat)
    requires lo <= i <= j <= hi <= |s|
    ensures s[lo..hi][i - lo..j - lo] == s[i..j]
  {
    var u := s[lo..hi][i - lo..j - lo];
    assert forall k :: 0 <= k < j - i ==> u[k] == s[i..j][k];
  }

  /** `s.IndexOf(c)`, scanning from index `i`: the first index of `c` at or
      after `i`, or -1. */
  function IndexOfFrom(s: string, c: char, i: nat): (r: int)
    requires i <= |s|
    ensures r == -1 || i <= r < |s|
    decreases |s| - i
  {
    if i == |s| then -1 else if s[i] == c then i else IndexOfFrom(s, c, i + 1)
  }

  /** `s.IndexOf(c)`: the first index of `c` in `s`, or -1. */
  function IndexOf(s: string, c: char): (i: int)
    ensures -1 <= i < |s|
  {
    IndexOfFrom(s, c, 0)
  }

  lemma {:induction false} IndexOfFromSpec(s: string, c: char, i: nat)
    requires i <= |s|
    ensures IndexOfFrom(s, c, i) >= 0 ==> s[IndexOfFrom(s, c, i)] == c
    ensures forall k :: i <= k < |s| && (IndexOfFrom(s, c, i) < 0 || k < IndexOfFrom(s, c, i)) ==> s[k] != c
    decreases |s| - i
  {
    if i < |s| && s[i] != c {
      IndexOfFromSpec(s, c, i + 1);
    }
  }

  /** `IndexOf` finds `c`, and no `c` comes before it. */
  lemma IndexOfSpec(s: string, c: char)
    ensures IndexOf(s, c) >= 0 ==> s[IndexOf(s, c)] == c
    ensures forall k :: 0 <= k < |s| && (IndexOf(s, c) < 0 || k < IndexOf(s, c)) ==> s[k] != c
  {
    IndexOfFromSpec(s, c, 0);
  }

  /** The last index in `[lo, j)` holding `c`, or `lo - 1`: the backward scan
      of `s.LastIndexOf(c)`. */
  function LastIn(s: string, c: char, lo: nat, j: nat): (r: int)
    requires lo <= j <= |s|
    ensures lo - 1 <= r < j
    decreases j
  {
    if j == lo then lo - 1 else if s[j - 1] == c then j - 1 else LastIn(s, c, lo, j - 1)
  }

  /** A range without `c` is stepped over by the forward search. */
  lemma {:induction false} IndexOfFromSkip(s: string, c: char, i: nat, j: nat)
    requires i <= j <= |s| && c !in s[i..j]
    ensures IndexOfFrom(s, c, i) == IndexOfFrom(s, c, j)
    decreases j - i
  {
    if i < j {
      assert s[i] == s[i..j][0];
      assert s[i + 1..j] == s[i..j][1..];
      IndexOfFromSkip(s, c, i + 1, j);
    }
  }

  /** `s.LastIndexOf(c)`: the last index of `c` in `s`, or -1. */
  function LastIndexOf(s: string, c: char): (i: int)
    ensures -1 <= i < |s|
  {
    LastIn(s, c, 0, |s|)
  }

  /** `LastIn` finds `c`, and no `c` comes after it in the range. */
  lemma {:induction false} LastInSpec(s: string, c: char, lo: nat, j: nat)
    requires lo <= j <= |s|
    ensures LastIn(s, c, lo, j) >= lo ==> s[LastIn(s, c, lo, j)] == c
    ensures forall k :: LastIn(s, c, lo, j) < k < j ==> s[k] != c
    decreases j
  {
    if j > lo && s[j - 1] != c {
      LastInSpec(s, c, lo, j - 1);
    }
  }

  /** A range without `c` is stepped over by the backward search. */
  lemma {:induction false} LastInSkip(s: string, c: char, lo: nat, i: nat, j: nat)
    requires lo <= i <= j <= |s| && c !in s[i..j]
    ensures LastIn(s, c, lo, j) == LastIn(s, c, lo, i)
    decreases j
  {
    if i < j {
      assert s[j - 1] == s[i..j][j - 1 - i];
      assert s[i..j - 1] == s[i..j][..j - 1 - i];
      LastInSkip(s, c, lo, i, j - 1);
    }
  }

  /** Searching a slice is searching the string between the slice's bounds. */
  lemma {:induction false} LastInSlice(s: string, c: char, lo: nat, hi: nat, j: nat)
    requires lo <= j <= hi <= |s|
    ensures LastIn(s[lo..hi], c, 0, j - lo) == LastIn(s, c, lo, j) - lo
    decreases j
  {
    if j > lo {
      assert s[lo..hi][j - 1 - lo] == s[j - 1];
      LastInSlice(s, c, lo, hi, j - 1);
    }
  }

  lemma AppendAssoc<T>(a: seq<T>, b: seq<T>, c: seq<T>)
    ensures a + (b + c) == (a + b) + c
  {
  }

  /** `s` with every whitespace character removed. */
  function StripWs(s: string): string
  {
    if s == [] then [] else (if IsWs(s[0]) then [] else [s[0]]) + StripWs(s[1..])
  }

  lemma {:induction false} StripWsAppend(a: string, b: string)
    ensures StripWs(a + b) == StripWs(a) + StripWs(b)
  {
    if a != [] {
      assert (a + b)[0] == a[0];
      assert (a + b)[1..] == a[1..] + b;
      StripWsAppend(a[1..], b);
      var h := if IsWs(a[0]) then [] else [a[0]];
      calc {
        StripWs(a + b);
        h + StripWs(a[1..] + b);
        h + (StripWs(a[1..]) + StripWs(b));
        (h + StripWs(a[1..])) + StripWs(b);
      }
    } else {
      assert a + b == b;
    }
  }

  /** Removing the whitespace leaves nothing exactly when there was nothing else. */
  lemma {:induction false} StripWsEmpty(s: string)
    ensures StripWs(s) == [] <==> AllWs(s)
  {
    if s != [] {
      StripWsEmpty(s[1..]);
      if AllWs(s[1..]) && IsWs(s[0]) {
        forall i | 0 <= i < |s| ensures IsWs(s[i]) {
          if i > 0 { assert s[1..][i - 1] == s[i]; }
        }
      }
    }
  }

  /** Trimming only ever removes whitespace. */
  lemma StripWsTrim(s: string)
    ensures StripWs(Trim(s)) == StripWs(s)
  {
    var a := SkipWs(s, 0, |s|);
    var t := Trim(s);
    TrimSpec(s);
    assert s == s[..a] + t + s[a + |t|..];
    StripWsAppend(s[..a] + t, s[a + |t|..]);
    StripWsAppend(s[..a], t);
    StripWsEmpty(s[..a]);
    StripWsEmpty(s[a + |t|..]);
  }

  /** The concatenation of a sequence of strings. */
  function Concat(ss: seq<string>): string
  {
    if ss == [] then [] else ss[0] + Concat(ss[1..])
  }

  /** Concatenating one more string appends it. */
  lemma {:induction false} ConcatAppend(ss: seq<string>, s: string)
    ensures Concat(ss + [s]) == Concat(ss) + s
  {
    if ss == [] {
      assert ss + [s] == [s];
      assert Concat([s]) == s + Concat([]);
    } else {
      assert (ss + [s])[1..] == ss[1..] + [s];
      ConcatAppend(ss[1..], s);
    }
  }

  /** `string.Join(sep, ss)`: the strings of `ss` with `sep` between neighbours. */
  function Join(sep: string, ss: seq<string>): string
  {
    if ss == [] then []
    else if |ss| == 1 then ss[0]
    else ss[0] + sep + Join(sep, ss[1..])
  }

  /** `string.Join` puts exactly one separator between each pair of neighbours. */
  lemma {:induction false} JoinAppend(sep: string, ss: seq<string>, s: string)
    requires ss != []
    ensures Join(sep, ss + [s]) == Join(sep, ss) + sep + s
  {
    if |ss| > 1 {
      assert (ss + [s])[1..] == ss[1..] + [s];
      JoinAppend(sep, ss[1..], s);
    }
  }

  /** `s.StartsWith(p)` as an ordinal prefix test. */
  predicate StartsWith(s: string, p: string)
  {
    |p| <= |s| && s[..|p|] == p
  }
}
