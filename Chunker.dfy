/** `SplitIntoChunks` (program.cs, duplicated in app/Program.cs): cuts the
    extracted document text into trimmed, non-empty pieces of at most
    `maxChars` characters, preferring line breaks over spaces over hard cuts. */
module Chunker {
  import opened Strings

  /** What every produced chunk looks like. */
  predicate IsChunk(c: string, maxChars: int)
  {
    0 < |c| <= maxChars && !IsWs(c[0]) && !IsWs(c[|c| - 1])
  }

  /** `c` occurs somewhere in `s` after index 0. */
  predicate HasBoundary(s: string, c: char)
  {
    exists k :: 0 < k < |s| && s[k] == c
  }

  /** Where a window is cut: the last '\n' if its index is > 0, otherwise the
      last ' ' if its index is > 0, otherwise the whole window. An index of 0
      counts as no boundary, which is what makes every cut at least 1 long. */
  function BreakAt(segment: string): (b: nat)
    requires segment != []
    ensures 1 <= b <= |segment|
  {
    var nl := LastIndexOf(segment, '\n');
    if nl > 0 then nl
    else
      var sp := LastIndexOf(segment, ' ');
      if sp > 0 then sp else |segment|
  }

  /** `Math.Min`. */
  function Min(a: int, b: int): (m: int)
    ensures m <= a && m <= b && (m == a || m == b)
  {
    if a <= b then a else b
  }

  /** The end of the window examined at `pos`: `min(maxChars, remaining)`
      characters further on. */
  function WindowEnd(text: string, maxChars: int, pos: nat): (we: nat)
    requires maxChars >= 1 && pos < |text|
    ensures pos < we <= |text| && we - pos <= maxChars
  {
    pos + Min(maxChars, |text| - pos)
  }

  /** `BreakAt` read off the text itself: the end, as an index into `text`,
      of the piece cut from the window `text[pos..we]`. */
  function CutEnd(text: string, pos: nat, we: nat): (e: nat)
    requires pos < we <= |text|
    ensures pos < e <= we
  {
    var nl := LastIn(text, '\n', pos, we);
    if nl > pos then nl
    else
      var sp := LastIn(text, ' ', pos, we);
      if sp > pos then sp else we
  }

  /** The chunks the scan produces from position `pos` on. The piece cut at
      `pos` is `text[pos..e]`; once trimmed it is `text[a..z]`; the scan then
      resumes after the whitespace that follows `e`. */
  function ChunksFrom(text: string, maxChars: int, pos: nat): seq<string>
    requires maxChars >= 1 && pos <= |text|
    decreases |text| - pos
  {
    if pos == |text| then []
    else
      var e := CutEnd(text, pos, WindowEnd(text, maxChars, pos));
      var a := SkipWs(text, pos, e);
      var z := SkipWsBack(text, e, a);
      var rest := ChunksFrom(text, maxChars, SkipWs(text, e, |text|));
      if a == z then rest else [text[a..z]] + rest
  }

  function Chunks(text: string, maxChars: int): seq<string>
    requires maxChars >= 1
  {
    ChunksFrom(text, maxChars, 0)
  }

  /** Where in `text` each chunk of `ChunksFrom(text, maxChars, pos)` starts. */
  ghost function Offsets(text: string, maxChars: int, pos: nat): seq<nat>
    requires maxChars >= 1 && pos <= |text|
    decreases |text| - pos
  {
    if pos == |text| then []
    else
      var e := CutEnd(text, pos, WindowEnd(text, maxChars, pos));
      var a := SkipWs(text, pos, e);
      var z := SkipWsBack(text, e, a);
      var rest := Offsets(text, maxChars, SkipWs(text, e, |text|));
      if a == z then rest else [a] + rest
  }

  /** The source's view of one step (a window string, `LastIndexOf` on it, a
      `Substring` trimmed) and the index view of `ChunksFrom` agree: the cut
      ends at `CutEnd` and the chunk is the trimmed range `text[a..z]`. */
  lemma WindowStep(text: string, pos: nat, we: nat, segment: string, b: nat, chunk: string)
    requires pos < we <= |text| && segment == text[pos..we]
    requires segment != [] && b == BreakAt(segment) && chunk == Trim(segment[..b])
    ensures var e := CutEnd(text, pos, we);
      var a := SkipWs(text, pos, e);
      pos + b == e && chunk == text[a..SkipWsBack(text, e, a)]
  {
    LastInSlice(text, '\n', pos, we, we);
    LastInSlice(text, ' ', pos, we, we);
    var e := CutEnd(text, pos, we);
    assert pos + b == e;
    SliceOfSlice(text, pos, we, pos, e);
    assert segment[..e - pos] == text[pos..e];
    TrimSlice(text, pos, e);
  }

  /** One turn of the scan: the chunk kept at `pos` (if any) followed by the
      chunks from where the whitespace skip after the cut stops. */
  lemma ScanStep(text: string, maxChars: int, pos: nat)
    requires maxChars >= 1 && pos < |text|
    ensures var e := CutEnd(text, pos, WindowEnd(text, maxChars, pos));
      var a := SkipWs(text, pos, e);
      var z := SkipWsBack(text, e, a);
      var rest := ChunksFrom(text, maxChars, SkipWs(text, e, |text|));
      && (text[a..z] == [] ==> ChunksFrom(text, maxChars, pos) == rest)
      && (text[a..z] != [] ==> ChunksFrom(text, maxChars, pos) == [text[a..z]] + rest)
  {
    var e := CutEnd(text, pos, WindowEnd(text, maxChars, pos));
    var a := SkipWs(text, pos, e);
    var z := SkipWsBack(text, e, a);
    assert |text[a..z]| == z - a;
  }

  /** The scanner itself: a window, a cut, a trimmed piece kept if non-empty,
      then a skip over whitespace. */
  method SplitIntoChunks(text: string, maxChars: int) returns (chunks: seq<string>)
    requires maxChars >= 1
    ensures chunks == Chunks(text, maxChars)
    ensures forall i :: 0 <= i < |chunks| ==> IsChunk(chunks[i], maxChars)
  {
    chunks := [];
    var pos: nat := 0;
    while pos < |text|
      invariant pos <= |text|
      invariant ChunkedBefore(text, maxChars, pos, chunks)
      decreases |text| - pos
    {
      var breakAt, chunk := CutWindow(text, maxChars, pos);
      ScanStepAt(text, maxChars, pos, breakAt, chunk, chunks);
      if chunk != [] {
        chunks := chunks + [chunk];
      }
      pos := SkipWhitespace(text, pos + breakAt);
    }
    ChunksWellFormed(text, maxChars, 0);
  }

  /** `chunks` are the chunks the text yields before `pos`: followed by the
      chunks from `pos` they are all of them. */
  predicate ChunkedBefore(text: string, maxChars: int, pos: nat, chunks: seq<string>)
    requires maxChars >= 1 && pos <= |text|
  {
    chunks + ChunksFrom(text, maxChars, pos) == Chunks(text, maxChars)
  }

  /** Moving a chunk from the front of what is still to come to the end of
      what has been kept changes nothing in the whole. */
  lemma Extend(chunks: seq<string>, chunk: string, here: seq<string>, rest: seq<string>, all: seq<string>)
    requires chunks + here == all && here == [chunk] + rest
    ensures (chunks + [chunk]) + rest == all
  {
    AppendAssoc(chunks, [chunk], rest);
  }

  /** `ScanStep` with the chunk the source computes: past the cut and the
      whitespace after it, the chunks kept so far are still the chunks before,
      with the piece added only when it is not empty. */
  lemma ScanStepAt(text: string, maxChars: int, pos: nat, breakAt: nat, chunk: string, chunks: seq<string>)
    requires maxChars >= 1 && pos < |text| && ChunkedBefore(text, maxChars, pos, chunks)
    requires var e := CutEnd(text, pos, WindowEnd(text, maxChars, pos));
      var a := SkipWs(text, pos, e);
      pos + breakAt == e && chunk == text[a..SkipWsBack(text, e, a)]
    ensures pos + breakAt <= |text|
    ensures chunk == [] ==>
      ChunkedBefore(text, maxChars, SkipWs(text, pos + breakAt, |text|), chunks)
    ensures chunk != [] ==>
      ChunkedBefore(text, maxChars, SkipWs(text, pos + breakAt, |text|), chunks + [chunk])
  {
    ScanStep(text, maxChars, pos);
    var rest := ChunksFrom(text, maxChars, SkipWs(text, pos + breakAt, |text|));
    if chunk != [] {
      Extend(chunks, chunk, ChunksFrom(text, maxChars, pos), rest, Chunks(text, maxChars));
    }
  }

  /** The body of the scan up to the whitespace skip: cut the window at `pos`
      and trim the piece before the cut. */
  method CutWindow(text: string, maxChars: int, pos: nat) returns (breakAt: nat, chunk: string)
    requires maxChars >= 1 && pos < |text|
    ensures var e := CutEnd(text, pos, WindowEnd(text, maxChars, pos));
      var a := SkipWs(text, pos, e);
      pos + breakAt == e && chunk == text[a..SkipWsBack(text, e, a)]
  {
    var len := Min(maxChars, |text| - pos);
    var segment := text[pos..pos + len];
    var b := LastIndexOf(segment, '\n');
    if b <= 0 { b := LastIndexOf(segment, ' '); }
    if b <= 0 { b := len; }
    assert b == BreakAt(segment);
    breakAt := b;
    chunk := Trim(segment[..breakAt]);
    WindowStep(text, pos, pos + len, segment, breakAt, chunk);
  }

  /** The inner loop of the scan: step over whitespace from `pos`. */
  method SkipWhitespace(text: string, pos: nat) returns (p: nat)
    requires pos <= |text|
    ensures p == SkipWs(text, pos, |text|)
  {
    p := pos;
    while p < |text| && IsWs(text[p])
      invariant pos <= p <= |text|
      invariant SkipWs(text, p, |text|) == SkipWs(text, pos, |text|)
      decreases |text| - p
    {
      p := p + 1;
    }
  }

  /** Every chunk is non-empty, at most `maxChars` long and trimmed. */
  lemma {:induction false} ChunksWellFormed(text: string, maxChars: int, pos: nat)
    requires maxChars >= 1 && pos <= |text|
    ensures forall i :: 0 <= i < |ChunksFrom(text, maxChars, pos)| ==>
              IsChunk(ChunksFrom(text, maxChars, pos)[i], maxChars)
    decreases |text| - pos
  {
    if pos < |text| {
      var e := CutEnd(text, pos, WindowEnd(text, maxChars, pos));
      var a := SkipWs(text, pos, e);
      var z := SkipWsBack(text, e, a);
      var next := SkipWs(text, e, |text|);
      ChunksWellFormed(text, maxChars, next);
      var rest := ChunksFrom(text, maxChars, next);
      if a != z {
        SkipWsSpec(text, pos, e);
        SkipWsBackSpec(text, e, a);
        var cs := [text[a..z]] + rest;
        assert IsChunk(text[a..z], maxChars);
        forall i | 0 <= i < |cs| ensures IsChunk(cs[i], maxChars) {
          if i > 0 { assert cs[i] == rest[i - 1]; }
        }
      }
    }
  }

  /** Nothing but whitespace is lost or duplicated: the chunks, joined and
      stripped of whitespace, are the text stripped of whitespace. */
  lemma {:induction false} ChunksKeepContent(text: string, maxChars: int, pos: nat)
    requires maxChars >= 1 && pos <= |text|
    ensures StripWs(Concat(ChunksFrom(text, maxChars, pos))) == StripWs(text[pos..])
    decreases |text| - pos
  {
    if pos < |text| {
      var e := CutEnd(text, pos, WindowEnd(text, maxChars, pos));
      var a := SkipWs(text, pos, e);
      var z := SkipWsBack(text, e, a);
      var next := SkipWs(text, e, |text|);
      var chunk := text[a..z];
      var rest := ChunksFrom(text, maxChars, next);
      ChunksKeepContent(text, maxChars, next);
      // The joined chunks: this step's chunk (if any) in front of the rest.
      if a != z {
        var cs := [chunk] + rest;
        assert cs[0] == chunk && cs[1..] == rest;
      } else {
        assert chunk == [];
        assert chunk + Concat(rest) == Concat(rest);
      }
      assert Concat(ChunksFrom(text, maxChars, pos)) == chunk + Concat(rest);
      StripWsAppend(chunk, Concat(rest));
      // The text: leading blanks, the chunk, trailing blanks, the rest.
      SkipWsSpec(text, pos, e);
      SkipWsBackSpec(text, e, a);
      SkipWsSpec(text, e, |text|);
      StripAroundChunk(text, pos, a, z, next);
    } else {
      assert text[pos..] == [];
    }
  }

  /** With blanks on both sides of `text[a..z]`, stripping `text[pos..]`
      leaves the stripped chunk followed by the stripped remainder. */
  lemma StripAroundChunk(text: string, pos: nat, a: nat, z: nat, next: nat)
    requires pos <= a <= z <= next <= |text|
    requires forall k :: pos <= k < a ==> IsWs(text[k])
    requires forall k :: z <= k < next ==> IsWs(text[k])
    ensures StripWs(text[pos..]) == StripWs(text[a..z]) + StripWs(text[next..])
  {
    BlankRange(text, pos, a);
    BlankRange(text, z, next);
    SplitTail(text, pos, a);
    SplitTail(text, a, z);
    SplitTail(text, z, next);
    StripWsAppend(text[pos..a], text[a..]);
    StripWsAppend(text[a..z], text[z..]);
    StripWsAppend(text[z..next], text[next..]);
  }

  lemma SplitTail(s: string, i: nat, j: nat)
    requires i <= j <= |s|
    ensures s[i..] == s[i..j] + s[j..]
  {
  }

  /** A stretch of whitespace strips to nothing. */
  lemma BlankRange(text: string, i: nat, j: nat)
    requires i <= j <= |text|
    requires forall k :: i <= k < j ==> IsWs(text[k])
    ensures StripWs(text[i..j]) == []
  {
    var gap := text[i..j];
    forall k | 0 <= k < |gap| ensures IsWs(gap[k]) { assert gap[k] == text[i + k]; }
    StripWsEmpty(gap);
  }

  /** A text gives no chunks exactly when it is empty or whitespace only. */
  lemma NoChunksIffBlank(text: string, maxChars: int)
    requires maxChars >= 1
    ensures Chunks(text, maxChars) == [] <==> AllWs(text)
  {
    var cs := Chunks(text, maxChars);
    ChunksKeepContent(text, maxChars, 0);
    assert text[0..] == text;
    StripWsEmpty(text);
    StripWsEmpty(Concat(cs));
    if cs != [] {
      ChunksWellFormed(text, maxChars, 0);
      assert Concat(cs) == cs[0] + Concat(cs[1..]);
      assert Concat(cs)[0] == cs[0][0];
    }
  }

  /** Chunk `i` of `cs` is the slice of `text` at offset `os[i]`, an offset
      at or after `lo`. */
  predicate SlicesAt(text: string, cs: seq<string>, os: seq<nat>, lo: nat)
  {
    && |os| == |cs|
    && forall i :: 0 <= i < |cs| ==>
         lo <= os[i] && os[i] + |cs[i]| <= |text| && cs[i] == text[os[i]..os[i] + |cs[i]|]
  }

  /** The chunks `cs` at offsets `os`, all at or after `lo`, run from left to
      right without overlap: each ends at or before every later one starts. */
  predicate InOrder(cs: seq<string>, os: seq<nat>, lo: nat)
  {
    && |os| == |cs|
    && (forall i :: 0 <= i < |os| ==> lo <= os[i])
    && (forall i, j :: 0 <= i < j < |cs| ==> os[i] + |cs[i]| <= os[j])
  }

  lemma ConsSlice(text: string, lo: nat, a: nat, z: nat, next: nat, rest: seq<string>, ros: seq<nat>)
    requires lo <= a <= z <= next <= |text| && SlicesAt(text, rest, ros, next)
    ensures SlicesAt(text, [text[a..z]] + rest, [a] + ros, lo)
  {
    var cs, os := [text[a..z]] + rest, [a] + ros;
    forall i | 0 <= i < |cs|
      ensures lo <= os[i] && os[i] + |cs[i]| <= |text| && cs[i] == text[os[i]..os[i] + |cs[i]|]
    {
      if i == 0 {
        assert os[0] + |cs[0]| == z;
      } else {
        assert cs[i] == rest[i - 1] && os[i] == ros[i - 1];
      }
    }
  }

  lemma ConsInOrder(lo: nat, a: nat, chunk: string, next: nat, rest: seq<string>, ros: seq<nat>)
    requires lo <= a && a + |chunk| <= next && InOrder(rest, ros, next)
    ensures InOrder([chunk] + rest, [a] + ros, lo)
  {
    var cs, os := [chunk] + rest, [a] + ros;
    forall i | 0 <= i < |os| ensures lo <= os[i] {
      if i > 0 { assert os[i] == ros[i - 1]; }
    }
    forall i, j | 0 <= i < j < |cs| ensures os[i] + |cs[i]| <= os[j] {
      assert os[j] == ros[j - 1];
      if i > 0 { assert cs[i] == rest[i - 1] && os[i] == ros[i - 1]; }
    }
  }

  /** Each chunk is the slice of the text at its offset. */
  lemma {:induction false} ChunksAreSlices(text: string, maxChars: int, pos: nat)
    requires maxChars >= 1 && pos <= |text|
    ensures SlicesAt(text, ChunksFrom(text, maxChars, pos), Offsets(text, maxChars, pos), pos)
    decreases |text| - pos
  {
    if pos < |text| {
      var e := CutEnd(text, pos, WindowEnd(text, maxChars, pos));
      var a := SkipWs(text, pos, e);
      var z := SkipWsBack(text, e, a);
      var next := SkipWs(text, e, |text|);
      ChunksAreSlices(text, maxChars, next);
      if a != z {
        ConsSlice(text, pos, a, z, next, ChunksFrom(text, maxChars, next), Offsets(text, maxChars, next));
      }
    }
  }

  /** The chunks appear in the text from left to right without overlap. */
  lemma {:induction false} ChunksInOrder(text: string, maxChars: int, pos: nat)
    requires maxChars >= 1 && pos <= |text|
    ensures InOrder(ChunksFrom(text, maxChars, pos), Offsets(text, maxChars, pos), pos)
    decreases |text| - pos
  {
    if pos < |text| {
      var e := CutEnd(text, pos, WindowEnd(text, maxChars, pos));
      var a := SkipWs(text, pos, e);
      var z := SkipWsBack(text, e, a);
      var next := SkipWs(text, e, |text|);
      ChunksInOrder(text, maxChars, next);
      if a != z {
        ConsInOrder(pos, a, text[a..z], next, ChunksFrom(text, maxChars, next), Offsets(text, maxChars, next));
      }
    }
  }

  /** A text that fits in one window and has no '\n' or ' ' after its first
      character is one chunk: the trimmed text. */
  lemma OneChunkWithoutInnerBoundary(text: string, maxChars: int)
    requires 1 <= maxChars && |text| <= maxChars
    requires !HasBoundary(text, '\n') && !HasBoundary(text, ' ')
    requires !AllWs(text)
    ensures Chunks(text, maxChars) == [Trim(text)]
  {
    LastInSpec(text, '\n', 0, |text|);
    LastInSpec(text, ' ', 0, |text|);
    var e := CutEnd(text, 0, WindowEnd(text, maxChars, 0));
    assert e == |text|;
    ScanStep(text, maxChars, 0);
    TrimSpec(text);
    var rest := ChunksFrom(text, maxChars, SkipWs(text, e, |text|));
    assert rest == [];
    assert [Trim(text)] + rest == [Trim(text)];
  }

  /** The cut is the last '\n' after index 0, else the last ' ' after index 0,
      else the end of the window. */
  lemma BreakAtIsLastBoundary(segment: string)
    requires segment != []
    ensures var b := BreakAt(segment);
      && (HasBoundary(segment, '\n') ==>
            b < |segment| && segment[b] == '\n' && forall k :: b < k < |segment| ==> segment[k] != '\n')
      && (!HasBoundary(segment, '\n') && HasBoundary(segment, ' ') ==>
            b < |segment| && segment[b] == ' ' && forall k :: b < k < |segment| ==> segment[k] != ' ')
      && (!HasBoundary(segment, '\n') && !HasBoundary(segment, ' ') ==> b == |segment|)
  {
    LastInSpec(segment, '\n', 0, |segment|);
    LastInSpec(segment, ' ', 0, |segment|);
  }

  /** The cut happens even when the whole text fits in one window. */
  lemma ShortTextStillSplits()
    ensures Chunks("a b c", 100) == ["a b", "c"]
  {
    var text := "a b c";
    assert LastIn(text, '\n', 0, 5) == -1;
    assert LastIn(text, ' ', 0, 5) == 3;
    assert CutEnd(text, 0, WindowEnd(text, 100, 0)) == 3;
    assert SkipWs(text, 0, 3) == 0 && SkipWsBack(text, 3, 0) == 3;
    assert SkipWs(text, 3, 5) == 4;
    assert CutEnd(text, 4, WindowEnd(text, 100, 4)) == 5;
    assert SkipWs(text, 4, 5) == 4 && SkipWsBack(text, 5, 4) == 5;
    assert SkipWs(text, 5, 5) == 5;
    assert text[0..3] == "a b" && text[4..5] == "c";
  }
}
