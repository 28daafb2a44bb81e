/** `ExtractJsonFromText` (program.cs): pick the JSON object or array out of a
    model reply that may carry prose around it, by taking the span from the
    first opening to the last closing brace, or failing that bracket. */
module JsonExtract {
  import opened Wrappers
  import opened Strings

  /** Some `open` occurs before some `close` in `text`. */
  predicate Encloses(text: string, open: char, close: char)
  {
    exists i, j :: 0 <= i < j < |text| && text[i] == open && text[j] == close
  }

  /** The inclusive span from the first `open` to the last `close`, when the
      first `open` comes before the last `close`. */
  function Span(text: string, open: char, close: char): (r: Option<string>)
  {
    var start := IndexOf(text, open);
    var end := LastIndexOf(text, close);
    if start >= 0 && end > start then Some(text[start..end + 1]) else None
  }

  /** The object span if there is one, else the array span if there is one,
      else the text itself; blank text is returned as it is. */
  function ExtractJsonFromText(text: string): (r: string)
  {
    if AllWs(text) then text
    else match Span(text, '{', '}')
      case Some(obj) => obj
      case None =>
        match Span(text, '[', ']')
        case Some(arr) => arr
        case None => text
  }

  /** A span exists exactly when some `open` comes before some `close`, and it
      runs from the first `open` to the last `close`. */
  lemma SpanSpec(text: string, open: char, close: char)
    ensures Span(text, open, close).Some? <==> Encloses(text, open, close)
    ensures Span(text, open, close).Some? ==>
      exists i, j :: 0 <= i < j < |text|
        && text[i] == open && (forall k :: 0 <= k < i ==> text[k] != open)
        && text[j] == close && (forall k :: j < k < |text| ==> text[k] != close)
        && Span(text, open, close).value == text[i..j + 1]
  {
    IndexOfSpec(text, open);
    LastInSpec(text, close, 0, |text|);
    var start := IndexOf(text, open);
    var end := LastIndexOf(text, close);
    if Encloses(text, open, close) {
      var i, j :| 0 <= i < j < |text| && text[i] == open && text[j] == close;
      assert start >= 0 && start <= i;
      assert end >= j;
    }
  }

  /** When the text is not blank and holds a `{` before a `}`, the result is
      the text from its first `{` to its last `}`, both included. */
  lemma ObjectSpan(text: string) returns (i: nat, j: nat)
    requires !AllWs(text) && Encloses(text, '{', '}')
    ensures i < j < |text|
    ensures text[i] == '{' && forall k :: 0 <= k < i ==> text[k] != '{'
    ensures text[j] == '}' && forall k :: j < k < |text| ==> text[k] != '}'
    ensures ExtractJsonFromText(text) == text[i..j + 1]
  {
    SpanSpec(text, '{', '}');
    i, j :| 0 <= i < j < |text|
      && text[i] == '{' && (forall k :: 0 <= k < i ==> text[k] != '{')
      && text[j] == '}' && (forall k :: j < k < |text| ==> text[k] != '}')
      && Span(text, '{', '}').value == text[i..j + 1];
  }

  /** Without an object span, a `[` before a `]` gives the text from its
      first `[` to its last `]`. */
  lemma ArraySpan(text: string) returns (i: nat, j: nat)
    requires !AllWs(text) && !Encloses(text, '{', '}') && Encloses(text, '[', ']')
    ensures i < j < |text|
    ensures text[i] == '[' && forall k :: 0 <= k < i ==> text[k] != '['
    ensures text[j] == ']' && forall k :: j < k < |text| ==> text[k] != ']'
    ensures ExtractJsonFromText(text) == text[i..j + 1]
  {
    SpanSpec(text, '{', '}');
    SpanSpec(text, '[', ']');
    i, j :| 0 <= i < j < |text|
      && text[i] == '[' && (forall k :: 0 <= k < i ==> text[k] != '[')
      && text[j] == ']' && (forall k :: j < k < |text| ==> text[k] != ']')
      && Span(text, '[', ']').value == text[i..j + 1];
  }

  /** Blank text, and text with neither span, comes back unchanged. */
  lemma Unchanged(text: string)
    requires AllWs(text) || (!Encloses(text, '{', '}') && !Encloses(text, '[', ']'))
    ensures ExtractJsonFromText(text) == text
  {
    SpanSpec(text, '{', '}');
    SpanSpec(text, '[', ']');
  }

  /** The result is always one contiguous piece of the input. */
  lemma IsSlice(text: string) returns (i: nat, j: nat)
    ensures i <= j <= |text| && ExtractJsonFromText(text) == text[i..j]
  {
    if !AllWs(text) && Encloses(text, '{', '}') {
      var a, b := ObjectSpan(text);
      i, j := a, b + 1;
    } else if !AllWs(text) && Encloses(text, '[', ']') {
      var a, b := ArraySpan(text);
      i, j := a, b + 1;
    } else {
      Unchanged(text);
      i, j := 0, |text|;
    }
  }

  /** A span that starts with `open` and ends with `close` is its own span. */
  lemma SpanOfSpan(text: string, i: nat, j: nat, open: char, close: char)
    requires i < j < |text| && text[i] == open && text[j] == close
    ensures Span(text[i..j + 1], open, close) == Some(text[i..j + 1])
  {
    var r := text[i..j + 1];
    assert r[0] == open && r[|r| - 1] == close;
    assert Encloses(r, open, close);
    SpanSpec(r, open, close);
    var a, b :| 0 <= a < b < |r|
      && r[a] == open && (forall k :: 0 <= k < a ==> r[k] != open)
      && r[b] == close && (forall k :: b < k < |r| ==> r[k] != close)
      && Span(r, open, close).value == r[a..b + 1];
    assert a == 0 && b == |r| - 1;
    assert r[a..b + 1] == r;
  }

  /** A slice of a text without a `open`-before-`close` pair has none either. */
  lemma NoEnclosureInSlice(text: string, i: nat, j: nat, open: char, close: char)
    requires i <= j <= |text| && !Encloses(text, open, close)
    ensures !Encloses(text[i..j], open, close)
  {
    var r := text[i..j];
    forall a, b | 0 <= a < b < |r| && r[a] == open ensures r[b] != close {
      assert r[a] == text[i + a] && r[b] == text[i + b];
    }
  }

  /** Extracting again changes nothing. */
  lemma Idempotent(text: string)
    ensures ExtractJsonFromText(ExtractJsonFromText(text)) == ExtractJsonFromText(text)
  {
    if !AllWs(text) && Encloses(text, '{', '}') {
      var i, j := ObjectSpan(text);
      var r := text[i..j + 1];
      assert r[0] == '{' && !IsWs(r[0]);
      SpanOfSpan(text, i, j, '{', '}');
    } else if !AllWs(text) && Encloses(text, '[', ']') {
      var i, j := ArraySpan(text);
      var r := text[i..j + 1];
      assert r[0] == '[' && !IsWs(r[0]);
      NoEnclosureInSlice(text, i, j + 1, '{', '}');
      SpanSpec(r, '{', '}');
      SpanOfSpan(text, i, j, '[', ']');
    } else {
      Unchanged(text);
    }
  }

  /** The span of a text whose first `open` is at `i` and last `close` at `j`. */
  lemma SpanAt(text: string, open: char, close: char, i: nat, j: nat)
    requires i < j < |text| && text[i] == open && text[j] == close
    requires open !in text[..i] && close !in text[j + 1..]
    ensures Span(text, open, close) == Some(text[i..j + 1])
  {
    assert text[0..i] == text[..i] && text[j + 1..|text|] == text[j + 1..];
    IndexOfFromSkip(text, open, 0, i);
    LastInSkip(text, close, 0, j + 1, |text|);
  }

  /** An object framed by prose: prose without `{` before it and prose without
      `}` after it are cut away. */
  lemma FramedObject(pre: string, obj: string, post: string)
    requires |obj| >= 2 && obj[0] == '{' && obj[|obj| - 1] == '}'
    requires '{' !in pre && '}' !in post
    ensures ExtractJsonFromText(pre + obj + post) == obj
  {
    var text := pre + obj + post;
    var i, j := |pre|, |pre| + |obj| - 1;
    assert text[i] == '{' && !IsWs(text[i]);
    assert text[..i] == pre && text[j + 1..] == post && text[i..j + 1] == obj;
    SpanAt(text, '{', '}', i, j);
  }

  /** An array framed by prose, in a text without `{`: the prose without `[`
      before it and the prose without `]` after it are cut away. */
  lemma FramedArray(pre: string, arr: string, post: string)
    requires |arr| >= 2 && arr[0] == '[' && arr[|arr| - 1] == ']'
    requires '[' !in pre && ']' !in post
    requires '{' !in pre + arr + post
    ensures ExtractJsonFromText(pre + arr + post) == arr
  {
    var text := pre + arr + post;
    var i, j := |pre|, |pre| + |arr| - 1;
    assert text[i] == '[' && !IsWs(text[i]);
    assert text[0..|text|] == text;
    IndexOfFromSkip(text, '{', 0, |text|);
    assert text[..i] == pre && text[j + 1..] == post && text[i..j + 1] == arr;
    SpanAt(text, '[', ']', i, j);
  }

  /** An object in the middle of prose is cut out with its braces. */
  lemma ExtractsObjectExample()
    ensures ExtractJsonFromText("Intro text\n" + "{\"a\":1,\"b\":2}" + "\nOutro") == "{\"a\":1,\"b\":2}"
  {
    FramedObject("Intro text\n", "{\"a\":1,\"b\":2}", "\nOutro");
  }

  /** Without braces, an array in the middle of prose is cut out with its brackets. */
  lemma ExtractsArrayExample()
    ensures ExtractJsonFromText("Start " + "[1,2,3]" + " end") == "[1,2,3]"
  {
    FramedArray("Start ", "[1,2,3]", " end");
  }

  /** Prose without braces or brackets comes back unchanged. */
  lemma NoJsonExample()
    ensures ExtractJsonFromText("No json here") == "No json here"
  {
    var text := "No json here";
    assert !IsWs(text[0]);
    assert text[0..12] == text;
    IndexOfFromSkip(text, '{', 0, 12);
    IndexOfFromSkip(text, '[', 0, 12);
  }
}
