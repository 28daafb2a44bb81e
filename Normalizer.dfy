/** The end of `SendPromptAsync` (program.cs, repeated in app/Program.cs): the
    HTTP outcome, then the parsed reply body mapped to the answer text by a fixed
    priority over the shapes Ollama-like servers send. Parsing itself is not
    modelled: the parser's result is an input, `None` when it threw a
    `JsonException`. */
module Normalizer {
  import opened Wrappers
  import opened Strings

  /** A parsed JSON value (a `JsonElement`). Numbers, arrays and objects keep
      the raw text the parser read for them; object members keep their order,
      duplicates included. */
  datatype Json =
    | JNull
    | JBool(b: bool)
    | JNum(raw: string)
    | JStr(s: string)
    | JArr(elems: seq<Json>, raw: string)
    | JObj(fields: seq<(string, Json)>, raw: string)

  /** `JsonElement.ToString()`: nothing for null, `True`/`False` for booleans,
      the value of a string, the raw text of anything else. */
  function Render(j: Json): string
  {
    match j
    case JNull => ""
    case JBool(b) => if b then "True" else "False"
    case JNum(raw) => raw
    case JStr(s) => s
    case JArr(_, raw) => raw
    case JObj(_, raw) => raw
  }

  /** What `SendPromptAsync` gives back: a string, null, or an exception that
      its `catch (JsonException)` does not handle. */
  datatype Reply = Text(s: string) | NullText | Throws

  /** `JsonElement.GetString()`: the value of a string, null for JSON null,
      and an `InvalidOperationException` for every other kind. */
  function GetString(j: Json): Reply
  {
    match j
    case JStr(s) => Text(s)
    case JNull => NullText
    case _ => Throws
  }

  /** `GetString` yields text exactly for strings, null exactly for null. */
  lemma GetStringSpec(j: Json)
    ensures GetString(j).Text? <==> j.JStr?
    ensures GetString(j) == NullText <==> j == JNull
    ensures GetString(j).Text? ==> GetString(j).s == Render(j)
  {
  }

  /** `TryGetProperty(name)`: the value of the last member called `name`. */
  function Lookup(fields: seq<(string, Json)>, name: string): Option<Json>
  {
    if fields == [] then None
    else if fields[|fields| - 1].0 == name then Some(fields[|fields| - 1].1)
    else Lookup(fields[..|fields| - 1], name)
  }

  /** `Lookup` finds a member exactly when there is one, and it finds the last. */
  lemma {:induction false} LookupSpec(fields: seq<(string, Json)>, name: string)
    ensures Lookup(fields, name).None? <==> forall i :: 0 <= i < |fields| ==> fields[i].0 != name
    ensures Lookup(fields, name).Some? ==>
      exists i :: 0 <= i < |fields| && fields[i] == (name, Lookup(fields, name).value)
        && forall k :: i < k < |fields| ==> fields[k].0 != name
  {
    if fields != [] && fields[|fields| - 1].0 != name {
      var init := fields[..|fields| - 1];
      LookupSpec(init, name);
      if Lookup(init, name).Some? {
        var i :| 0 <= i < |init| && init[i] == (name, Lookup(init, name).value)
          && forall k :: i < k < |init| ==> init[k].0 != name;
        assert fields[i] == init[i];
        assert forall k :: i < k < |fields| ==> fields[k].0 != name by {
          forall k | i < k < |fields| ensures fields[k].0 != name {
            if k < |init| { assert fields[k] == init[k]; }
          }
        }
      } else {
        forall i | 0 <= i < |fields| ensures fields[i].0 != name {
          if i < |init| { assert fields[i] == init[i]; }
        }
      }
    }
  }

  /** What one element of an array root contributes: its `response` member
      when it is an object whose `response` is a string, else its rendering. */
  function ElementText(el: Json): string
  {
    if el.JObj? then
      match Lookup(el.fields, "response")
      case Some(JStr(s)) => s
      case _ => Render(el)
    else Render(el)
  }

  /** The text of an array root: the element texts, in element order. */
  function ArrayText(elems: seq<Json>): string
  {
    if elems == [] then [] else ArrayText(elems[..|elems| - 1]) + ElementText(elems[|elems| - 1])
  }

  /** The `StringBuilder` loop over the elements of an array root. */
  method ConcatElements(elems: seq<Json>) returns (sb: string)
    ensures sb == ArrayText(elems)
  {
    sb := [];
    var i := 0;
    while i < |elems|
      invariant 0 <= i <= |elems|
      invariant sb == ArrayText(elems[..i])
    {
      assert elems[..i + 1][..i] == elems[..i];
      sb := sb + ElementText(elems[i]);
      i := i + 1;
    }
    assert elems[..i] == elems;
  }

  /** One more element appends its text. */
  lemma ArrayTextSnoc(elems: seq<Json>, el: Json)
    ensures ArrayText(elems + [el]) == ArrayText(elems) + ElementText(el)
  {
    assert (elems + [el])[..|elems|] == elems;
  }

  /** The array text of two runs of elements is the text of the first run
      followed by that of the second. */
  lemma {:induction false} ArrayTextAppend(a: seq<Json>, b: seq<Json>)
    ensures ArrayText(a + b) == ArrayText(a) + ArrayText(b)
    decreases |b|
  {
    if b == [] {
      assert a + b == a;
    } else {
      var init, last := b[..|b| - 1], b[|b| - 1];
      assert b == init + [last];
      ArrayTextAppend(a, init);
      ArrayTextAppendStep(a, init, last);
    }
  }

  lemma ArrayTextAppendStep(a: seq<Json>, init: seq<Json>, last: Json)
    requires ArrayText(a + init) == ArrayText(a) + ArrayText(init)
    ensures ArrayText(a + (init + [last])) == ArrayText(a) + ArrayText(init + [last])
  {
    AppendAssoc(a, init, [last]);
    ArrayTextSnoc(a + init, last);
    ArrayTextSnoc(init, last);
    AppendAssoc(ArrayText(a), ArrayText(init), ElementText(last));
  }

  /** When every element is an object with a string `response`, the array text
      is those strings joined in element order. */
  lemma {:induction false} ArrayTextOfResponses(elems: seq<Json>, rs: seq<string>)
    requires |rs| == |elems|
    requires forall i :: 0 <= i < |elems| ==>
      elems[i].JObj? && Lookup(elems[i].fields, "response") == Some(JStr(rs[i]))
    ensures ArrayText(elems) == Concat(rs)
    decreases |elems|
  {
    if elems != [] {
      var n := |elems| - 1;
      ArrayTextOfResponses(elems[..n], rs[..n]);
      assert rs == rs[..n] + [rs[n]];
      ConcatAppend(rs[..n], rs[n]);
    }
  }

  /** The reply an `output` member gives: `output[0].content` through
      `GetString` when `output` is a non-empty array whose first element is an
      object holding `content`, else the rendering of `output`. */
  function OutputReply(output: Json): Reply
  {
    if output.JArr? && |output.elems| > 0 && output.elems[0].JObj? then
      match Lookup(output.elems[0].fields, "content")
      case Some(content) => GetString(content)
      case None => Text(Render(output))
    else Text(Render(output))
  }

  /** The reply of an object root: `response`, else `text`, else `output`,
      else the raw body. */
  function ObjectReply(fields: seq<(string, Json)>, body: string): Reply
  {
    match Lookup(fields, "response")
    case Some(resp) => if resp.JStr? then GetString(resp) else Text(Render(resp))
    case None =>
      match Lookup(fields, "text")
      case Some(txt) => GetString(txt)
      case None =>
        match Lookup(fields, "output")
        case Some(output) => OutputReply(output)
        case None => Text(body)
  }

  /** The reply for a successful response with body `body`, which the parser
      read as `parsed` (`None`: it threw a `JsonException`). */
  function Normalize(body: string, parsed: Option<Json>): Reply
  {
    match parsed
    case Some(JArr(elems, _)) => Text(ArrayText(elems))
    case Some(JObj(fields, _)) => ObjectReply(fields, body)
    case _ => Text(body)
  }

  /** The normalisation as the source runs it. */
  method NormalizeResponse(body: string, parsed: Option<Json>) returns (reply: Reply)
    ensures reply == Normalize(body, parsed)
  {
    if parsed.Some? && parsed.value.JArr? {
      var sb := ConcatElements(parsed.value.elems);
      return Text(sb);
    }
    if parsed.Some? && parsed.value.JObj? {
      return ObjectReply(parsed.value.fields, body);
    }
    return Text(body);
  }

  /** An object root answers with its `response` member, rendered, whenever it
      has one; `text` is read only without `response`, and `output` only
      without both. */
  lemma ObjectPriority(fields: seq<(string, Json)>, body: string)
    ensures Lookup(fields, "response").Some? ==>
      ObjectReply(fields, body) == Text(Render(Lookup(fields, "response").value))
    ensures Lookup(fields, "response").None? && Lookup(fields, "text").Some? ==>
      ObjectReply(fields, body) == GetString(Lookup(fields, "text").value)
    ensures Lookup(fields, "response").None? && Lookup(fields, "text").None? && Lookup(fields, "output").Some? ==>
      ObjectReply(fields, body) == OutputReply(Lookup(fields, "output").value)
  {
  }

  /** A body the parser rejects, a scalar root, and an object without
      `response`, `text` and `output` all give the raw body back. */
  lemma RawFallback(body: string, parsed: Option<Json>)
    requires || parsed.None?
             || (!parsed.value.JArr? && !parsed.value.JObj?)
             || (parsed.value.JObj?
                 && (forall i :: 0 <= i < |parsed.value.fields| ==>
                       parsed.value.fields[i].0 !in {"response", "text", "output"}))
    ensures Normalize(body, parsed) == Text(body)
  {
    if parsed.Some? && parsed.value.JObj? {
      var fields := parsed.value.fields;
      LookupSpec(fields, "response");
      LookupSpec(fields, "text");
      LookupSpec(fields, "output");
    }
  }

  /** Null and the uncaught exception come only from `GetString` on the
      `text` member or on `output[0].content` of an object root: null when that
      value is JSON null, the exception when it is neither a string nor null. */
  lemma NonTextReply(body: string, parsed: Option<Json>)
    requires !Normalize(body, parsed).Text?
    ensures parsed.Some? && parsed.value.JObj?
    ensures var fields := parsed.value.fields;
      && Lookup(fields, "response").None?
      && (exists v ::
            && (|| Lookup(fields, "text") == Some(v)
                || (&& Lookup(fields, "text").None?
                    && Lookup(fields, "output").Some?
                    && var o := Lookup(fields, "output").value;
                       o.JArr? && |o.elems| > 0 && o.elems[0].JObj?
                       && Lookup(o.elems[0].fields, "content") == Some(v)))
            && !v.JStr?
            && (Normalize(body, parsed) == NullText <==> v == JNull))
  {
    var fields := parsed.value.fields;
    if Lookup(fields, "text").Some? {
      var v := Lookup(fields, "text").value;
      assert !v.JStr?;
    } else {
      var o := Lookup(fields, "output").value;
      var v := Lookup(o.elems[0].fields, "content").value;
      assert !v.JStr?;
    }
  }

  /** What came back from posting the request: the transport failed (the
      `HttpClient` threw, including on its 30-second timeout), or a response
      with a status code and a body. */
  datatype SendOutcome = TransportFailed | Responded(status: int, body: string)

  /** `IsSuccessStatusCode`. */
  predicate IsSuccess(status: int)
  {
    200 <= status <= 299
  }

  /** The result of `SendPromptAsync` for a given outcome, `parse` standing
      for `JsonDocument.Parse`. */
  function SendReply(outcome: SendOutcome, parse: string -> Option<Json>): Reply
  {
    match outcome
    case TransportFailed => NullText
    case Responded(status, body) =>
      if !IsSuccess(status) then NullText else Normalize(body, parse(body))
  }

  /** The body parsed to an object without `response` whose `text` member is
      JSON null or, without `text`, whose `output[0].content` is JSON null. */
  predicate SelectsNull(parsed: Option<Json>)
  {
    && parsed.Some? && parsed.value.JObj?
    && var fields := parsed.value.fields;
    && Lookup(fields, "response").None?
    && (|| Lookup(fields, "text") == Some(JNull)
        || (&& Lookup(fields, "text").None?
            && Lookup(fields, "output").Some?
            && var o := Lookup(fields, "output").value;
               o.JArr? && |o.elems| > 0 && o.elems[0].JObj?
               && Lookup(o.elems[0].fields, "content") == Some(JNull)))
  }

  /** A reply is null exactly when the transport failed, the status was not a
      success, or a successful body selected a JSON null through `GetString`. */
  lemma NullReply(outcome: SendOutcome, parse: string -> Option<Json>)
    ensures SendReply(outcome, parse) == NullText <==>
      || outcome.TransportFailed?
      || !IsSuccess(outcome.status)
      || SelectsNull(parse(outcome.body))
    ensures outcome.Responded? && IsSuccess(outcome.status) && parse(outcome.body).None? ==>
      SendReply(outcome, parse) == Text(outcome.body)
  {
  }

  /** `{"response":"hello"}` answers `hello`. */
  lemma ResponseExample(raw: string)
    ensures Normalize(raw, Some(JObj([("response", JStr("hello"))], raw))) == Text("hello")
  {
  }

  /** `[{"response":"a"},{"response":"b"}]` answers `ab`. */
  lemma ArrayExample(raw: string, ra: string, rb: string)
    ensures var elems := [JObj([("response", JStr("a"))], ra), JObj([("response", JStr("b"))], rb)];
      Normalize(raw, Some(JArr(elems, raw))) == Text("ab")
  {
    var elems := [JObj([("response", JStr("a"))], ra), JObj([("response", JStr("b"))], rb)];
    ArrayTextOfResponses(elems, ["a", "b"]);
    assert Concat(["a", "b"]) == "a" + Concat(["b"]);
  }

  /** `{"text":null}` answers null, which the caller takes for a failed request. */
  lemma NullTextExample(raw: string)
    ensures Normalize(raw, Some(JObj([("text", JNull)], raw))) == NullText
  {
  }
}
