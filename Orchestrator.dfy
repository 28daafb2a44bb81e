/** The `Main` flows of the two command-line programs: app/Program.cs
    (summarise the chunks, then combine the summaries) and program.cs (the same,
    plus an optional structured-JSON mode with one conversion retry). Every
    call into the outside world (file system, PDF reader, HTTP endpoint, JSON
    parser and deserializer) is an oracle in `World`; console output is recorded
    as the one thing a run shows. */
module Orchestrator {
  import opened Wrappers
  import opened Strings
  import opened Chunker
  import opened JsonExtract
  import opened Normalizer

  /** What the PDF reader gives for a path: the text of its pages, or an exception. */
  datatype Extraction = Extracted(text: string) | ExtractionFailed

  /** `StructuredSummary` as the deserializer fills it; every field may be missing. */
  datatype StructuredSummary = StructuredSummary(
    title: Option<string>,
    summary: Option<string>,
    keyPoints: Option<seq<string>>,
    language: Option<string>,
    wordCount: Option<int>)

  /** One request posted to the endpoint. `streamOff` says whether the body
      carries `"stream": false`, which only app/Program.cs sends. */
  datatype Request = Request(apiUrl: string, model: string, prompt: string, streamOff: bool)

  /** The outside world. `endpoint(k, r)` is the outcome of the `k`-th request
      of the run (counting from 0) when that request is `r`; `parse` is
      `JsonDocument.Parse` and `parseSummary` is `ParseStructuredSummary`, both
      `None` where they fail. */
  datatype World = World(
    fileExists: string -> bool,
    extract: string -> Extraction,
    endpoint: (nat, Request) -> SendOutcome,
    parse: string -> Option<Json>,
    parseSummary: string -> Option<StructuredSummary>)

  /** The reply `SendPromptAsync` gives for the `k`-th request `r`. */
  function ReplyTo(w: World, k: nat, r: Request): Reply
  {
    SendReply(w.endpoint(k, r), w.parse)
  }

  /** `SendPromptAsync`: post, then normalise the answer. */
  method SendPrompt(w: World, k: nat, r: Request) returns (reply: Reply)
    ensures reply == ReplyTo(w, k, r)
  {
    var outcome := w.endpoint(k, r);
    if outcome.TransportFailed? || !IsSuccess(outcome.status) {
      return NullText;
    }
    reply := NormalizeResponse(outcome.body, w.parse(outcome.body));
  }

  /** How a run ends: an exit code, or the exception `GetString` throws. */
  datatype Ending = Exit(code: int) | Crash

  /** What a run prints on standard output. */
  datatype Shown =
    | Nothing
    | FinalText(text: string)
    | StructuredText(result: StructuredSummary)
    | RawText(text: string)

  /** A whole run: how it ends, the requests it posted in order, the strings it
      handed to `ParseStructuredSummary` in order, and what it printed. */
  datatype Run = Run(ending: Ending, sent: seq<Request>, parsed: seq<string>, shown: Shown)

  datatype Config = Config(filePath: string, model: string, apiUrl: string, structured: bool)

  const DefaultFile := "ejemplo.pdf"
  const DefaultModel := "llama2"
  const DefaultApiUrl := "http://localhost:11434/api/generate"
  const ChunkSize := 3000

  /** The arguments of app/Program.cs: file, model and URL by position. */
  function AppConfig(args: seq<string>): Config
  {
    Config(
      if |args| > 0 then args[0] else DefaultFile,
      if |args| > 1 then args[1] else DefaultModel,
      if |args| > 2 then args[2] else DefaultApiUrl,
      false)
  }

  /** The arguments of program.cs: a third argument starting with '-' is a
      flag, not a URL; `--structured` or `-s` anywhere selects structured mode. */
  function ProgramConfig(args: seq<string>): Config
  {
    Config(
      if |args| > 0 then args[0] else DefaultFile,
      if |args| > 1 then args[1] else DefaultModel,
      if |args| > 2 && !StartsWith(args[2], "-") then args[2] else DefaultApiUrl,
      "--structured" in args || "-s" in args)
  }

  /** The two programs read file and model alike; they read the URL alike
      unless the third argument looks like a flag, where program.cs keeps the
      default URL. */
  lemma ConfigsAgree(args: seq<string>)
    ensures ProgramConfig(args).filePath == AppConfig(args).filePath
    ensures ProgramConfig(args).model == AppConfig(args).model
    ensures ProgramConfig(args).apiUrl == AppConfig(args).apiUrl <==>
      |args| <= 2 || !StartsWith(args[2], "-") || args[2] == DefaultApiUrl
    ensures ProgramConfig(args).structured <==> exists i :: 0 <= i < |args| && args[i] in {"--structured", "-s"}
  {
    if ProgramConfig(args).structured {
      var i :| 0 <= i < |args| && (args[i] == "--structured" || args[i] == "-s");
    }
  }

  const SummarizePrefix := "Resume el siguiente fragmento:\n"
  const CombineHeader := "Combina y resume las siguientes notas en un solo resumen claro y conciso:\n"
  const StructuredSuffix :=
    "\nResponde \U{00FA}nicamente con un JSON con la siguiente estructura: "
    + "{\"title\":\"\", \"summary\":\"\", \"key_points\": [\"\"], \"language\": \"es\", \"word_count\": 0}. "
    + "No incluyas texto adicional."
  const ConversionHeader :=
    "Extrae y devuelve \U{00FA}nicamente un JSON v\U{00E1}lido con la siguiente estructura: "
    + "{\"title\":\"\",\"summary\":\"\",\"key_points\":[\"\"],\"language\":\"es\",\"word_count\":0} "
    + "a partir del texto siguiente. Responde SOLO con el JSON (sin explicaci\U{00F3}n adicional):\n\n"

  /** The request that asks for a summary of one chunk. */
  function ChunkRequest(c: Config, streamOff: bool, chunk: string): Request
  {
    Request(c.apiUrl, c.model, SummarizePrefix + chunk, streamOff)
  }

  /** The chunk requests, one per chunk, in chunk order. */
  function ChunkRequests(c: Config, streamOff: bool, chunks: seq<string>): (reqs: seq<Request>)
    ensures |reqs| == |chunks|
  {
    seq(|chunks|, i requires 0 <= i < |chunks| => ChunkRequest(c, streamOff, chunks[i]))
  }

  /** The request that asks for the combined summary. */
  function FinalRequest(c: Config, streamOff: bool, summaries: seq<string>): Request
  {
    var prompt := CombineHeader + Join("\n\n", summaries);
    Request(c.apiUrl, c.model, if c.structured then prompt + StructuredSuffix else prompt, streamOff)
  }

  /** Where the chunk loop got to: all summaries, or the ending and the number
      of requests posted when it stopped. */
  datatype Progress = Summarized(summaries: seq<string>) | Stopped(ending: Ending, count: nat)

  /** The chunk loop from request `i` on, with the trimmed summaries so far. */
  function SummarizeFrom(w: World, reqs: seq<Request>, i: nat, summaries: seq<string>): (p: Progress)
    requires i <= |reqs|
    ensures p.Stopped? ==> i < p.count <= |reqs|
    decreases |reqs| - i
  {
    if i == |reqs| then Summarized(summaries)
    else
      match ReplyTo(w, i, reqs[i])
      case Text(s) => SummarizeFrom(w, reqs, i + 1, summaries + [Trim(s)])
      case NullText => Stopped(Exit(4), i + 1)
      case Throws => Stopped(Crash, i + 1)
  }

  /** The chunk loop as the source runs it. */
  method SummarizeChunks(w: World, c: Config, streamOff: bool, chunks: seq<string>) returns (p: Progress)
    ensures p == SummarizeFrom(w, ChunkRequests(c, streamOff, chunks), 0, [])
  {
    ghost var reqs := ChunkRequests(c, streamOff, chunks);
    var summaries: seq<string> := [];
    var i := 0;
    while i < |chunks|
      invariant 0 <= i <= |chunks|
      invariant SummarizeFrom(w, reqs, i, summaries) == SummarizeFrom(w, reqs, 0, [])
    {
      var reply := SendPrompt(w, i, ChunkRequest(c, streamOff, chunks[i]));
      if reply.NullText? {
        return Stopped(Exit(4), i + 1);
      }
      if reply.Throws? {
        return Stopped(Crash, i + 1);
      }
      summaries := summaries + [Trim(reply.s)];
      i := i + 1;
    }
    return Summarized(summaries);
  }

  /** The chunk loop posts the chunk requests in order and stops at the first
      reply that is not text: with exit code 4 on null, with the exception
      otherwise. When no reply fails, the summaries are the trimmed replies in
      chunk order. */
  lemma {:induction false} SummarizeSpec(w: World, reqs: seq<Request>, i: nat, summaries: seq<string>)
    requires i <= |reqs| && |summaries| == i
    ensures var p := SummarizeFrom(w, reqs, i, summaries);
      && (p.Summarized? ==>
            && |p.summaries| == |reqs|
            && p.summaries[..i] == summaries
            && forall j :: i <= j < |reqs| ==>
                 ReplyTo(w, j, reqs[j]).Text? && p.summaries[j] == Trim(ReplyTo(w, j, reqs[j]).s))
      && (p.Stopped? ==>
            && (forall j :: i <= j < p.count - 1 ==> ReplyTo(w, j, reqs[j]).Text?)
            && !ReplyTo(w, p.count - 1, reqs[p.count - 1]).Text?
            && p.ending == if ReplyTo(w, p.count - 1, reqs[p.count - 1]) == NullText then Exit(4) else Crash)
    decreases |reqs| - i
  {
    if i < |reqs| && ReplyTo(w, i, reqs[i]).Text? {
      var s' := summaries + [Trim(ReplyTo(w, i, reqs[i]).s)];
      SummarizeSpec(w, reqs, i + 1, s');
      var p := SummarizeFrom(w, reqs, i + 1, s');
      if p.Summarized? {
        assert p.summaries[..i] == p.summaries[..i + 1][..i];
      }
    }
  }

  /** Every chunk request is answered with text. */
  predicate AllAnswered(w: World, reqs: seq<Request>)
  {
    forall j :: 0 <= j < |reqs| ==> ReplyTo(w, j, reqs[j]).Text?
  }

  /** The trimmed answers to the chunk requests, in chunk order. */
  function Answers(w: World, reqs: seq<Request>): seq<string>
  {
    seq(|reqs|, j requires 0 <= j < |reqs| =>
      var reply := ReplyTo(w, j, reqs[j]); if reply.Text? then Trim(reply.s) else [])
  }

  /** Request `k` is the first chunk request not answered with text. */
  predicate FirstFailure(w: World, reqs: seq<Request>, k: nat)
  {
    && k < |reqs|
    && !ReplyTo(w, k, reqs[k]).Text?
    && forall j :: 0 <= j < k ==> ReplyTo(w, j, reqs[j]).Text?
  }

  /** When every chunk is answered, the loop ends with the trimmed answers. */
  lemma LoopAllAnswered(w: World, reqs: seq<Request>)
    requires AllAnswered(w, reqs)
    ensures SummarizeFrom(w, reqs, 0, []) == Summarized(Answers(w, reqs))
  {
    SummarizeSpec(w, reqs, 0, []);
    var p := SummarizeFrom(w, reqs, 0, []);
    if p.Stopped? {
      assert false;
    }
    assert p.summaries == Answers(w, reqs);
  }

  /** At the first unanswered chunk the loop stops, having posted the requests
      up to and including that one: exit code 4 on a null reply, the exception
      otherwise. */
  lemma LoopFirstFailure(w: World, reqs: seq<Request>, k: nat)
    requires FirstFailure(w, reqs, k)
    ensures SummarizeFrom(w, reqs, 0, []) ==
      Stopped(if ReplyTo(w, k, reqs[k]) == NullText then Exit(4) else Crash, k + 1)
  {
    SummarizeSpec(w, reqs, 0, []);
    var p := SummarizeFrom(w, reqs, 0, []);
    if p.Summarized? {
      assert false;
    } else if p.count - 1 < k {
      assert false;
    } else if p.count - 1 > k {
      assert false;
    }
  }

  /** What a run does once the text is extracted and is not blank. */
  function SummarizeText(w: World, c: Config, streamOff: bool, text: string): Run
  {
    var reqs := ChunkRequests(c, streamOff, Chunks(text, ChunkSize));
    match SummarizeFrom(w, reqs, 0, [])
    case Stopped(ending, n) => Run(ending, reqs[..n], [], Nothing)
    case Summarized(summaries) =>
      var fin := FinalRequest(c, streamOff, summaries);
      var sent := reqs + [fin];
      match ReplyTo(w, |reqs|, fin)
      case Throws => Run(Crash, sent, [], Nothing)
      case NullText => Run(Exit(5), sent, [], Nothing)
      case Text(f) =>
        if c.structured then StructuredTail(w, c, sent, f)
        else Run(Exit(0), sent, [], FinalText(Trim(f)))
  }

  /** Structured mode once the final summary `f` is in: parse the JSON cut out
      of it; on failure ask once for a conversion and, if that answers with
      non-empty text, parse the JSON cut out of the answer; print the parsed
      object, or else the trimmed final summary. */
  function StructuredTail(w: World, c: Config, sent: seq<Request>, f: string): Run
  {
    var json := ExtractJsonFromText(f);
    match w.parseSummary(json)
    case Some(o) => Run(Exit(0), sent, [json], StructuredText(o))
    case None =>
      var conv := Request(c.apiUrl, c.model, ConversionHeader + f, false);
      var sent' := sent + [conv];
      match ReplyTo(w, |sent|, conv)
      case Throws => Run(Crash, sent', [json], Nothing)
      case NullText => Run(Exit(0), sent', [json], RawText(Trim(f)))
      case Text(answer) =>
        if answer == [] then Run(Exit(0), sent', [json], RawText(Trim(f)))
        else
          var json' := ExtractJsonFromText(answer);
          match w.parseSummary(json')
          case Some(o) => Run(Exit(0), sent', [json, json'], StructuredText(o))
          case None => Run(Exit(0), sent', [json, json'], RawText(Trim(f)))
  }

  /** The run of app/Program.cs on `args`. */
  function AppRun(w: World, args: seq<string>): Run
  {
    Start(w, AppConfig(args), true)
  }

  /** The run of program.cs on `args`. */
  function ProgramRun(w: World, args: seq<string>): Run
  {
    Start(w, ProgramConfig(args), false)
  }

  /** The checks before any request: the file must exist, its text must be
      extracted without an exception, and the text must not be blank. */
  function Start(w: World, c: Config, streamOff: bool): Run
  {
    if !w.fileExists(c.filePath) then Run(Exit(1), [], [], Nothing)
    else
      match w.extract(c.filePath)
      case ExtractionFailed => Run(Exit(3), [], [], Nothing)
      case Extracted(text) =>
        if AllWs(text) then Run(Exit(2), [], [], Nothing)
        else SummarizeText(w, c, streamOff, text)
  }

  /** `Main` of app/Program.cs. */
  method RunApp(w: World, args: seq<string>) returns (run: Run)
    ensures run == AppRun(w, args)
  {
    run := RunMain(w, AppConfig(args), true);
  }

  /** `Main` of program.cs. */
  method RunProgram(w: World, args: seq<string>) returns (run: Run)
    ensures run == ProgramRun(w, args)
  {
    run := RunMain(w, ProgramConfig(args), false);
  }

  /** The body both `Main`s share: the checks, the chunk loop, the final
      request and, in structured mode, the retry. */
  method RunMain(w: World, c: Config, streamOff: bool) returns (run: Run)
    ensures run == Start(w, c, streamOff)
  {
    if !w.fileExists(c.filePath) {
      return Run(Exit(1), [], [], Nothing);
    }
    var extraction := w.extract(c.filePath);
    if extraction.ExtractionFailed? {
      return Run(Exit(3), [], [], Nothing);
    }
    var text := extraction.text;
    if AllWs(text) {
      return Run(Exit(2), [], [], Nothing);
    }
    var chunks := SplitIntoChunks(text, ChunkSize);
    run := Summarize(w, c, streamOff, text, chunks);
  }

  /** The chunk loop and the final request on the chunks of `text`. */
  method Summarize(w: World, c: Config, streamOff: bool, text: string, chunks: seq<string>) returns (run: Run)
    requires chunks == Chunks(text, ChunkSize)
    ensures run == SummarizeText(w, c, streamOff, text)
  {
    var reqs := ChunkRequests(c, streamOff, chunks);
    var progress := SummarizeChunks(w, c, streamOff, chunks);
    if progress.Stopped? {
      return Run(progress.ending, reqs[..progress.count], [], Nothing);
    }
    var fin := FinalRequest(c, streamOff, progress.summaries);
    var sent := reqs + [fin];
    var reply := SendPrompt(w, |reqs|, fin);
    if reply.Throws? {
      return Run(Crash, sent, [], Nothing);
    }
    if reply.NullText? {
      return Run(Exit(5), sent, [], Nothing);
    }
    if !c.structured {
      return Run(Exit(0), sent, [], FinalText(Trim(reply.s)));
    }
    run := RetryStructured(w, c, sent, reply.s);
  }

  /** The structured-mode tail as the source runs it. */
  method RetryStructured(w: World, c: Config, sent: seq<Request>, f: string) returns (run: Run)
    ensures run == StructuredTail(w, c, sent, f)
  {
    var json := ExtractJsonFromText(f);
    var result := w.parseSummary(json);
    var parsed := [json];
    if result.None? {
      var conv := Request(c.apiUrl, c.model, ConversionHeader + f, false);
      var conversion := SendPrompt(w, |sent|, conv);
      if conversion.Throws? {
        return Run(Crash, sent + [conv], parsed, Nothing);
      }
      if conversion.Text? && conversion.s != [] {
        var extracted := ExtractJsonFromText(conversion.s);
        result := w.parseSummary(extracted);
        parsed := parsed + [extracted];
      }
      if result.Some? {
        return Run(Exit(0), sent + [conv], parsed, StructuredText(result.value));
      }
      return Run(Exit(0), sent + [conv], parsed, RawText(Trim(f)));
    }
    return Run(Exit(0), sent, parsed, StructuredText(result.value));
  }

  /** The file is missing (exit code 1), its text cannot be extracted (exit
      code 3) or the text is blank (exit code 2), each exactly when that check
      fails; then nothing is posted and nothing printed. */
  lemma SetupChecks(w: World, c: Config, streamOff: bool)
    ensures var r := Start(w, c, streamOff);
      && (r.ending == Exit(1) <==> !w.fileExists(c.filePath))
      && (r.ending == Exit(3) <==> w.fileExists(c.filePath) && w.extract(c.filePath) == ExtractionFailed)
      && (r.ending == Exit(2) <==>
            w.fileExists(c.filePath) && w.extract(c.filePath).Extracted? && AllWs(w.extract(c.filePath).text))
      && (r.ending in {Exit(1), Exit(2), Exit(3)} ==> r.sent == [] && r.shown == Nothing)
  {
    if w.fileExists(c.filePath) && w.extract(c.filePath).Extracted? && !AllWs(w.extract(c.filePath).text) {
      SummarizeTextEndings(w, c, streamOff, w.extract(c.filePath).text);
    }
  }

  /** Past the checks a run posts at least one request, the first one asks
      for the summary of the first chunk, and the run ends with exit code 0,
      4 or 5 or with the exception. */
  lemma SummarizeTextEndings(w: World, c: Config, streamOff: bool, text: string)
    requires !AllWs(text)
    ensures var r := SummarizeText(w, c, streamOff, text);
      && r.ending in {Exit(0), Exit(4), Exit(5), Crash}
      && |Chunks(text, ChunkSize)| > 0
      && r.sent != [] && r.sent[0] == ChunkRequest(c, streamOff, Chunks(text, ChunkSize)[0])
  {
    var reqs := ChunkRequests(c, streamOff, Chunks(text, ChunkSize));
    NoChunksIffBlank(text, ChunkSize);
    SummarizeSpec(w, reqs, 0, []);
    var p := SummarizeFrom(w, reqs, 0, []);
    if p.Summarized? {
      var fin := FinalRequest(c, streamOff, p.summaries);
      var reply := ReplyTo(w, |reqs|, fin);
      if reply.Text? && c.structured {
        StructuredTailSpec(w, c, reqs + [fin], reply.s);
      }
    }
  }

  /** A run whose chunk requests `reqs` first go unanswered at request `k`
      posts `reqs[..k + 1]` and stops there: exit code 4 on a null reply, the
      exception otherwise; later chunks are never sent. */
  lemma StopsAtFirstFailure(w: World, c: Config, streamOff: bool, text: string, reqs: seq<Request>, k: nat)
    requires w.fileExists(c.filePath) && w.extract(c.filePath) == Extracted(text) && !AllWs(text)
    requires reqs == ChunkRequests(c, streamOff, Chunks(text, ChunkSize))
    requires FirstFailure(w, reqs, k)
    ensures Start(w, c, streamOff) ==
      Run(if ReplyTo(w, k, reqs[k]) == NullText then Exit(4) else Crash, reqs[..k + 1], [], Nothing)
  {
    LoopFirstFailure(w, reqs, k);
  }

  /** The final prompt lists the summaries in chunk order, one blank line
      between neighbours: one more summary extends the listing by a blank
      line and that summary, still ahead of the structured suffix. */
  lemma FinalPromptOrder(c: Config, streamOff: bool, summaries: seq<string>, s: string)
    requires summaries != []
    ensures var listing := CombineHeader + Join("\n\n", summaries) + "\n\n" + s;
      FinalRequest(c, streamOff, summaries + [s]).prompt
        == if c.structured then listing + StructuredSuffix else listing
  {
    var j := Join("\n\n", summaries);
    JoinAppend("\n\n", summaries, s);
    AppendAssoc(CombineHeader, j + "\n\n", s);
    AppendAssoc(CombineHeader, j, "\n\n");
  }

  /** A run whose chunk requests are all answered posts them in order and then
      the final request built from the trimmed answers in chunk order; a null
      final reply ends with exit code 5, a text reply `f` prints `Trim(f)` and
      ends with exit code 0 outside structured mode and goes on to the retry
      inside it. */
  lemma FinalAfterAllChunks(w: World, c: Config, streamOff: bool, text: string, reqs: seq<Request>)
    requires w.fileExists(c.filePath) && w.extract(c.filePath) == Extracted(text) && !AllWs(text)
    requires reqs == ChunkRequests(c, streamOff, Chunks(text, ChunkSize))
    requires AllAnswered(w, reqs)
    ensures var fin := FinalRequest(c, streamOff, Answers(w, reqs));
      var reply := ReplyTo(w, |reqs|, fin);
      var r := Start(w, c, streamOff);
      && (reply == Throws ==> r == Run(Crash, reqs + [fin], [], Nothing))
      && (reply == NullText ==> r == Run(Exit(5), reqs + [fin], [], Nothing))
      && (reply.Text? && !c.structured ==> r == Run(Exit(0), reqs + [fin], [], FinalText(Trim(reply.s))))
      && (reply.Text? && c.structured ==> r == StructuredTail(w, c, reqs + [fin], reply.s))
  {
    LoopAllAnswered(w, reqs);
  }

  /** The retry of structured mode: the requests posted before are kept and at
      most one conversion request follows, exactly when the first parse fails;
      the second parse happens exactly when the conversion answers with
      non-empty text; the run ends with the exception only when the conversion
      throws, and otherwise with exit code 0, printing the object of the last
      parse when that succeeded and the trimmed final summary when every parse
      failed. */
  lemma StructuredTailSpec(w: World, c: Config, sent: seq<Request>, f: string)
    ensures var r := StructuredTail(w, c, sent, f);
      var first := w.parseSummary(ExtractJsonFromText(f));
      var conv := Request(c.apiUrl, c.model, ConversionHeader + f, false);
      var answer := ReplyTo(w, |sent|, conv);
      && r.sent == (if first.Some? then sent else sent + [conv])
      && 1 <= |r.parsed| <= 2 && r.parsed[0] == ExtractJsonFromText(f)
      && (|r.parsed| == 2 <==> first.None? && answer.Text? && answer.s != [])
      && (r.ending == Crash <==> first.None? && answer == Throws)
      && (r.ending != Crash ==>
            && r.ending == Exit(0)
            && (r.shown == RawText(Trim(f)) <==>
                  forall k :: 0 <= k < |r.parsed| ==> w.parseSummary(r.parsed[k]).None?)
            && (r.shown != RawText(Trim(f)) ==>
                  Some(r.shown.result) == w.parseSummary(r.parsed[|r.parsed| - 1])))
  {
    var r := StructuredTail(w, c, sent, f);
    var json := ExtractJsonFromText(f);
    if |r.parsed| == 2 {
      var answer := ReplyTo(w, |sent|, Request(c.apiUrl, c.model, ConversionHeader + f, false));
      var json' := ExtractJsonFromText(answer.s);
      assert r.parsed[0] == json && r.parsed[1] == json';
      assert (forall k :: 0 <= k < |r.parsed| ==> w.parseSummary(r.parsed[k]).None?) <==>
        w.parseSummary(json).None? && w.parseSummary(json').None?;
    }
  }

  /** Every request in `sent` goes to the configured URL and model with the
      given `stream` setting. */
  predicate PostedTo(sent: seq<Request>, c: Config, streamOff: bool)
  {
    forall k :: 0 <= k < |sent| ==>
      sent[k].apiUrl == c.apiUrl && sent[k].model == c.model && sent[k].streamOff == streamOff
  }

  lemma PostedToAppend(sent: seq<Request>, r: Request, c: Config, streamOff: bool)
    requires PostedTo(sent, c, streamOff)
    requires r.apiUrl == c.apiUrl && r.model == c.model && r.streamOff == streamOff
    ensures PostedTo(sent + [r], c, streamOff)
  {
    assert forall k :: 0 <= k < |sent| ==> (sent + [r])[k] == sent[k];
  }

  lemma PostedToPrefix(sent: seq<Request>, n: nat, c: Config, streamOff: bool)
    requires n <= |sent| && PostedTo(sent, c, streamOff)
    ensures PostedTo(sent[..n], c, streamOff)
  {
  }

  /** Every request a run posts goes to the configured URL and model, with the
      program's `stream` setting: program.cs, whose conversion request has the
      same setting as its other requests, or a run outside structured mode,
      which never parses a structured summary. */
  lemma SentFields(w: World, c: Config, streamOff: bool)
    requires !c.structured || !streamOff
    ensures PostedTo(Start(w, c, streamOff).sent, c, streamOff)
    ensures !c.structured ==> Start(w, c, streamOff).parsed == []
  {
    if w.fileExists(c.filePath) && w.extract(c.filePath).Extracted? && !AllWs(w.extract(c.filePath).text) {
      SentFieldsAfterChecks(w, c, streamOff, w.extract(c.filePath).text);
    }
  }

  lemma SentFieldsAfterChecks(w: World, c: Config, streamOff: bool, text: string)
    requires !c.structured || !streamOff
    ensures PostedTo(SummarizeText(w, c, streamOff, text).sent, c, streamOff)
    ensures !c.structured ==> SummarizeText(w, c, streamOff, text).parsed == []
  {
    var reqs := ChunkRequests(c, streamOff, Chunks(text, ChunkSize));
    assert PostedTo(reqs, c, streamOff);
    var p := SummarizeFrom(w, reqs, 0, []);
    if p.Stopped? {
      PostedToPrefix(reqs, p.count, c, streamOff);
    } else {
      var fin := FinalRequest(c, streamOff, p.summaries);
      PostedToAppend(reqs, fin, c, streamOff);
      var reply := ReplyTo(w, |reqs|, fin);
      if reply.Text? && c.structured {
        var conv := Request(c.apiUrl, c.model, ConversionHeader + reply.s, false);
        PostedToAppend(reqs + [fin], conv, c, streamOff);
        StructuredTailSpec(w, c, reqs + [fin], reply.s);
      }
    }
  }

  /** app/Program.cs never parses a structured summary and posts every request
      to its URL with `"stream": false`; program.cs posts every request to its
      URL without that field. */
  lemma RequestsOfEachProgram(w: World, args: seq<string>)
    ensures AppRun(w, args).parsed == []
    ensures PostedTo(AppRun(w, args).sent, AppConfig(args), true)
    ensures PostedTo(ProgramRun(w, args).sent, ProgramConfig(args), false)
  {
    SentFields(w, AppConfig(args), true);
    SentFields(w, ProgramConfig(args), false);
  }
}
