# PDF summariser CLI: chunking, JSON extraction, reply normalisation and the run

This project models the core of a small .NET command-line tool. The tool reads
the text of a PDF, cuts it into chunks, and asks an Ollama-like HTTP endpoint to
summarise each chunk. It then asks the endpoint to combine the summaries. In
structured mode it also parses the final answer as a JSON summary object, with
one conversion retry.

There are two programs. `program.cs` is the full CLI, with the structured mode.
`app/Program.cs` is the simpler copy: it has no structured mode, always reads
its third argument as the URL, and sends `"stream": false`.

The model is organised as follows.

- **`Strings`**:
  - the .NET string operations the code relies on: `char.IsWhiteSpace` (`IsWs`),
    `string.Trim` (`Trim`), `IndexOf` and `LastIndexOf` on a character
    (-1 when absent), `string.Join` and an ordinal `StartsWith`;
  - two specification helpers: whitespace removal (`StripWs`) and concatenation
    (`Concat`).
- **`Chunker`**: `SplitIntoChunks`.
  - The imperative scanner is a method with its `while` loop and its inner
    whitespace-skipping loop.
  - It is proved equal to the specification function `Chunks`, which works on
    absolute indices into the text.
  - The properties of the chunks are proved about `Chunks`.
- **`JsonExtract`**: `ExtractJsonFromText`, the first-`{`-to-last-`}` span, else
  the first-`[`-to-last-`]` span, else the text itself.
- **`Normalizer`**: the tail of `SendPromptAsync`. It maps the outcome of the
  HTTP request and the parsed body to the reply.
  - `Json` is the parsed value, and `Render` is `JsonElement.ToString()`.
  - `GetString` is `JsonElement.GetString()`: null on JSON null, an uncaught
    exception on other non-strings.
  - `Lookup` is `TryGetProperty`, which finds the last member of a name.
  - The array branch's `StringBuilder` loop is the method `ConcatElements`.
- **`Orchestrator`**: both `Main` methods.
  - The outside world is a `World` value of oracles: file existence, PDF
    extraction, the endpoint (the outcome of the k-th request of a run),
    `JsonDocument.Parse` and `ParseStructuredSummary`.
  - A run is a `Run` value: its exit code or crash, the requests it posted in
    order, the strings it handed to `ParseStructuredSummary`, and what it
    printed.
  - `RunApp` and `RunProgram` are the imperative `Main`s. They are proved equal
    to the specification functions `AppRun` and `ProgramRun`.

The code cuts a window at its last inner line break or space even when the
whole remaining text fits in the window. So a text shorter than `maxChars` does
not in general come out as one chunk, although it is natural to expect that it
would. This model follows the code:

- `Chunker.ShortTextStillSplits` shows `"a b c"` with a limit of 100 giving
  `["a b", "c"]`;
- `Chunker.OneChunkWithoutInnerBoundary` states when the one-chunk claim does
  hold.

## Model

| member | source | states |
|---|---|---|
| Strings.SkipWsSpec | program.cs:233 | the whitespace skip steps over exactly one run of `char.IsWhiteSpace` characters and stops at the first other one |
| Strings.TrimSpec | program.cs:230 | `Trim` is the slice of its input left when all leading and trailing whitespace is removed; it is empty exactly for blank input; a non-empty result starts and ends with non-whitespace |
| Strings.IndexOfSpec | program.cs:241 | `IndexOf` is -1 exactly when the character is absent, otherwise the index of its first occurrence |
| Strings.LastInSpec | program.cs:242 | `LastIndexOf` is -1 when the character is absent, otherwise the index of its last occurrence |
| Strings.StripWsAppend | app/Program.cs:184-191 | removing whitespace distributes over concatenation |
| Strings.JoinAppend | program.cs:69 | joining one more summary appends the separator and that summary |
| Chunker.BreakAt | program.cs:227-229 | the cut index of a non-empty window is between 1 and the window length, so the scan always advances |
| Chunker.BreakAtIsLastBoundary | program.cs:227-229 | the cut is the last `'\n'` after index 0, else the last `' '` after index 0, else the window end |
| Chunker.WindowEnd | program.cs:225 | the window holds between 1 and `maxChars` characters and stays inside the text |
| Chunker.WindowStep | program.cs:226-230 | the window string, `LastIndexOf` on it and the trimmed `Substring` give the same cut and chunk as the index-based specification |
| Chunker.CutWindow | program.cs:225-230 | one turn of the scan up to the skip: the cut ends where the specification cuts, and the chunk is the trimmed piece before the cut |
| Chunker.SkipWhitespace | program.cs:233 | the inner loop stops at the first non-whitespace character after the cut, or at the end of the text |
| Chunker.SplitIntoChunks | program.cs:219-236 | the scanner terminates, returns exactly the chunks of the specification, and every chunk is non-empty, at most `maxChars` long, and trimmed |
| Chunker.ScanStepAt | program.cs:230-233 | with the cut and chunk the loop computes, a turn keeps the loop's invariant: the trimmed piece is added only when it is not empty, the scan resumes after the whitespace that follows the cut, and the chunks gathered so far are still exactly the chunks of the text before the resume point |
| Chunker.ChunksWellFormed | program.cs:225-231 | every chunk is non-empty, has no leading or trailing whitespace, and is at most `maxChars` long |
| Chunker.ChunksKeepContent | app/Program.cs:184-191 | the chunks, concatenated and stripped of whitespace, equal the text stripped of whitespace: no other character is lost or duplicated |
| Chunker.ChunksAreSlices | app/Program.cs:183-191 | each chunk is the slice of the text at its offset |
| Chunker.ChunksInOrder | app/Program.cs:183-191 | the chunk offsets run left to right, and each chunk ends at or before the start of every later one |
| Chunker.NoChunksIffBlank | app/Program.cs:181-191 | the text yields no chunks exactly when it is empty or whitespace only |
| Chunker.OneChunkWithoutInnerBoundary | program.cs:225-231 | a non-blank text that fits in one window with no `'\n'` or `' '` after its first character gives the single chunk `Trim(text)` |
| Chunker.ShortTextStillSplits | program.cs:227-232 | `"a b c"` with a limit of 100 gives `["a b", "c"]`: the cut happens even when the text fits |
| JsonExtract.SpanSpec | program.cs:241-244 | a span exists exactly when some opening character precedes some closing one, and it runs from the first opening to the last closing, both included |
| JsonExtract.ObjectSpan | program.cs:241-244 | non-blank text with a `{` before a `}` gives the text from its first `{` to its last `}` |
| JsonExtract.ArraySpan | program.cs:246-249 | without an object span, a `[` before a `]` gives the text from its first `[` to its last `]` |
| JsonExtract.Unchanged | program.cs:240-251 | blank text, and text with neither span, is returned as it is |
| JsonExtract.IsSlice | program.cs:238-252 | the result is always one contiguous piece of the input |
| JsonExtract.Idempotent | program.cs:238-252 | extracting twice gives the same as extracting once |
| JsonExtract.FramedObject | program.cs:241-244 | an object between prose without `{` before it and prose without `}` after it is cut out exactly |
| JsonExtract.FramedArray | program.cs:246-249 | an array in a text without `{`, between prose without `[` before it and prose without `]` after it, is cut out exactly |
| JsonExtract.ExtractsObjectExample | tests/LLM.Tests/ProgramTests.cs:9-14 | `Intro text\n{"a":1,"b":2}\nOutro` gives `{"a":1,"b":2}` |
| JsonExtract.ExtractsArrayExample | tests/LLM.Tests/ProgramTests.cs:17-22 | `Start [1,2,3] end` gives `[1,2,3]` |
| JsonExtract.NoJsonExample | tests/LLM.Tests/ProgramTests.cs:25-30 | `No json here` comes back unchanged |
| Normalizer.GetStringSpec | program.cs:184 | `GetString` gives text exactly for a string (its value) and null exactly for JSON null; everything else throws |
| Normalizer.LookupSpec | program.cs:177 | a member lookup fails exactly when no member has the name, and otherwise finds the last member with it |
| Normalizer.ConcatElements | program.cs:163-171 | the `StringBuilder` loop builds the array text: the element texts in element order |
| Normalizer.ArrayTextAppend | program.cs:164-170 | the array text of two runs of elements is the first run's text followed by the second's |
| Normalizer.ArrayTextOfResponses | program.cs:161-172 | when every element is an object with a string `response`, the reply is those strings concatenated in order |
| Normalizer.NormalizeResponse | program.cs:156-204 | the normalisation code gives the reply of the shape-priority specification |
| Normalizer.ObjectPriority | program.cs:174-196 | an object root answers with `response`, rendered, whenever present; `text` is read (through `GetString`) only without `response`; `output` only without both |
| Normalizer.RawFallback | program.cs:199-204 | an unparseable body, a scalar root, and an object without `response`, `text` and `output` give the raw body |
| Normalizer.NonTextReply | program.cs:183-196 | null or the uncaught exception comes only from `GetString` on `text` or on `output[0].content`; null exactly when that value is JSON null |
| Normalizer.NullReply | program.cs:139-204 | the reply is null exactly on a transport failure, a status outside 200-299, or a success body that is an object without `response` whose `text` is JSON null or, lacking `text`, whose `output[0].content` is JSON null; an unparseable success body is returned raw |
| Normalizer.ResponseExample | program.cs:177-179 | `{"response":"hello"}` answers `hello` |
| Normalizer.ArrayExample | program.cs:161-172 | `[{"response":"a"},{"response":"b"}]` answers `ab` |
| Normalizer.NullTextExample | app/Program.cs:141-142 | `{"text":null}` answers null |
| Orchestrator.SendPrompt | program.cs:120-205 | posting a request and normalising the answer gives the reply of the specification |
| Orchestrator.ConfigsAgree | program.cs:25-28 | both programs read file and model alike; the URL alike unless the third argument starts with `-`; structured mode exactly when `--structured` or `-s` is an argument |
| Orchestrator.SummarizeFrom | program.cs:55-65 | the chunk loop stops after posting at least one more request and at most all of them |
| Orchestrator.SummarizeChunks | program.cs:55-65 | the chunk loop as written gives the progress of the specification |
| Orchestrator.SummarizeSpec | program.cs:55-65 | the loop stops at the first reply that is not text (exit code 4 on null, the exception otherwise); otherwise the summaries are the trimmed replies in chunk order |
| Orchestrator.LoopAllAnswered | app/Program.cs:51-61 | when every chunk is answered, the loop ends with the trimmed answers in chunk order |
| Orchestrator.LoopFirstFailure | app/Program.cs:51-61 | at the first unanswered chunk the loop stops with exit code 4 (null) or the exception, having posted the requests up to that chunk |
| Orchestrator.SetupChecks | program.cs:30-50 | exit code 1 exactly when the file is missing, 3 exactly when extraction throws, 2 exactly when the text is blank; then nothing is posted or printed |
| Orchestrator.SummarizeTextEndings | program.cs:52-117 | past the checks there is at least one chunk, the first request asks about the first chunk, and the run ends with exit code 0, 4 or 5 or with the exception |
| Orchestrator.StopsAtFirstFailure | app/Program.cs:51-61 | a run whose first unanswered chunk is `k` posts the first `k + 1` chunk requests, prints nothing, and ends with 4 or the exception; later chunks are never sent |
| Orchestrator.FinalPromptOrder | program.cs:69-73 | the final prompt is the combine header followed by the summaries in chunk order, a blank line between neighbours, with the structured instruction appended last only in structured mode |
| Orchestrator.FinalAfterAllChunks | app/Program.cs:63-73 | when all chunks are answered, the final request joins the trimmed answers with blank lines; a null final reply gives exit code 5, a text reply prints it trimmed with exit code 0, or goes to the retry in structured mode |
| Orchestrator.StructuredTailSpec | program.cs:82-110 | at most one conversion request, sent exactly when the first parse fails; a second parse exactly when the conversion answers non-empty text; exit code 0 unless the conversion throws; prints the last successful parse, or the trimmed final summary when every parse failed |
| Orchestrator.RetryStructured | program.cs:82-110 | the structured tail as written gives the run of the specification |
| Orchestrator.SentFields | program.cs:122-135 | every request a run posts goes to the configured URL and model with the program's `stream` setting; without structured mode nothing is parsed |
| Orchestrator.RequestsOfEachProgram | app/Program.cs:76-93 | app/Program.cs never parses a structured summary and sends `"stream": false` on every request; program.cs never sends it |
| Orchestrator.RunMain | program.cs:30-65 | the checks, the chunking and the loop as written give the run of the specification |
| Orchestrator.Summarize | program.cs:52-80 | the chunk loop and final request as written give the run of the specification |
| Orchestrator.RunApp | app/Program.cs:20-74 | `Main` of app/Program.cs gives the run `AppRun` |
| Orchestrator.RunProgram | program.cs:23-118 | `Main` of program.cs gives the run `ProgramRun` |

## Left out

- PDF text extraction (`ExtractTextFromPdf`, PdfPig) is an oracle: it gives a string or throws.
- HTTP transport, the 30-second timeout and async/await are left out. The outcome of the k-th request is an oracle: a transport failure, or a status code with a body.
- `JsonDocument.Parse` is an oracle. It yields `None` where it throws a `JsonException`.
- The raw text that `ToString()` gives for numbers, arrays and objects is carried in the parsed value rather than computed.
- The JSON writing of the request body (`Utf8JsonWriter`) is left out: a request is its URL, model, prompt and `stream` flag.
- `ParseStructuredSummary` and the `StructuredSummary` class are an oracle. Case-insensitive binding and serialisation for printing are not modelled.
- Console output is reduced to what a run prints on standard output; messages on standard error are not modelled.
- mockserver/Program.cs is not part of this model.
- Orchestrator.ConfigsAgree: `StartsWith("-")` is culture-sensitive in .NET; it is modelled as an ordinal prefix test.
- Chunker.SplitIntoChunks: requires `maxChars >= 1`. With 0 the source never ends on a text holding a non-whitespace character (a blank text gives no chunks); with a negative value `Substring` throws on any non-empty text (an empty text gives no chunks). Both callers pass 3000.
- Characters are Unicode scalar values, not UTF-16 code units, so a surrogate pair counts as one character in the `maxChars` limit.
