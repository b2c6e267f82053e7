# ssetool core, modelled in Dafny

ssetool is an editor extension that takes a buffered Server-Sent Events
transcript (for example a streamed LLM response copied from a browser), finds
its `data:` lines, parses each payload as JSON, pulls one value out of every
message with a JSONPath expression and concatenates the values into a single
text. This project models that pipeline and the small list logic the editor
commands keep around it:

- `wrappers.dfy`, `sequences.dfy`: an `Option` type and the sequence shapes the
  source uses: the "skip some, push the rest" loop (`FilterMap`, with a
  declarative reading `Picks` proved equivalent in both directions),
  `Array.prototype.map` (`Map`), `Array.prototype.join` (`Join`) and a record
  filled key by key (`Tabulate`).
- `text.dfy`: `String.prototype.trim` (the ECMAScript whitespace and line
  terminator set), `startsWith` and `split('\n')`.
- `json.dfy`: the JSON values that `JSON.parse` produces.
- `sse_parser.dfy`: `parseSSEMessages` and `extractSSEJsonStrings`.
- `json_path_extractor.dfy`: `extractByPath`, `extractFromMultiple` and
  `mergeExtractedValues`.
- `merger.dfy`: `processSSE` with its three outcomes, and
  `processSSEMultiplePaths`.
- `commands.dfy`: the recent-path list update of `saveRecentPath`, the
  `getLastUsedPath` fallback, the default-path lookup and the picker items of
  `promptForJsonPath`.

The loops of the source (the two parsers, `extractFromMultiple`, `processSSE`,
`processSSEMultiplePaths`, the recent-path update) are methods proved equal to
specification functions; the properties are lemmas about those functions.
Calls into code that cannot be seen are parameters: `JSON.parse` is
`parse: string -> Option<Json>` (a thrown `SyntaxError` is `None`), the
jsonpath-plus evaluator is `evaluate: (Json, string) -> Evaluation` (it throws,
or returns `undefined` or a JSON value), and `JSON.stringify` and `String(n)`
for numbers are the two functions of a `Formatter`. The settings store is
plain input and output.

Two details of the code are worth stating. `null` takes the
`typeof v === 'object'` branch of `mergeExtractedValues` and is stringified by
`JSON.stringify` (src/jsonPathExtractor.ts:58-59). A message's `data` may be
any JSON value (`data: 42` parses), although src/sseParser.ts:7 types it as
`object`.

## Model

| member | source | states |
|---|---|---|
| Sequences.FilterMapPicks | src/sseParser.ts:20-47 | the skip-or-push loop result lists, in increasing position order, exactly the values of the accepted elements |
| Sequences.PicksDetermineFilterMap | src/sseParser.ts:20-47 | any in-order listing of exactly the accepted elements' values is the loop's result (the converse reading) |
| Sequences.FilterMapAppend | src/jsonPathExtractor.ts:37-42 | the skip-or-push loop over `xs ++ zs` is the loop over `xs` followed by the loop over `zs` |
| Sequences.RejectedContributesNothing | src/jsonPathExtractor.ts:39-41 | an element the loop skips adds nothing and does not stop the elements after it |
| Sequences.MapAppend | src/jsonPathExtractor.ts:54-63 | `map` distributes over concatenation |
| Sequences.JoinAppend | src/jsonPathExtractor.ts:64 | `join(sep)` of `a ++ b` (both non-empty) is the two joins with one `sep` between |
| Sequences.JoinAppendNoSeparator | src/jsonPathExtractor.ts:64 | `join('')` of `a ++ b` is the concatenation of the two joins, empty sides included |
| Text.Trim | src/sseParser.ts:21 | `trim` leaves neither leading nor trailing whitespace and never lengthens the text |
| Text.TrimKeepsTheMiddle | src/sseParser.ts:21 | `trim` keeps the infix between the leading and the trailing whitespace, and everything it drops is whitespace |
| Text.TrimEmptyIffAllWhitespace | src/sseParser.ts:21-26 | a trimmed line is empty (and skipped) exactly when the line is all whitespace |
| Text.TrimIdempotent | src/sseParser.ts:21 | trimming twice equals trimming once |
| Text.TrimIgnoresTrailingWhitespace | src/sseParser.ts:21 | a trailing whitespace character (a CRLF line's `\r`) does not change the trim |
| Text.StartsWith | src/sseParser.ts:29 | `startsWith` holds only when the text is the prefix followed by the rest of the text |
| Text.StartsWithConcat | src/sseParser.ts:29 | conversely, every text made of the prefix and a rest starts with the prefix |
| Text.SplitLines | src/sseParser.ts:18 | `split('\n')` yields at least one piece |
| Text.SplitLinesFeedFree | src/sseParser.ts:18 | no piece of `split('\n')` holds a line feed |
| Text.SplitLinesJoin | src/sseParser.ts:18 | joining the pieces with `\n` gives the text back |
| Text.JoinSplitLines | src/sseParser.ts:18 | splitting the `\n`-join of feed-free lines gives the lines back |
| Text.SplitLinesCount | src/sseParser.ts:18 | there is exactly one piece more than there are line feeds |
| Text.SplitLinesAppend | src/sseParser.ts:18 | texts joined by a line feed split into the pieces of the first then those of the second |
| SseParser.ParseSSEMessages | src/sseParser.ts:16-50 | the loop (blank-line skip, `data:` test, empty-payload skip, parse or skip) returns exactly `ParsedMessages(text)` |
| SseParser.ExtractSSEJsonStrings | src/sseParser.ts:57-73 | the loop returns exactly the non-empty payloads of the `data:` lines, `JsonStrings(text)` |
| SseParser.MessageOfLine | src/sseParser.ts:21-41 | a line yields a message iff its trimmed form starts with `data:` and its non-empty payload parses; the message keeps the trimmed line |
| SseParser.MessagesWellFormed | src/sseParser.ts:21-41 | every message's `raw` is trimmed, starts with `data:`, has a non-empty payload, and that payload parses to its `data` |
| SseParser.MessagesFollowLines | src/sseParser.ts:18-47 | message k comes from line idx[k] (raw = that line trimmed), positions strictly increase, and a line is used iff it is a `data:` line whose non-empty payload parses |
| SseParser.JsonStringsFollowLines | src/sseParser.ts:57-73 | string k is the non-empty payload of line idx[k], in line order, and a line contributes iff it is a `data:` line with a non-empty payload |
| SseParser.MessageCountBound | src/sseParser.ts:18-49 | there are never more messages than `\n`-separated lines |
| SseParser.SkippedLineContributesNothing | src/sseParser.ts:24-45 | a blank line, a non-`data:` line, an empty payload or a payload that fails to parse adds nothing and parsing carries on after it |
| SseParser.DataAreParsedJsonStrings | src/sseParser.ts:30-41 | the messages' data are exactly the extracted payload strings that parse, in order |
| SseParser.ParsedMessagesAgreeWithJsonStrings | src/sseParser.ts:57-73 | `parseSSEMessages` keeps exactly those strings of `extractSSEJsonStrings` that parse, in the same order |
| SseParser.CarriageReturnIgnored | src/sseParser.ts:18-21 | a `\r` left at the end of a CRLF line changes neither the payload nor the message |
| SseParser.ParsedMessagesAppend | src/sseParser.ts:18-47 | the messages of two texts joined by a line feed are the messages of each, one after the other |
| SseParser.IgnoredLineLeavesMessages | src/sseParser.ts:24-45 | a leading line that yields no message (comment, `event:` line, unparsable `[DONE]`) leaves the messages unchanged |
| JsonPathExtractor.ExtractByPath | src/jsonPathExtractor.ts:14-26 | a throwing evaluation becomes `undefined`; otherwise the evaluator's result is returned as is |
| JsonPathExtractor.ExtractFromMultiple | src/jsonPathExtractor.ts:34-45 | the loop returns exactly `ExtractedValues`, the present extraction results in object order |
| JsonPathExtractor.ExtractedValuesFollowObjects | src/jsonPathExtractor.ts:37-42 | result k is the extraction from object idx[k], positions increase, no result is `null`, there are at most as many results as objects, and an object contributes iff its extraction is neither `undefined` nor `null` |
| JsonPathExtractor.AbsentContributesNothing | src/jsonPathExtractor.ts:22-41 | an object whose evaluation throws or yields `undefined` or `null` adds nothing |
| JsonPathExtractor.Stringified | src/jsonPathExtractor.ts:55-63 | by JavaScript `typeof`: a string is copied, an object, array or `null` goes through `JSON.stringify`, a number through `String`, and a boolean becomes "true" exactly when it is true and "false" exactly when it is false |
| JsonPathExtractor.MergeExtractedValues | src/jsonPathExtractor.ts:53-65 | merging no values gives the empty text; one value gives its text with no separator |
| JsonPathExtractor.MergeSingleValue | src/jsonPathExtractor.ts:56-59 | a string value is copied verbatim; an object or array is emitted as its JSON text |
| JsonPathExtractor.MergeAppendNoSeparator | src/jsonPathExtractor.ts:53-64 | with the default `''` separator, merging `xs ++ ys` is merge(xs) followed by merge(ys) |
| JsonPathExtractor.MergeAppend | src/jsonPathExtractor.ts:64 | with separator `s` and both sides non-empty, merge(`xs ++ ys`) = merge(xs) + s + merge(ys) |
| JsonPathExtractor.MergeTwo | src/jsonPathExtractor.ts:53-64 | two values merge to their two texts with the separator between them |
| JsonPathExtractor.MergeStrings | src/jsonPathExtractor.ts:56-57 | string values merged with `''` are the plain concatenation of the strings |
| Merger.ProcessSSE | src/merger.ts:23-62 | parse, early failure when nothing parsed, extract from each message in turn, early failure when nothing was found, else merge: returns exactly `Outcome(text, path)` |
| Merger.OutcomeCases | src/merger.ts:25-61 | the record is consistent (result and values on success, only an error on failure); `messageCount` is the number of messages; "No valid SSE messages found" iff the count is 0; "No values found for JSONPath: path" iff messages exist but nothing was found; success iff some value was found, and then the values are non-empty, no more than the messages, and the result is their merge with `''` |
| Merger.ErrorsDiffer | src/merger.ts:31-49 | the two error texts never coincide, so the error tells the two failures apart |
| Merger.OutcomeFromPayloads | src/merger.ts:36-60 | `messageCount` is the number of `data:` payloads that parse; on success the values are what the path finds in those parsed payloads, in order (the `extractFromMultiple` result over the messages' data) |
| Merger.OutcomeValuesFollowMessages | src/merger.ts:38-43 | on success value k is what the path finds in message idx[k], in message order, never `null`, and a message contributes iff its extraction is present |
| Merger.ConcatenatedStreams | src/merger.ts:23-62 | two transcripts that succeed alone succeed joined by a line feed, with counts added and values and merged text concatenated |
| Merger.IgnoredLineLeavesOutcome | src/merger.ts:25-62 | a leading line that yields no message does not change the outcome |
| Merger.ProcessSSEMultiplePaths | src/merger.ts:70-81 | the loop returns exactly the record mapping each given path to its `processSSE` outcome |
| Sequences.TabulateSnoc | src/merger.ts:76-78 | storing one more key adds its entry, or overwrites it with the same value |
| Sequences.TabulateEntries | src/merger.ts:74-80 | the record filled key by key has exactly the listed keys, each holding its own value |
| Merger.OutcomesByPathSnoc | src/merger.ts:76-78 | one more path stores that path's `processSSE` outcome, overwriting an earlier entry for the same path |
| Merger.OutcomesByPathEntries | src/merger.ts:70-81 | the keys are exactly the given paths, each holding its own outcome, so a repeated path gives one entry and there are no more entries than paths |
| Commands.DefaultJsonPath | src/commands.ts:11-14 | the configured default path, or `$.response.candidates[0].content.parts[0].text` when none is configured |
| Commands.LastUsedPath | src/commands.ts:19-23 | the stored last-used path when non-empty, else the default path |
| Commands.SaveRecentPath | src/commands.ts:44-60 | filter out the path, put it in front, keep ten, and store it as the last used path |
| Commands.WithoutPicks | src/commands.ts:49 | the filter keeps, in order, exactly the entries other than the path |
| Commands.WithoutMembers | src/commands.ts:49 | after the filter the path is absent and every other entry is still present |
| Commands.WithoutAbsent | src/commands.ts:49 | filtering out a path that is not there changes nothing |
| Commands.RecentPathsAfterSaveShape | src/commands.ts:49-55 | the new list has 1 to 10 entries, the path first and nowhere else, then the earlier other entries in their order, cut to nine |
| Commands.SaveRecentPathIdempotent | src/commands.ts:49-55 | saving the same path twice gives the same list as saving it once |
| Commands.SaveRecentPathKeepsNoDuplicates | src/commands.ts:49-55 | a list without repeated paths has none after a save |
| Commands.SavedPathIsLastUsed | src/commands.ts:21-59 | the `lastUsed \|\| default` fallback applied to the value a save writes gives the saved path, or the default for an empty path |
| Commands.QuickPickItemsOrder | src/commands.ts:70-77 | items exist iff there are recent paths; then: the custom-entry item, the default path (the only preselected item and its only listing after the first item), then the other recent paths in order as "Recent" items |
| Commands.QuickPickItems | src/commands.ts:70-77 | there are items exactly when there are recent paths; then the custom-entry item comes first, the default path second and preselected, and one item follows for each recent path other than the default |
| Commands.Selected | src/commands.ts:84-96 | no selection cancels; the custom-entry label, and only it, opens the input box; any other item yields its label |
| Commands.PickingAnItemYieldsItsPath | src/commands.ts:84-96 | every item after the custom entry is the default or a recent path, and picking it yields that path unless its label is the custom entry's |

## Left out

- I/O and host glue: clipboard and editor reads, showing the picker and the input box, opening the result document, messages, command registration (src/extension.ts) and the asynchronous settings writes. The stored recent list and last-used path are plain inputs and outputs (`Commands.StoredPaths`).
- The jsonpath-plus evaluator: its grammar and its `wrap: false` single/multiple-match behaviour are foreign; it is the `evaluate` parameter.
- `JSON.parse` and `JSON.stringify` internals, and `String(n)` number formatting (floating point): the `parse` parameter and the `Formatter` functions. JSON numbers are `real`.
- `console.warn` diagnostics on parse and evaluation failures: side effects only.
- Strings are sequences of Unicode scalar values, not UTF-16 code units; `slice(5)` after a matched `data:` prefix is unaffected. A JSON string holding half of a surrogate pair cannot be a `JString`. Such a string arises when an emoji is split across two streamed chunks as `\ud83d` and `\ude00`; JavaScript's merge joins the halves back into one character, and the model cannot represent that.
- JavaScript record keys: a path spelled `__proto__` would not become an own key of the `processSSEMultiplePaths` record; the model uses a `map`, where every path is a key.
- Commands.SavedPathIsLastUsed: assumes that reading `ssetool.lastUsedPath` returns the Global value the save has just written (src/commands.ts:30, reached from line 59). It does not model a workspace or folder value that overrides the Global one when `getConfiguration('ssetool').get` reads it back (src/commands.ts:20-21), nor a rejected `config.update` of the recent list at line 58, after which the last-used path is never written.
- Values that are not JSON (`undefined` inside the value list, functions) never reach `mergeExtractedValues` from the pipeline and are not modelled.
