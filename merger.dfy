/**
 * The merger (src/merger.ts): parse the stream, extract one value per message
 * with the JSONPath, and merge the values, reporting why nothing came out when
 * nothing did.
 */
module Merger {
  import opened Wrappers
  import opened Sequences
  import opened JsonValues
  import opened SseParser
  import opened JsonPathExtractor

  /**
   * The MergeResult record: `success`, then the optional `result`,
   * `extractedValues` and `error` fields, and `messageCount`.
   */
  datatype MergeResult = MergeResult(
    success: bool,
    result: Option<string>,
    extractedValues: Option<seq<Json>>,
    messageCount: nat,
    error: Option<string>)

  /** The error when the stream holds no message that parses. */
  const NoMessagesError: string := "No valid SSE messages found"

  /** processSSE merges with mergeExtractedValues' default separator. */
  const DefaultSeparator: string := ""

  /** The error when no message yields a value at `path`. */
  function NoValuesError(path: string): string
  {
    "No values found for JSONPath: " + path
  }

  function Failed(messageCount: nat, error: string): MergeResult
  {
    MergeResult(false, None, None, messageCount, Some(error))
  }

  function Succeeded(merged: string, values: seq<Json>, messageCount: nat): MergeResult
  {
    MergeResult(true, Some(merged), Some(values), messageCount, None)
  }

  /** A success carries a result and the values and no error; a failure only an error. */
  predicate Consistent(r: MergeResult)
  {
    if r.success then r.result.Some? && r.extractedValues.Some? && r.error.None?
    else r.result.None? && r.extractedValues.None? && r.error.Some?
  }

  /** What processSSE returns for `text` and `path`. */
  function Outcome(text: string, path: string, parse: JsonParser, evaluate: Evaluator, fmt: Formatter): (r: MergeResult)
    ensures Consistent(r)
  {
    OutcomeOf(ParsedMessages(text, parse), path, evaluate, fmt)
  }

  /** The part of processSSE after the parse, given the parsed messages. */
  function OutcomeOf(messages: seq<ParsedMessage>, path: string, evaluate: Evaluator, fmt: Formatter): (r: MergeResult)
    ensures Consistent(r)
  {
    if messages == [] then Failed(0, NoMessagesError)
    else
      var values := ExtractedValues(evaluate, Datas(messages), path);
      if values == [] then Failed(|messages|, NoValuesError(path))
      else Succeeded(MergeExtractedValues(values, DefaultSeparator, fmt), values, |messages|)
  }

  /**
   * processSSE: returns early when no message parses, extracts from every
   * message in turn keeping what is neither undefined nor null, returns early
   * when nothing was kept, and otherwise merges what was kept.
   */
  method ProcessSSE(text: string, jsonPath: string, parse: JsonParser, evaluate: Evaluator, fmt: Formatter)
    returns (r: MergeResult)
    ensures r == Outcome(text, jsonPath, parse, evaluate, fmt)
  {
    var messages := ParseSSEMessages(text, parse);
    assert Outcome(text, jsonPath, parse, evaluate, fmt) == OutcomeOf(messages, jsonPath, evaluate, fmt);
    if |messages| == 0 {
      return Failed(0, NoMessagesError);
    }
    var extractedValues: seq<Json> := [];
    for i := 0 to |messages|
      invariant extractedValues == ExtractedValues(evaluate, Datas(messages[..i]), jsonPath)
    {
      ExtractedFromOneMoreMessage(evaluate, messages, i, jsonPath);
      var value := ExtractByPath(evaluate, messages[i].data, jsonPath);
      if value != Undefined && value != Defined(JNull) {
        extractedValues := extractedValues + [value.value];
      }
    }
    assert messages[..|messages|] == messages;
    if |extractedValues| == 0 {
      return Failed(|messages|, NoValuesError(jsonPath));
    }
    var mergedResult := MergeExtractedValues(extractedValues, DefaultSeparator, fmt);
    return Succeeded(mergedResult, extractedValues, |messages|);
  }

  /** The values extracted from one more message. */
  lemma ExtractedFromOneMoreMessage(evaluate: Evaluator, messages: seq<ParsedMessage>, i: int, path: string)
    requires 0 <= i < |messages|
    ensures ExtractedValues(evaluate, Datas(messages[..i + 1]), path)
         == ExtractedValues(evaluate, Datas(messages[..i]), path)
            + Emitted(Present(ExtractByPath(evaluate, messages[i].data, path)))
  {
    var datas := Datas(messages[..i + 1]);
    assert messages[..i + 1] == messages[..i] + [messages[i]];
    DatasAppend(messages[..i], [messages[i]]);
    assert datas == Datas(messages[..i]) + [messages[i].data];
    FilterMapSnoc(Datas(messages[..i]), messages[i].data, PresentAt(evaluate, path));
  }

  /** The three outcomes, with what each carries. */
  lemma OutcomeCases(text: string, path: string, parse: JsonParser, evaluate: Evaluator, fmt: Formatter)
    ensures var r := Outcome(text, path, parse, evaluate, fmt);
      var values := ExtractedValues(evaluate, Datas(ParsedMessages(text, parse)), path);
      && Consistent(r)
      && r.messageCount == |ParsedMessages(text, parse)|
      && (r.error == Some(NoMessagesError) <==> r.messageCount == 0)
      && (r.error == Some(NoValuesError(path)) <==> r.messageCount > 0 && values == [])
      && (r.success <==> values != [])
      && (r.success ==>
            && r.extractedValues == Some(values)
            && 1 <= |values| <= r.messageCount
            && r.result == Some(MergeExtractedValues(values, DefaultSeparator, fmt)))
  {
    var messages := ParsedMessages(text, parse);
    if messages == [] {
      assert FilterMap(Datas(messages), PresentAt(evaluate, path)) == [];
    }
    ErrorsDiffer(path);
  }

  /** The two error texts never coincide. */
  lemma ErrorsDiffer(path: string)
    ensures NoMessagesError != NoValuesError(path)
  {
    assert NoMessagesError[6] == 'i';
    assert NoValuesError(path)[6] == 'u';
  }

  /**
   * The message count is the number of `data:` payloads that parse, and the
   * extracted values are what the path finds in those payloads, in order.
   */
  lemma OutcomeFromPayloads(text: string, path: string, parse: JsonParser, evaluate: Evaluator, fmt: Formatter)
    ensures var r := Outcome(text, path, parse, evaluate, fmt);
      var parsed := FilterMap(JsonStrings(text), parse);
      && r.messageCount == |parsed|
      && (r.success ==> r.extractedValues == Some(ExtractedValues(evaluate, parsed, path)))
  {
    var messages := ParsedMessages(text, parse);
    ParsedMessagesAgreeWithJsonStrings(text, parse);
    OutcomeOfCounts(messages, path, evaluate, fmt);
  }

  /** The count is the number of messages, and the values are extracted from their data. */
  lemma OutcomeOfCounts(messages: seq<ParsedMessage>, path: string, evaluate: Evaluator, fmt: Formatter)
    ensures var r := OutcomeOf(messages, path, evaluate, fmt);
      && r.messageCount == |Datas(messages)|
      && (r.success ==> r.extractedValues == Some(ExtractedValues(evaluate, Datas(messages), path)))
  {
  }

  /**
   * Every extracted value is what the path finds in some message, the values
   * keep the messages' order, none is null, and every message where the path
   * finds something contributes.
   */
  lemma OutcomeValuesFollowMessages(text: string, path: string, parse: JsonParser, evaluate: Evaluator, fmt: Formatter)
    returns (idx: seq<int>)
    requires Outcome(text, path, parse, evaluate, fmt).success
    ensures var r := Outcome(text, path, parse, evaluate, fmt);
      var messages := ParsedMessages(text, parse);
      var values := r.extractedValues.value;
      && |idx| == |values|
      && (forall k :: 0 <= k < |idx| ==>
            && 0 <= idx[k] < |messages|
            && ExtractByPath(evaluate, messages[idx[k]].data, path) == Defined(values[k])
            && values[k] != JNull)
      && (forall k, l :: 0 <= k < l < |idx| ==> idx[k] < idx[l])
      && (forall i :: 0 <= i < |messages| ==>
            (i in idx <==> ExtractByPath(evaluate, messages[i].data, path) !in {Undefined, Defined(JNull)}))
  {
    var messages := ParsedMessages(text, parse);
    OutcomeOfCounts(messages, path, evaluate, fmt);
    assert Outcome(text, path, parse, evaluate, fmt).extractedValues.value
        == ExtractedValues(evaluate, Datas(messages), path);
    idx := ValuesFollowMessages(messages, path, evaluate);
  }

  /** ExtractedValuesFollowObjects, read on the messages rather than on their data. */
  lemma ValuesFollowMessages(messages: seq<ParsedMessage>, path: string, evaluate: Evaluator) returns (idx: seq<int>)
    ensures var values := ExtractedValues(evaluate, Datas(messages), path);
      && |idx| == |values|
      && (forall k :: 0 <= k < |idx| ==>
            && 0 <= idx[k] < |messages|
            && ExtractByPath(evaluate, messages[idx[k]].data, path) == Defined(values[k])
            && values[k] != JNull)
      && (forall k, l :: 0 <= k < l < |idx| ==> idx[k] < idx[l])
      && (forall i :: 0 <= i < |messages| ==>
            (i in idx <==> ExtractByPath(evaluate, messages[i].data, path) !in {Undefined, Defined(JNull)}))
  {
    var datas := Datas(messages);
    idx := ExtractedValuesFollowObjects(evaluate, datas, path);
    assert forall i :: 0 <= i < |messages| ==> datas[i] == messages[i].data;
  }

  /**
   * Two streams joined by a line feed that each succeed on their own succeed
   * together, with the messages counted together and the values and merged
   * text of the first followed by those of the second.
   */
  lemma ConcatenatedStreams(a: string, b: string, path: string, parse: JsonParser, evaluate: Evaluator, fmt: Formatter)
    requires Outcome(a, path, parse, evaluate, fmt).success
    requires Outcome(b, path, parse, evaluate, fmt).success
    ensures var ra, rb := Outcome(a, path, parse, evaluate, fmt), Outcome(b, path, parse, evaluate, fmt);
      var r := Outcome(a + "\n" + b, path, parse, evaluate, fmt);
      && r.success
      && r.messageCount == ra.messageCount + rb.messageCount
      && r.extractedValues == Some(ra.extractedValues.value + rb.extractedValues.value)
      && r.result == Some(ra.result.value + rb.result.value)
  {
    var ma, mb := ParsedMessages(a, parse), ParsedMessages(b, parse);
    var va := ExtractedValues(evaluate, Datas(ma), path);
    var vb := ExtractedValues(evaluate, Datas(mb), path);
    assert ma != [] && va != [];
    assert mb != [] && vb != [];
    ParsedMessagesAppend(a, b, parse);
    DatasAppend(ma, mb);
    FilterMapAppend(Datas(ma), Datas(mb), PresentAt(evaluate, path));
    assert ExtractedValues(evaluate, Datas(ma + mb), path) == va + vb;
    MergeAppendNoSeparator(va, vb, fmt);
  }

  /** A leading line that yields no message does not change the outcome. */
  lemma IgnoredLineLeavesOutcome(line: string, text: string, path: string, parse: JsonParser, evaluate: Evaluator, fmt: Formatter)
    requires '\n' !in line
    requires MessageOf(line, parse) == None
    ensures Outcome(line + "\n" + text, path, parse, evaluate, fmt) == Outcome(text, path, parse, evaluate, fmt)
  {
    IgnoredLineLeavesMessages(line, text, parse);
  }

  function OutcomeFor(text: string, parse: JsonParser, evaluate: Evaluator, fmt: Formatter): string -> MergeResult
  {
    path => Outcome(text, path, parse, evaluate, fmt)
  }

  /** The result record of processSSEMultiplePaths: one entry per distinct path. */
  function OutcomesByPath(text: string, paths: seq<string>, parse: JsonParser, evaluate: Evaluator, fmt: Formatter)
    : map<string, MergeResult>
  {
    Tabulate(paths, OutcomeFor(text, parse, evaluate, fmt))
  }

  /**
   * processSSEMultiplePaths: runs processSSE for every path in turn and stores
   * the result under the path; a repeated path overwrites its entry with the
   * same result.
   */
  method ProcessSSEMultiplePaths(text: string, jsonPaths: seq<string>, parse: JsonParser, evaluate: Evaluator, fmt: Formatter)
    returns (results: map<string, MergeResult>)
    ensures results == OutcomesByPath(text, jsonPaths, parse, evaluate, fmt)
  {
    results := map[];
    for i := 0 to |jsonPaths|
      invariant results == OutcomesByPath(text, jsonPaths[..i], parse, evaluate, fmt)
    {
      var path := jsonPaths[i];
      var r := ProcessSSE(text, path, parse, evaluate, fmt);
      OutcomesByPathSnoc(text, jsonPaths[..i], path, parse, evaluate, fmt);
      assert jsonPaths[..i + 1] == jsonPaths[..i] + [path];
      results := results[path := r];
    }
    assert jsonPaths[..|jsonPaths|] == jsonPaths;
  }

  /** One more path stores that path's outcome, overwriting an earlier entry for it. */
  lemma OutcomesByPathSnoc(text: string, paths: seq<string>, path: string, parse: JsonParser, evaluate: Evaluator, fmt: Formatter)
    ensures OutcomesByPath(text, paths + [path], parse, evaluate, fmt)
         == OutcomesByPath(text, paths, parse, evaluate, fmt)[path := Outcome(text, path, parse, evaluate, fmt)]
  {
    var g := OutcomeFor(text, parse, evaluate, fmt);
    TabulateSnoc(paths, path, g);
    assert g(path) == Outcome(text, path, parse, evaluate, fmt);
  }

  /** The entries are keyed by exactly the given paths, each holding that path's own outcome. */
  lemma OutcomesByPathEntries(text: string, paths: seq<string>, parse: JsonParser, evaluate: Evaluator, fmt: Formatter)
    ensures var results := OutcomesByPath(text, paths, parse, evaluate, fmt);
      && results.Keys == set p | p in paths
      && (forall i :: 0 <= i < |paths| ==> paths[i] in results && results[paths[i]] == Outcome(text, paths[i], parse, evaluate, fmt))
      && |results| <= |paths|
  {
    var g := OutcomeFor(text, parse, evaluate, fmt);
    TabulateEntries(paths, g);
    DistinctCount(paths);
    forall i | 0 <= i < |paths|
      ensures Tabulate(paths, g)[paths[i]] == Outcome(text, paths[i], parse, evaluate, fmt)
    {
      assert paths[i] in paths;
    }
  }
}
