/**
 * The SSE message parser (src/sseParser.ts): recognises the `data:` lines of a
 * buffered Server-Sent Events transcript and parses their payloads as JSON.
 * Only the `data:` field is recognised; `event:`, `id:` and `retry:` lines are
 * ignored like any other line.
 */
module SseParser {
  import opened Wrappers
  import opened Sequences
  import opened Text
  import opened JsonValues

  const DataPrefix: string := "data:"

  /** One recognised event: the parsed payload and the trimmed line it came from. */
  datatype ParsedMessage = ParsedMessage(data: Json, raw: string)

  /** JSON.parse, with a thrown SyntaxError as None. */
  type JsonParser = string -> Option<Json>

  /** The text after the `data:` prefix of a trimmed line, itself trimmed. */
  function Payload(trimmedLine: string): string
    requires StartsWith(trimmedLine, DataPrefix)
  {
    Trim(trimmedLine[|DataPrefix|..])
  }

  /** The payload a line carries: only a `data:` line whose payload is not empty has one. */
  function PayloadOf(line: string): Option<string>
  {
    var trimmedLine := Trim(line);
    if StartsWith(trimmedLine, DataPrefix) && Payload(trimmedLine) != [] then
      Some(Payload(trimmedLine))
    else
      None
  }

  /** The message a line yields: its payload, if it has one and that payload parses. */
  function MessageOf(line: string, parse: JsonParser): Option<ParsedMessage>
  {
    match PayloadOf(line)
    case None => None
    case Some(jsonStr) =>
      match parse(jsonStr)
      case None => None
      case Some(data) => Some(ParsedMessage(data, Trim(line)))
  }

  function LineParser(parse: JsonParser): string -> Option<ParsedMessage>
  {
    line => MessageOf(line, parse)
  }

  /** The messages a sequence of lines yields, in line order. */
  function ParsedLines(lines: seq<string>, parse: JsonParser): seq<ParsedMessage>
  {
    FilterMap(lines, LineParser(parse))
  }

  /** What parseSSEMessages returns for `text`. */
  function ParsedMessages(text: string, parse: JsonParser): seq<ParsedMessage>
  {
    ParsedLines(SplitLines(text), parse)
  }

  /** What extractSSEJsonStrings returns for `text`. */
  function JsonStrings(text: string): seq<string>
  {
    FilterMap(SplitLines(text), PayloadOf)
  }

  function DataOf(m: ParsedMessage): Json
  {
    m.data
  }

  /** The parsed payloads of a sequence of messages, in order. */
  function Datas(messages: seq<ParsedMessage>): seq<Json>
  {
    Map(messages, DataOf)
  }

  /** What every parsed message looks like. */
  predicate WellFormed(m: ParsedMessage, parse: JsonParser)
  {
    && IsTrimmed(m.raw)
    && StartsWith(m.raw, DataPrefix)
    && Payload(m.raw) != []
    && parse(Payload(m.raw)) == Some(m.data)
  }

  /**
   * parseSSEMessages: splits on '\n', trims each line, skips blank lines and
   * lines that do not start with `data:`, skips an empty payload, and keeps a
   * message for every payload that parses; a payload that does not parse is
   * skipped and the loop goes on.
   */
  method ParseSSEMessages(text: string, parse: JsonParser) returns (messages: seq<ParsedMessage>)
    ensures messages == ParsedMessages(text, parse)
  {
    messages := [];
    var lines := SplitLines(text);
    for i := 0 to |lines|
      invariant messages == ParsedLines(lines[..i], parse)
    {
      var line := lines[i];
      ParsedLinesSnoc(lines, i, parse);
      var trimmedLine := Trim(line);
      LineSteps(line, parse);
      if trimmedLine == [] {
        continue;
      }
      if StartsWith(trimmedLine, DataPrefix) {
        var jsonStr := Trim(trimmedLine[|DataPrefix|..]);
        if jsonStr == [] {
          continue;
        }
        match parse(jsonStr) {
          case Some(data) =>
            messages := messages + [ParsedMessage(data, trimmedLine)];
          case None =>
        }
      }
    }
    assert lines[..|lines|] == lines;
  }

  /** The branches of the loop body, each with the message the line yields. */
  lemma LineSteps(line: string, parse: JsonParser)
    ensures Trim(line) == [] ==> MessageOf(line, parse) == None
    ensures !StartsWith(Trim(line), DataPrefix) ==> MessageOf(line, parse) == None
    ensures StartsWith(Trim(line), DataPrefix) ==>
      var jsonStr := Trim(Trim(line)[|DataPrefix|..]);
      MessageOf(line, parse) == if jsonStr == [] then None else
        match parse(jsonStr)
        case Some(data) => Some(ParsedMessage(data, Trim(line)))
        case None => None
  {
  }

  /** The messages of one more line. */
  lemma ParsedLinesSnoc(lines: seq<string>, i: int, parse: JsonParser)
    requires 0 <= i < |lines|
    ensures ParsedLines(lines[..i + 1], parse)
         == ParsedLines(lines[..i], parse)
            + Emitted(MessageOf(lines[i], parse))
  {
    assert lines[..i + 1] == lines[..i] + [lines[i]];
    FilterMapSnoc(lines[..i], lines[i], LineParser(parse));
  }

  /** The JSON strings of one more line. */
  lemma JsonStringsSnoc(lines: seq<string>, i: int)
    requires 0 <= i < |lines|
    ensures FilterMap(lines[..i + 1], PayloadOf)
         == FilterMap(lines[..i], PayloadOf)
            + Emitted(PayloadOf(lines[i]))
  {
    assert lines[..i + 1] == lines[..i] + [lines[i]];
    FilterMapSnoc(lines[..i], lines[i], PayloadOf);
  }

  /**
   * extractSSEJsonStrings: the same scan without the JSON parse, returning the
   * non-empty trimmed payloads of the `data:` lines.
   */
  method ExtractSSEJsonStrings(text: string) returns (jsonStrings: seq<string>)
    ensures jsonStrings == JsonStrings(text)
  {
    jsonStrings := [];
    var lines := SplitLines(text);
    for i := 0 to |lines|
      invariant jsonStrings == FilterMap(lines[..i], PayloadOf)
    {
      var line := lines[i];
      JsonStringsSnoc(lines, i);
      var trimmedLine := Trim(line);
      if StartsWith(trimmedLine, DataPrefix) {
        var jsonStr := Trim(trimmedLine[|DataPrefix|..]);
        if jsonStr != [] {
          jsonStrings := jsonStrings + [jsonStr];
        }
      }
    }
    assert lines[..|lines|] == lines;
  }

  /**
   * Which lines yield a message: exactly the `data:` lines whose payload is
   * non-empty and parses; the message keeps the trimmed line and the parse.
   */
  lemma MessageOfLine(line: string, parse: JsonParser)
    ensures MessageOf(line, parse).Some?
        <==> (&& StartsWith(Trim(line), DataPrefix)
              && Payload(Trim(line)) != []
              && parse(Payload(Trim(line))).Some?)
    ensures MessageOf(line, parse).Some? ==>
              && MessageOf(line, parse).value.raw == Trim(line)
              && WellFormed(MessageOf(line, parse).value, parse)
  {
  }

  /** Every message is a trimmed `data:` line with a non-empty payload that parses to its data. */
  lemma MessagesWellFormed(text: string, parse: JsonParser)
    ensures forall m :: m in ParsedMessages(text, parse) ==> WellFormed(m, parse)
  {
    var lines := SplitLines(text);
    var messages := ParsedMessages(text, parse);
    var idx := FilterMapPicks(lines, LineParser(parse));
    forall m | m in messages
      ensures WellFormed(m, parse)
    {
      var k :| 0 <= k < |messages| && messages[k] == m;
      MessageOfLine(lines[idx[k]], parse);
    }
  }

  /**
   * The messages come from the lines in line order: message k was made from
   * line idx[k] (its raw text is that line trimmed), the positions strictly
   * increase, and a line is used exactly when it is a `data:` line whose
   * non-empty payload parses.
   */
  lemma MessagesFollowLines(text: string, parse: JsonParser) returns (idx: seq<int>)
    ensures var lines, messages := SplitLines(text), ParsedMessages(text, parse);
      && |idx| == |messages|
      && (forall k :: 0 <= k < |idx| ==>
            0 <= idx[k] < |lines| && messages[k].raw == Trim(lines[idx[k]]))
      && (forall k, l :: 0 <= k < l < |idx| ==> idx[k] < idx[l])
      && (forall i :: 0 <= i < |lines| ==>
            (i in idx <==> (&& StartsWith(Trim(lines[i]), DataPrefix)
                            && Payload(Trim(lines[i])) != []
                            && parse(Payload(Trim(lines[i]))).Some?)))
  {
    var lines, messages := SplitLines(text), ParsedMessages(text, parse);
    idx := FilterMapPicks(lines, LineParser(parse));
    forall k | 0 <= k < |idx|
      ensures messages[k].raw == Trim(lines[idx[k]])
    {
      MessageOfLine(lines[idx[k]], parse);
    }
    forall i | 0 <= i < |lines|
      ensures i in idx <==> (&& StartsWith(Trim(lines[i]), DataPrefix)
                             && Payload(Trim(lines[i])) != []
                             && parse(Payload(Trim(lines[i]))).Some?)
    {
      MessageOfLine(lines[i], parse);
      if i in idx {
        var k :| 0 <= k < |idx| && idx[k] == i;
      }
    }
  }

  /**
   * extractSSEJsonStrings returns exactly the non-empty payloads of the
   * `data:` lines, in line order: string k is the payload of line idx[k].
   */
  lemma JsonStringsFollowLines(text: string) returns (idx: seq<int>)
    ensures var lines, strs := SplitLines(text), JsonStrings(text);
      && |idx| == |strs|
      && (forall k :: 0 <= k < |idx| ==>
            && 0 <= idx[k] < |lines|
            && StartsWith(Trim(lines[idx[k]]), DataPrefix)
            && strs[k] == Payload(Trim(lines[idx[k]])) != [])
      && (forall k, l :: 0 <= k < l < |idx| ==> idx[k] < idx[l])
      && (forall i :: 0 <= i < |lines| ==>
            (i in idx <==> StartsWith(Trim(lines[i]), DataPrefix) && Payload(Trim(lines[i])) != []))
  {
    var lines := SplitLines(text);
    idx := FilterMapPicks(lines, PayloadOf);
    forall i | 0 <= i < |lines| && i in idx
      ensures PayloadOf(lines[i]).Some?
    {
      var k :| 0 <= k < |idx| && idx[k] == i;
    }
  }

  /** There are never more messages than lines, and there is one line more than there are '\n's. */
  lemma MessageCountBound(text: string, parse: JsonParser)
    ensures |ParsedMessages(text, parse)| <= multiset(text)['\n'] + 1
  {
    SplitLinesCount(text);
  }

  /**
   * A line that yields no message (blank, not a `data:` line, an empty
   * payload, or a payload that does not parse) contributes nothing and does not
   * stop the lines after it from being parsed.
   */
  lemma SkippedLineContributesNothing(lines: seq<string>, i: int, parse: JsonParser)
    requires 0 <= i < |lines|
    requires || Trim(lines[i]) == []
             || !StartsWith(Trim(lines[i]), DataPrefix)
             || Payload(Trim(lines[i])) == []
             || parse(Payload(Trim(lines[i]))).None?
    ensures ParsedLines(lines, parse) == ParsedLines(lines[..i], parse) + ParsedLines(lines[i + 1..], parse)
  {
    RejectedContributesNothing(lines, i, LineParser(parse));
  }

  /** The data of the messages are exactly the extracted JSON strings that parse, in order. */
  lemma {:induction false} DataAreParsedJsonStrings(lines: seq<string>, parse: JsonParser)
    ensures Datas(ParsedLines(lines, parse)) == FilterMap(FilterMap(lines, PayloadOf), parse)
  {
    if lines != [] {
      var n := |lines| - 1;
      var init, line := lines[..n], lines[n];
      assert lines == init + [line];
      var payloads := FilterMap(init, PayloadOf);
      calc {
        Datas(ParsedLines(lines, parse));
        { FilterMapSnoc(init, line, LineParser(parse)); }
        Datas(ParsedLines(init, parse) + Emitted(MessageOf(line, parse)));
        { DatasAppend(ParsedLines(init, parse), Emitted(MessageOf(line, parse))); }
        Datas(ParsedLines(init, parse)) + Datas(Emitted(MessageOf(line, parse)));
        { DataAreParsedJsonStrings(init, parse); DataOfLine(line, parse); }
        FilterMap(payloads, parse) + FilterMap(Emitted(PayloadOf(line)), parse);
        { FilterMapAppend(payloads, Emitted(PayloadOf(line)), parse); }
        FilterMap(payloads + Emitted(PayloadOf(line)), parse);
        { FilterMapSnoc(init, line, PayloadOf); }
        FilterMap(FilterMap(lines, PayloadOf), parse);
      }
    }
  }

  lemma DatasAppend(a: seq<ParsedMessage>, b: seq<ParsedMessage>)
    ensures Datas(a + b) == Datas(a) + Datas(b)
  {
  }

  lemma DataOfLine(line: string, parse: JsonParser)
    ensures Datas(Emitted(MessageOf(line, parse))) == FilterMap(Emitted(PayloadOf(line)), parse)
  {
    match PayloadOf(line)
    case None =>
    case Some(p) =>
      FilterMapSnoc([], p, parse);
      assert [] + [p] == [p];
  }

  /** parseSSEMessages keeps exactly the strings of extractSSEJsonStrings that parse. */
  lemma ParsedMessagesAgreeWithJsonStrings(text: string, parse: JsonParser)
    ensures Datas(ParsedMessages(text, parse)) == FilterMap(JsonStrings(text), parse)
  {
    DataAreParsedJsonStrings(SplitLines(text), parse);
  }

  /** A '\r' left at the end of a CRLF line is removed by the trim and changes nothing. */
  lemma CarriageReturnIgnored(line: string, parse: JsonParser)
    ensures PayloadOf(line + "\r") == PayloadOf(line)
    ensures MessageOf(line + "\r", parse) == MessageOf(line, parse)
  {
    TrimIgnoresTrailingWhitespace(line, '\r');
  }

  /** The messages of two texts joined by a line feed are the messages of each, one after the other. */
  lemma ParsedMessagesAppend(a: string, b: string, parse: JsonParser)
    ensures ParsedMessages(a + "\n" + b, parse) == ParsedMessages(a, parse) + ParsedMessages(b, parse)
  {
    SplitLinesAppend(a, b);
    FilterMapAppend(SplitLines(a), SplitLines(b), LineParser(parse));
  }

  /**
   * A leading line that yields no message (a comment, an `event:` line, a
   * `data: [DONE]` terminator that does not parse) leaves the messages unchanged.
   */
  lemma IgnoredLineLeavesMessages(line: string, text: string, parse: JsonParser)
    requires '\n' !in line
    requires MessageOf(line, parse) == None
    ensures ParsedMessages(line + "\n" + text, parse) == ParsedMessages(text, parse)
  {
    ParsedMessagesAppend(line, text, parse);
    SplitLinesSingle(line);
    FilterMapSnoc([], line, LineParser(parse));
    assert [] + [line] == [line];
  }
}
