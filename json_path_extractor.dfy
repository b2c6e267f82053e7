/**
 * The path extractor and the value merger (src/jsonPathExtractor.ts).
 * The path evaluator (jsonpath-plus with `wrap: false`), JSON.stringify and the
 * number-to-text conversion of String(v) are foreign; they are parameters here.
 */
module JsonPathExtractor {
  import opened Wrappers
  import opened Sequences
  import opened JsonValues

  /** A JavaScript value as the extractor handles it: `undefined`, or a JSON value (`null` included). */
  datatype JsValue = Undefined | Defined(value: Json)

  /** One call of the path evaluator: it throws, or it returns a value. */
  datatype Evaluation = Threw | Returned(result: JsValue)

  /** JSONPath({ path, json, wrap: false }) of jsonpath-plus. */
  type Evaluator = (Json, string) -> Evaluation

  /** JSON.stringify (the branch taken for objects, arrays and null) and String(n) for a number. */
  datatype Formatter = Formatter(stringify: Json -> string, numberToString: real -> string)

  /**
   * extractByPath: the evaluator's result, with an exception caught and turned
   * into `undefined`; nothing is thrown past this function.
   */
  function ExtractByPath(evaluate: Evaluator, obj: Json, path: string): (v: JsValue)
    ensures evaluate(obj, path).Threw? ==> v == Undefined
    ensures evaluate(obj, path).Returned? ==> v == evaluate(obj, path).result
  {
    match evaluate(obj, path)
    case Threw => Undefined
    case Returned(result) => result
  }

  /** The test `value !== undefined && value !== null`, giving the value when it passes. */
  function Present(v: JsValue): Option<Json>
  {
    if v != Undefined && v != Defined(JNull) then Some(v.value) else None
  }

  function PresentAt(evaluate: Evaluator, path: string): Json -> Option<Json>
  {
    obj => Present(ExtractByPath(evaluate, obj, path))
  }

  /** What extractFromMultiple returns: the present extraction results, in object order. */
  function ExtractedValues(evaluate: Evaluator, objects: seq<Json>, path: string): seq<Json>
  {
    FilterMap(objects, PresentAt(evaluate, path))
  }

  /** The extraction results of one more object. */
  lemma ExtractedValuesSnoc(evaluate: Evaluator, objects: seq<Json>, i: int, path: string)
    requires 0 <= i < |objects|
    ensures ExtractedValues(evaluate, objects[..i + 1], path)
         == ExtractedValues(evaluate, objects[..i], path)
            + Emitted(Present(ExtractByPath(evaluate, objects[i], path)))
  {
    assert objects[..i + 1] == objects[..i] + [objects[i]];
    FilterMapSnoc(objects[..i], objects[i], PresentAt(evaluate, path));
  }

  /**
   * extractFromMultiple: extracts from every object in turn and pushes each
   * result that is neither `undefined` nor `null`.
   */
  method ExtractFromMultiple(evaluate: Evaluator, objects: seq<Json>, path: string) returns (results: seq<Json>)
    ensures results == ExtractedValues(evaluate, objects, path)
  {
    results := [];
    for i := 0 to |objects|
      invariant results == ExtractedValues(evaluate, objects[..i], path)
    {
      ExtractedValuesSnoc(evaluate, objects, i, path);
      var value := ExtractByPath(evaluate, objects[i], path);
      if value != Undefined && value != Defined(JNull) {
        results := results + [value.value];
      }
    }
    assert objects[..|objects|] == objects;
  }

  /**
   * The results follow the objects: result k is the extraction from object
   * idx[k], the positions strictly increase, an object is used exactly when its
   * extraction is present, and no result is `null`.
   */
  lemma ExtractedValuesFollowObjects(evaluate: Evaluator, objects: seq<Json>, path: string) returns (idx: seq<int>)
    ensures var values := ExtractedValues(evaluate, objects, path);
      && |idx| == |values| <= |objects|
      && (forall k :: 0 <= k < |idx| ==>
            && 0 <= idx[k] < |objects|
            && ExtractByPath(evaluate, objects[idx[k]], path) == Defined(values[k])
            && values[k] != JNull)
      && (forall k, l :: 0 <= k < l < |idx| ==> idx[k] < idx[l])
      && (forall i :: 0 <= i < |objects| ==>
            (i in idx <==> ExtractByPath(evaluate, objects[i], path) !in {Undefined, Defined(JNull)}))
  {
    var values := ExtractedValues(evaluate, objects, path);
    idx := FilterMapPicks(objects, PresentAt(evaluate, path));
    forall i | 0 <= i < |objects| && i in idx
      ensures Present(ExtractByPath(evaluate, objects[i], path)).Some?
    {
      var k :| 0 <= k < |idx| && idx[k] == i;
    }
  }

  /** An object whose evaluation throws, or finds nothing or null, contributes nothing. */
  lemma AbsentContributesNothing(evaluate: Evaluator, objects: seq<Json>, i: int, path: string)
    requires 0 <= i < |objects|
    requires || evaluate(objects[i], path) == Threw
             || evaluate(objects[i], path) == Returned(Undefined)
             || evaluate(objects[i], path) == Returned(Defined(JNull))
    ensures ExtractedValues(evaluate, objects, path)
         == ExtractedValues(evaluate, objects[..i], path) + ExtractedValues(evaluate, objects[i + 1..], path)
  {
    RejectedContributesNothing(objects, i, PresentAt(evaluate, path));
  }

  /** JavaScript's `typeof` on a JSON value; `typeof null` is "object". */
  function TypeOf(v: Json): string
  {
    match v
    case JString(_) => "string"
    case JNumber(_) => "number"
    case JBool(_) => "boolean"
    case _ => "object"
  }

  /**
   * The per-value text of mergeExtractedValues: a string as it is, an object,
   * an array or null (typeof null is 'object') as JSON text, a number through
   * String, a boolean as "true" or "false".
   */
  function Stringified(v: Json, fmt: Formatter): (r: string)
    ensures TypeOf(v) == "string" ==> r == v.s
    ensures TypeOf(v) == "object" ==> r == fmt.stringify(v)
    ensures TypeOf(v) == "number" ==> r == fmt.numberToString(v.n)
    ensures TypeOf(v) == "boolean" ==> (r == "true" <==> v.b) && (r == "false" <==> !v.b)
  {
    match v
    case JString(s) => s
    case JObject(_) => fmt.stringify(v)
    case JArray(_) => fmt.stringify(v)
    case JNull => fmt.stringify(v)
    case JNumber(n) => fmt.numberToString(n)
    case JBool(b) => if b then "true" else "false"
  }

  function Stringifier(fmt: Formatter): Json -> string
  {
    v => Stringified(v, fmt)
  }

  /**
   * mergeExtractedValues: the per-value texts joined with `separator`; nothing
   * for no values, and for one value its text with no separator.
   */
  function MergeExtractedValues(values: seq<Json>, separator: string, fmt: Formatter): (r: string)
    ensures values == [] ==> r == ""
    ensures |values| == 1 ==> r == Stringified(values[0], fmt)
  {
    Join(Map(values, Stringifier(fmt)), separator)
  }

  /** A string value is copied verbatim; an object or array becomes its JSON text. */
  lemma MergeSingleValue(v: Json, separator: string, fmt: Formatter)
    ensures v.JString? ==> MergeExtractedValues([v], separator, fmt) == v.s
    ensures v.JObject? || v.JArray? ==> MergeExtractedValues([v], separator, fmt) == fmt.stringify(v)
  {
  }

  /** With the default empty separator, merging `xs ++ ys` concatenates the two merges. */
  lemma MergeAppendNoSeparator(xs: seq<Json>, ys: seq<Json>, fmt: Formatter)
    ensures MergeExtractedValues(xs + ys, "", fmt)
         == MergeExtractedValues(xs, "", fmt) + MergeExtractedValues(ys, "", fmt)
  {
    MapAppend(xs, ys, Stringifier(fmt));
    JoinAppendNoSeparator(Map(xs, Stringifier(fmt)), Map(ys, Stringifier(fmt)));
  }

  /** With any separator and both sides non-empty, exactly one separator goes between the merges. */
  lemma MergeAppend(xs: seq<Json>, ys: seq<Json>, separator: string, fmt: Formatter)
    requires xs != [] && ys != []
    ensures MergeExtractedValues(xs + ys, separator, fmt)
         == MergeExtractedValues(xs, separator, fmt) + separator + MergeExtractedValues(ys, separator, fmt)
  {
    MapAppend(xs, ys, Stringifier(fmt));
    JoinAppend(Map(xs, Stringifier(fmt)), Map(ys, Stringifier(fmt)), separator);
  }

  /** Two values merge to their two texts with the separator between them, and nothing else. */
  lemma MergeTwo(a: Json, b: Json, separator: string, fmt: Formatter)
    ensures MergeExtractedValues([a, b], separator, fmt)
         == Stringified(a, fmt) + separator + Stringified(b, fmt)
  {
    MergeAppend([a], [b], separator, fmt);
    assert [a] + [b] == [a, b];
  }

  function StringValue(s: string): Json
  {
    JString(s)
  }

  /** Merging string values with the empty separator is plain concatenation of the strings. */
  lemma {:induction false} MergeStrings(ss: seq<string>, fmt: Formatter)
    ensures MergeExtractedValues(Map(ss, StringValue), "", fmt) == Join(ss, "")
  {
    if |ss| > 1 {
      var rest := ss[1..];
      MergeStrings(rest, fmt);
      assert Map(ss, StringValue) == [JString(ss[0])] + Map(rest, StringValue);
      MergeAppendNoSeparator([JString(ss[0])], Map(rest, StringValue), fmt);
    }
  }
}
