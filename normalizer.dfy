/** The response normalizer of the `/api/analyze` handler: the greedy
    brace span of the model's text, `JSON.parse` of that span (an oracle),
    and the fixed fallback record each entry point substitutes when there
    is no span or the parse throws. */
module Normalizer {
  import opened Text
  import opened Json
  import opened Diagnosis

  /** `i` is the first '{' of `text`. */
  ghost predicate FirstOpen(text: string, i: int)
  {
    0 <= i < |text| && text[i] == '{' && forall k :: 0 <= k < i ==> text[k] != '{'
  }

  /** `j` is the last '}' of `text`. */
  ghost predicate LastClose(text: string, j: int)
  {
    0 <= j < |text| && text[j] == '}' && forall k :: j < k < |text| ==> text[k] != '}'
  }

  /** `text.match(/\{[\s\S]*\}/)`: the leftmost start is the first '{' and
      the greedy body runs to the last '}'; there is a match exactly when
      some '{' comes before some '}'. */
  function JsonMatch(text: string): (r: Option<string>)
    ensures r.Some? <==> exists i, j :: 0 <= i < j < |text| && text[i] == '{' && text[j] == '}'
    ensures r.Some? ==> exists i, j :: i < j && FirstOpen(text, i) && LastClose(text, j) && r.value == text[i..j + 1]
  {
    match (FirstIndex(text, '{'), LastIndex(text, '}'))
    case (Some(i), Some(j)) =>
      if i < j then
        assert FirstOpen(text, i) && LastClose(text, j);
        Some(text[i..j + 1])
      else None
    case _ => None
  }

  /** The `analysisResult` of the handler: what `JSON.parse` makes of the
      match, or the fallback when there is no match or the parse throws.
      A parsed value is passed on exactly as parsed. */
  function Normalize(text: string, parse: string -> Option<Json>, fallback: DiagnosisRecord): (r: Json)
    ensures JsonMatch(text).None? ==> r == RecordJson(fallback)
    ensures JsonMatch(text).Some? && parse(JsonMatch(text).value).None? ==> r == RecordJson(fallback)
    ensures JsonMatch(text).Some? && parse(JsonMatch(text).value).Some? ==> r == parse(JsonMatch(text).value).value
  {
    match JsonMatch(text)
    case None => RecordJson(fallback)
    case Some(span) =>
      match parse(span)
      case None => RecordJson(fallback)
      case Some(v) => v
  }

  /** A text in which no '{' comes before any '}' (plain prose, for one)
      gets the fallback, whatever the parser would say. */
  lemma NoSpanGivesFallback(text: string, parse: string -> Option<Json>, fallback: DiagnosisRecord)
    requires forall i, j :: 0 <= i < j < |text| && text[i] == '{' ==> text[j] != '}'
    ensures Normalize(text, parse, fallback) == RecordJson(fallback)
  {
  }

  /** An object written out in surrounding prose, where the prose before it
      has no '{' and the prose after it has no '}', is exactly the span
      that is parsed. */
  lemma {:induction false} EmbeddedObjectIsTheMatch(pre: string, obj: string, post: string)
    requires '{' !in pre && '}' !in post
    requires |obj| >= 2 && obj[0] == '{' && obj[|obj| - 1] == '}'
    ensures JsonMatch(pre + obj + post) == Some(obj)
  {
    var text := pre + obj + post;
    var i, j := |pre|, |pre| + |obj| - 1;
    assert text[i] == '{' && text[j] == '}';
    assert forall k :: 0 <= k < i ==> text[k] == pre[k];
    assert forall k :: j < k < |text| ==> text[k] == post[k - j - 1];
    assert FirstIndex(text, '{') == Some(i);
    assert LastIndex(text, '}') == Some(j);
    assert text[i..j + 1] == obj;
  }

  /** Fidelity: such an embedded object, once parsed, is the result
      verbatim; if it does not parse, the fallback is. */
  lemma EmbeddedObjectNormalized(pre: string, obj: string, post: string, parse: string -> Option<Json>, fallback: DiagnosisRecord)
    requires '{' !in pre && '}' !in post
    requires |obj| >= 2 && obj[0] == '{' && obj[|obj| - 1] == '}'
    ensures Normalize(pre + obj + post, parse, fallback)
      == (if parse(obj).Some? then parse(obj).value else RecordJson(fallback))
  {
    EmbeddedObjectIsTheMatch(pre, obj, post);
  }

  /** `JSON.parse` of a text that starts with '{' can only give an object. */
  ghost predicate ParsesBracesAsObjects(parse: string -> Option<Json>)
  {
    forall s :: |s| > 0 && s[0] == '{' && parse(s).Some? ==> parse(s).value.JObject?
  }

  /** With such a parser the response body is always an object: the parsed
      one or the fallback. */
  lemma NormalizedIsObject(text: string, parse: string -> Option<Json>, fallback: DiagnosisRecord)
    requires ParsesBracesAsObjects(parse)
    ensures Normalize(text, parse, fallback).JObject?
  {
    match JsonMatch(text)
    case None =>
    case Some(span) =>
      var i, j :| i < j && FirstOpen(text, i) && LastClose(text, j) && span == text[i..j + 1];
      assert span[0] == '{';
  }

  /** The server does not coerce the parsed object: whatever `tags` it
      has (a string, a number, an array) reaches the client as parsed. */
  lemma ParsedShapeNotCoerced(obj: string, parse: string -> Option<Json>, fallback: DiagnosisRecord, tags: Json)
    requires |obj| >= 2 && obj[0] == '{' && obj[|obj| - 1] == '}'
    requires Get(parse(obj), "tags") == Some(tags)
    ensures Get(Some(Normalize(obj, parse, fallback)), "tags") == Some(tags)
  {
    EmbeddedObjectIsTheMatch("", obj, "");
    assert "" + obj + "" == obj;
  }
}
