/** The decisions of the analysis panel (src/component/AnalysisComponent.jsx):
    how it coerces the `tags` and `details` of whatever it is given, which
    colour tier the severity selects, which sections it shows, how the
    detail rows are striped, and when the analyze button and the progress
    bar are live. Styles and markup are not modelled; a screen is the list
    of these decisions. */
module AnalysisView {
  import opened Text
  import opened Json
  import opened Diagnosis

  /** The panel's props. `hasSelectedFile` is the truthiness of
      `selectedFile`. */
  datatype Props = Props(
    analysis: Option<Json>,
    isAnalyzing: bool,
    analysisProgress: real,
    imagePreview: Option<string>,
    hasSelectedFile: bool)

  /** The three colour schemes of the category box: green, amber, red. */
  datatype Tier = Healthy | Caution | Alert

  /** Row backgrounds: '#fafafa' and 'white'. */
  datatype Shade = Tinted | Plain

  datatype DetailRow = DetailRow(key: string, value: Json, shade: Shade)

  /** What the results branch shows. */
  datatype Results = Results(
    preview: Option<string>,
    tier: Tier,
    showsSeverity: bool,
    tags: seq<Json>,
    rows: seq<DetailRow>)

  /** The whole panel: the results (or the placeholder when `None`), the
      button's `disabled`, and the progress bar's width when it is shown;
      or `Crashed` when rendering throws (React refuses an object as a
      child, and with no error boundary nothing is shown). */
  datatype Screen =
    | Screen(results: Option<Results>, analyzeDisabled: bool, progressBar: Option<real>)
    | Crashed

  /** `Array.isArray(analysis?.tags) ? analysis.tags : []`. */
  function SafeTags(analysis: Option<Json>): (tags: seq<Json>)
    ensures Get(analysis, "tags").Some? && Get(analysis, "tags").value.JArray? ==> tags == Get(analysis, "tags").value.items
    ensures !(Get(analysis, "tags").Some? && Get(analysis, "tags").value.JArray?) ==> tags == []
  {
    match Get(analysis, "tags")
    case Some(JArray(items)) => items
    case _ => []
  }

  /** The entries of an array: its indices in decimal, with the items. */
  function IndexEntries(items: seq<Json>, start: nat): (entries: seq<(string, Json)>)
    ensures |entries| == |items|
    ensures forall i :: 0 <= i < |items| ==> entries[i] == (NatToDecimal(start + i), items[i])
    decreases |items|
  {
    if items == [] then []
    else [(NatToDecimal(start), items[0])] + IndexEntries(items[1..], start + 1)
  }

  /** `Object.entries(safeDetails)`, where `safeDetails` is `analysis.details`
      when that is truthy and of type 'object' (an object or an array) and
      `{}` otherwise. */
  function SafeDetails(analysis: Option<Json>): (entries: seq<(string, Json)>)
    ensures Get(analysis, "details").Some? && Get(analysis, "details").value.JObject? ==>
      entries == Get(analysis, "details").value.members
    ensures Get(analysis, "details").Some? && Get(analysis, "details").value.JArray? ==>
      |entries| == |Get(analysis, "details").value.items|
      && forall i :: 0 <= i < |entries| ==> entries[i] == (NatToDecimal(i), Get(analysis, "details").value.items[i])
    ensures !(Get(analysis, "details").Some? && (Get(analysis, "details").value.JObject? || Get(analysis, "details").value.JArray?)) ==>
      entries == []
  {
    match Get(analysis, "details")
    case Some(JObject(members)) => members
    case Some(JArray(items)) => IndexEntries(items, 0)
    case _ => []
  }

  /** The nested ternaries on `analysis.severity`: exactly 'None' is green,
      exactly 'Mild' amber, any other value (another string, a number,
      nothing) red. */
  function SeverityTier(severity: Option<Json>): (t: Tier)
    ensures t == Healthy <==> severity == Some(JString("None"))
    ensures t == Caution <==> severity == Some(JString("Mild"))
  {
    if severity == Some(JString("None")) then Healthy
    else if severity == Some(JString("Mild")) then Caution
    else Alert
  }

  /** Rows in entry order from index `start` on; even indices tinted. */
  function RowsFrom(entries: seq<(string, Json)>, start: nat): (rows: seq<DetailRow>)
    ensures |rows| == |entries|
    ensures forall i :: 0 <= i < |entries| ==>
      rows[i] == DetailRow(entries[i].0, entries[i].1, if (start + i) % 2 == 0 then Tinted else Plain)
    decreases |entries|
  {
    if entries == [] then []
    else
      [DetailRow(entries[0].0, entries[0].1, if start % 2 == 0 then Tinted else Plain)]
      + RowsFrom(entries[1..], start + 1)
  }

  /** `Object.entries(safeDetails).map(([key, value], index) => ...)`. */
  function DetailRows(entries: seq<(string, Json)>): (rows: seq<DetailRow>)
    ensures |rows| == |entries|
    ensures forall i :: 0 <= i < |entries| ==> rows[i].key == entries[i].0 && rows[i].value == entries[i].1
    ensures forall i :: 0 <= i < |rows| ==> (rows[i].shade == Tinted <==> i % 2 == 0)
  {
    RowsFrom(entries, 0)
  }

  /** Neighbouring rows never share a background. */
  lemma RowsAlternate(entries: seq<(string, Json)>, i: nat)
    requires i + 1 < |entries|
    ensures DetailRows(entries)[i].shade != DetailRows(entries)[i + 1].shade
  {
  }

  /** The results branch for a truthy `analysis`. */
  function ResultsOf(analysis: Json, preview: Option<string>): (r: Results)
    ensures r.tier == SeverityTier(Get(Some(analysis), "severity"))
    ensures r.showsSeverity <==> Get(Some(analysis), "severity") != Some(JString("None"))
    ensures r.tags == SafeTags(Some(analysis))
    ensures r.rows == DetailRows(SafeDetails(Some(analysis)))
    ensures r.preview == preview
  {
    var severity := Get(Some(analysis), "severity");
    Results(preview, SeverityTier(severity), severity != Some(JString("None")),
            SafeTags(Some(analysis)), DetailRows(SafeDetails(Some(analysis))))
  }

  /** The severity box is shown exactly when the category box is not green. */
  lemma SeverityShownUnlessHealthy(analysis: Json, preview: Option<string>)
    ensures ResultsOf(analysis, preview).showsSeverity <==> ResultsOf(analysis, preview).tier != Healthy
  {
  }

  /** The tags section is shown iff there is a tag to show; the details
      section iff there is a row. */
  predicate ShowsTags(r: Results)
  {
    |r.tags| > 0
  }

  predicate ShowsDetails(r: Results)
  {
    |r.rows| > 0
  }

  /** `safeTags.length > 0`: the tags section is shown iff `safeTags` has
      an element. */
  lemma TagsShownIffSafeTags(analysis: Json, preview: Option<string>)
    ensures ShowsTags(ResultsOf(analysis, preview)) <==> |SafeTags(Some(analysis))| > 0
  {
  }

  /** `Object.keys(safeDetails).length > 0`: the details section is shown
      iff `safeDetails` has a key. */
  lemma DetailsShownIffSafeDetails(analysis: Json, preview: Option<string>)
    ensures ShowsDetails(ResultsOf(analysis, preview)) <==> |SafeDetails(Some(analysis))| > 0
  {
  }

  /** A value React renders as a child without throwing: anything but an
      object, arrays of such values included (`null`, `undefined` and
      booleans render as nothing). */
  predicate IsChild(v: Json)
  {
    match v
    case JObject(_) => false
    case JArray(items) => forall i :: 0 <= i < |items| ==> IsChild(items[i])
    case _ => true
  }

  /** The properties the results branch renders as children. `severity`
      is rendered whenever it is not 'None', which an object never is. */
  const RenderedFields: seq<string> :=
    ["category", "plantType", "confidence", "severity", "description", "treatment", "prevention"]

  /** The property is missing or renders. */
  predicate FieldRenders(analysis: Json, key: string)
  {
    Get(Some(analysis), key).None? || IsChild(Get(Some(analysis), key).value)
  }

  /** The results branch renders without throwing: every rendered property,
      every tag and every detail value is a child React accepts. */
  predicate Renders(analysis: Json)
  {
    (forall k :: 0 <= k < |RenderedFields| ==> FieldRenders(analysis, RenderedFields[k]))
    && (forall i :: 0 <= i < |SafeTags(Some(analysis))| ==> IsChild(SafeTags(Some(analysis))[i]))
    && (forall i :: 0 <= i < |SafeDetails(Some(analysis))| ==> IsChild(SafeDetails(Some(analysis))[i].1))
  }

  /** The panel. It crashes exactly when the results branch is taken and
      throws. Otherwise: the results only for a truthy `analysis`; the
      button disabled without a file or while analyzing; the progress bar
      only while analyzing. */
  function Render(p: Props): (s: Screen)
    ensures s.Crashed? <==> p.analysis.Some? && Truthy(p.analysis.value) && !Renders(p.analysis.value)
    ensures s.Screen? ==> (s.results.Some? <==> p.analysis.Some? && Truthy(p.analysis.value))
    ensures s.Screen? && s.results.Some? ==> s.results.value == ResultsOf(p.analysis.value, p.imagePreview)
    ensures s.Screen? ==> (s.analyzeDisabled <==> !p.hasSelectedFile || p.isAnalyzing)
    ensures s.Screen? ==> (s.progressBar.Some? <==> p.isAnalyzing)
    ensures s.Screen? && s.progressBar.Some? ==> s.progressBar.value == p.analysisProgress
  {
    var shown := p.analysis.Some? && Truthy(p.analysis.value);
    if shown && !Renders(p.analysis.value) then Crashed
    else
      Screen(
        if shown then Some(ResultsOf(p.analysis.value, p.imagePreview)) else None,
        !p.hasSelectedFile || p.isAnalyzing,
        if p.isAnalyzing then Some(p.analysisProgress) else None)
  }

  /** A reply whose tags are objects, which the server passes on as
      parsed, makes the panel throw instead of showing the results. */
  lemma ObjectTagCrashes(isAnalyzing: bool, progress: real, preview: Option<string>, hasSelectedFile: bool)
    ensures var tag := JObject([("name", JString("rust"))]);
      Render(Props(Some(JObject([("tags", JArray([tag]))])), isAnalyzing, progress, preview, hasSelectedFile)) == Crashed
  {
    var tag := JObject([("name", JString("rust"))]);
    var a := JObject([("tags", JArray([tag]))]);
    assert SafeTags(Some(a)) == [tag];
    assert !IsChild(SafeTags(Some(a))[0]);
  }

  /** A record the handler sends always renders: all its properties are
      strings, a number, an array of strings and an object whose values
      are strings. */
  lemma RecordRenders(r: DiagnosisRecord)
    ensures Renders(RecordJson(r))
  {
    var j := RecordJson(r);
    RecordJsonIdentity(r);
    RecordJsonAdvice(r);
    RecordJsonSections(r);
    forall k | 0 <= k < |RenderedFields|
      ensures FieldRenders(j, RenderedFields[k])
    {
    }
    assert SafeDetails(Some(j)) == StringObject(r.details).members;
  }

  /** A record the handler sends is shown with every tag as a string, one
      row per detail in the record's order with its value, and the tier of
      its severity. */
  lemma RecordRendering(r: DiagnosisRecord, preview: Option<string>)
    ensures var v := ResultsOf(RecordJson(r), preview);
      |v.tags| == |r.tags| && (forall i :: 0 <= i < |r.tags| ==> v.tags[i] == JString(r.tags[i]))
      && |v.rows| == |r.details|
      && (forall i :: 0 <= i < |r.details| ==> v.rows[i].key == r.details[i].0 && v.rows[i].value == JString(r.details[i].1))
      && v.tier == SeverityTier(Some(JString(r.severity)))
  {
    RecordJsonSections(r);
    var rows := DetailRows(SafeDetails(Some(RecordJson(r))));
    assert SafeDetails(Some(RecordJson(r))) == StringObject(r.details).members;
  }

  /** The server.js fallback is shown amber, with its severity box, both
      tags and the six detail rows, tinted and plain in turn. */
  lemma ServerFallbackRendering(preview: Option<string>)
    ensures var v := ResultsOf(RecordJson(ServerFallback), preview);
      v.tier == Caution && v.showsSeverity && ShowsTags(v) && |v.tags| == 2 && |v.rows| == 6
      && v.rows[0].shade == Tinted && v.rows[5].shade == Plain
  {
    RecordRendering(ServerFallback, preview);
    ServerFallbackPopulated();
    RecordJsonSections(ServerFallback);
  }

  /** The gemini.js fallback's severity "Unknown" is shown red, as a
      diagnosis of the worst kind would be. */
  lemma RouteFallbackRendering(preview: Option<string>)
    ensures var v := ResultsOf(RecordJson(RouteFallback), preview);
      v.tier == Alert && v.showsSeverity && |v.tags| == 2 && |v.rows| == 6
  {
    RecordRendering(RouteFallback, preview);
    RouteFallbackPopulated();
    RecordJsonSections(RouteFallback);
  }

  /** A parsed reply whose `tags` is a string is shown with no tags section. */
  lemma StringTagsHidden(analysis: Json, preview: Option<string>)
    requires Get(Some(analysis), "tags").Some? && Get(Some(analysis), "tags").value.JString?
    ensures !ShowsTags(ResultsOf(analysis, preview))
  {
  }

  /** An object with only `error` renders, red with the severity box, and
      with neither tags nor details. */
  lemma ErrorObjectRendering(message: string, preview: Option<string>)
    ensures Renders(JObject([("error", JString(message))]))
    ensures var v := ResultsOf(JObject([("error", JString(message))]), preview);
      v.tier == Alert && v.showsSeverity && !ShowsTags(v) && !ShowsDetails(v)
  {
    var m := [("error", JString(message))];
    assert m[0].0 == "error";
    forall k | 0 <= k < |RenderedFields|
      ensures FieldRenders(JObject(m), RenderedFields[k])
    {
      LookupAbsent(m, RenderedFields[k]);
    }
    LookupAbsent(m, "severity");
    LookupAbsent(m, "tags");
    LookupAbsent(m, "details");
  }
}
