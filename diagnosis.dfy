/** The diagnosis record the prompt asks the model for, the object literal
    the handler sends for it, and the two fallback records the entry points
    substitute. */
module Diagnosis {
  import opened Text
  import opened Json

  /** The record the prompt asks the model for, and the shape of both
      fallback literals. */
  datatype DiagnosisRecord = DiagnosisRecord(
    category: string,
    plantType: string,
    confidence: real,
    severity: string,
    description: string,
    treatment: string,
    prevention: string,
    tags: seq<string>,
    details: seq<(string, string)>)

  /** The severities the prompt's schema names ("None/Mild/Moderate/Severe"). */
  const SeverityLevels: seq<string> := ["None", "Mild", "Moderate", "Severe"]

  /** The keys of the prompt's `details` block, in the prompt's order. */
  const SchemaDetailKeys: seq<string> :=
    ["Disease Type", "Affected Area", "Severity Level", "Treatment Urgency", "Recovery Time", "Contagious"]

  function Keys(details: seq<(string, string)>): (ks: seq<string>)
    ensures |ks| == |details|
    ensures forall i :: 0 <= i < |details| ==> ks[i] == details[i].0
  {
    if details == [] then [] else [details[0].0] + Keys(details[1..])
  }

  /** No text field is empty. */
  ghost predicate TextFilled(r: DiagnosisRecord)
  {
    && r.category != "" && r.plantType != "" && r.severity != ""
    && r.description != "" && r.treatment != "" && r.prevention != ""
  }

  /** A confidence between 0 and 100 and at least one tag, none empty. */
  ghost predicate ScoreAndTagsFilled(r: DiagnosisRecord)
  {
    0.0 <= r.confidence <= 100.0 && |r.tags| > 0 && forall i :: 0 <= i < |r.tags| ==> r.tags[i] != ""
  }

  /** A non-empty value for each key of the prompt's `details` schema, in
      the schema's order. */
  ghost predicate DetailsFollowSchema(r: DiagnosisRecord)
  {
    Keys(r.details) == SchemaDetailKeys && forall i :: 0 <= i < |r.details| ==> r.details[i].1 != ""
  }

  /** Every field is filled in as the prompt's schema asks. */
  ghost predicate FullyPopulated(r: DiagnosisRecord)
  {
    TextFilled(r) && ScoreAndTagsFilled(r) && DetailsFollowSchema(r)
  }

  /** The properties of the object the handler sends, in the order it
      writes them. */
  const RecordKeys: seq<string> :=
    ["category", "plantType", "confidence", "severity", "description", "treatment", "prevention", "tags", "details"]

  /** The record as the object literal the handler sends: an object with
      exactly the nine properties, in that order. */
  function RecordJson(r: DiagnosisRecord): (j: Json)
    ensures j.JObject? && |j.members| == |RecordKeys|
    ensures forall i :: 0 <= i < |RecordKeys| ==> j.members[i].0 == RecordKeys[i]
  {
    JObject([
      ("category", JString(r.category)),
      ("plantType", JString(r.plantType)),
      ("confidence", JNumber(r.confidence)),
      ("severity", JString(r.severity)),
      ("description", JString(r.description)),
      ("treatment", JString(r.treatment)),
      ("prevention", JString(r.prevention)),
      ("tags", StringArray(r.tags)),
      ("details", StringObject(r.details))])
  }

  /** Reading the identifying properties of the sent object gives the record's
      category, plant type and confidence. */
  lemma RecordJsonIdentity(r: DiagnosisRecord)
    ensures Get(Some(RecordJson(r)), "category") == Some(JString(r.category))
    ensures Get(Some(RecordJson(r)), "plantType") == Some(JString(r.plantType))
    ensures Get(Some(RecordJson(r)), "confidence") == Some(JNumber(r.confidence))
  {
    var m := RecordJson(r).members;
    LookupFirst(m, "category", 0);
    LookupFirst(m, "plantType", 1);
    LookupFirst(m, "confidence", 2);
  }

  /** Reading the prose properties of the sent object gives the record's
      description, treatment and prevention. */
  lemma RecordJsonAdvice(r: DiagnosisRecord)
    ensures Get(Some(RecordJson(r)), "description") == Some(JString(r.description))
    ensures Get(Some(RecordJson(r)), "treatment") == Some(JString(r.treatment))
    ensures Get(Some(RecordJson(r)), "prevention") == Some(JString(r.prevention))
  {
    var m := RecordJson(r).members;
    LookupFirst(m, "description", 4);
    LookupFirst(m, "treatment", 5);
    LookupFirst(m, "prevention", 6);
  }

  /** Reading the properties the client renders as sections gives the
      record's severity, tags and details. */
  lemma RecordJsonSections(r: DiagnosisRecord)
    ensures Get(Some(RecordJson(r)), "severity") == Some(JString(r.severity))
    ensures Get(Some(RecordJson(r)), "tags") == Some(StringArray(r.tags))
    ensures Get(Some(RecordJson(r)), "details") == Some(StringObject(r.details))
  {
    var m := RecordJson(r).members;
    LookupFirst(m, "severity", 3);
    LookupFirst(m, "tags", 7);
    LookupFirst(m, "details", 8);
  }

  /** The fallback literal of backend/server.js. */
  const ServerFallback: DiagnosisRecord :=
    DiagnosisRecord(
      "Analysis Completed",
      "Plant detected",
      85.0,
      "Mild",
      "AI analysis completed. The system detected potential issues but had difficulty parsing detailed results. Please consult the raw analysis or try again.",
      "Monitor plant closely and maintain good care practices.",
      "Ensure proper watering, lighting, and air circulation.",
      ["AI Analysis", "Monitoring Needed"],
      [("Disease Type", "Analysis partially completed"),
       ("Affected Area", "Visual inspection recommended"),
       ("Severity Level", "Mild concern (3/10)"),
       ("Treatment Urgency", "Monitor for 1-2 weeks"),
       ("Recovery Time", "Ongoing care needed"),
       ("Contagious", "Isolation not required")])

  /** The fallback literal of backend/routes/gemini.js. */
  const RouteFallback: DiagnosisRecord :=
    DiagnosisRecord(
      "Analysis Error",
      "Unknown",
      50.0,
      "Unknown",
      "Unable to analyze image properly. Please try again with a clearer image.",
      "Consult a plant expert for proper diagnosis.",
      "Maintain good plant care practices.",
      ["Analysis Error", "Retry Needed"],
      [("Disease Type", "Unable to determine"),
       ("Affected Area", "Unknown"),
       ("Severity Level", "Unknown"),
       ("Treatment Urgency", "Consult expert"),
       ("Recovery Time", "Unknown"),
       ("Contagious", "Unknown")])

  lemma ServerFallbackText() ensures TextFilled(ServerFallback) { }
  lemma ServerFallbackTags() ensures ScoreAndTagsFilled(ServerFallback) { }
  lemma ServerFallbackSchema() ensures DetailsFollowSchema(ServerFallback) { }

  lemma RouteFallbackText() ensures TextFilled(RouteFallback) { }
  lemma RouteFallbackTags() ensures ScoreAndTagsFilled(RouteFallback) { }
  lemma RouteFallbackSchema() ensures DetailsFollowSchema(RouteFallback) { }

  /** The fallback of backend/server.js is fully populated; its severity
      is one of the schema's levels and it carries two tags. */
  lemma ServerFallbackPopulated()
    ensures FullyPopulated(ServerFallback)
    ensures ServerFallback.severity in SeverityLevels && |ServerFallback.tags| == 2
  {
    ServerFallbackText();
    ServerFallbackTags();
    ServerFallbackSchema();
  }

  /** The fallback of backend/routes/gemini.js is fully populated too, but
      its severity "Unknown" is none of the schema's levels. */
  lemma RouteFallbackPopulated()
    ensures FullyPopulated(RouteFallback)
    ensures RouteFallback.severity !in SeverityLevels && |RouteFallback.tags| == 2
  {
    RouteFallbackText();
    RouteFallbackTags();
    RouteFallbackSchema();
  }

  /** What the client reads from the backend/server.js fallback. */
  lemma ServerFallbackSent()
    ensures var j := Some(RecordJson(ServerFallback));
      Get(j, "category") == Some(JString("Analysis Completed"))
      && Get(j, "confidence") == Some(JNumber(85.0))
      && Get(j, "severity") == Some(JString("Mild"))
  {
    RecordJsonIdentity(ServerFallback);
    RecordJsonSections(ServerFallback);
  }

  /** What the client reads from the backend/routes/gemini.js fallback. */
  lemma RouteFallbackSent()
    ensures var j := Some(RecordJson(RouteFallback));
      Get(j, "category") == Some(JString("Analysis Error"))
      && Get(j, "confidence") == Some(JNumber(50.0))
      && Get(j, "severity") == Some(JString("Unknown"))
  {
    RecordJsonIdentity(RouteFallback);
    RecordJsonSections(RouteFallback);
  }
}
