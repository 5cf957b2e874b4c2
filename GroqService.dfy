/** groqService.js: the deterministic parts of the AI client. They are:
    reading a risk level out of a reply, the per-state incident filter in
    front of the risk assessment, the fallback records of the incident
    classifier and the batching of `enrichIncidentData`. Every call to the
    language model is a parameter: a function from what the prompt is built
    of to the reply, or `None` where `callGroq` throws. */
module GroqService {
  import opened Wrappers
  import opened Text

  function Min(a: int, b: int): int {
    if a <= b then a else b
  }

  // ---------------------------------------------------------------------
  // extractRiskLevel

  datatype RiskLevel = Critical | High | Medium | Low

  function Name(l: RiskLevel): string {
    match l
    case Critical => "Critical"
    case High => "High"
    case Medium => "Medium"
    case Low => "Low"
  }

  /** The levels in the order `extractRiskLevel` tries them. */
  const Levels: seq<RiskLevel> := [Critical, High, Medium, Low]

  /** The position of a level in `Levels`: a smaller rank is tried first. */
  function Rank(l: RiskLevel): (i: nat)
    ensures i < |Levels| && Levels[i] == l
  {
    match l
    case Critical => 0
    case High => 1
    case Medium => 2
    case Low => 3
  }

  /** `text` names the level in one of the three recognised phrasings. */
  predicate Mentions(text: string, l: RiskLevel) {
    Contains(text, "Risk Level: " + Name(l)) ||
    Contains(text, Name(l) + " Risk") ||
    Contains(text, "risk level is " + Lower(Name(l)))
  }

  /** The index of the first level of `levels` that `text` mentions. */
  function FirstMentioned(levels: seq<RiskLevel>, text: string): (r: Option<nat>)
    ensures r.None? <==> forall i | 0 <= i < |levels| :: !Mentions(text, levels[i])
    ensures r.Some? ==> r.value < |levels| && Mentions(text, levels[r.value])
    ensures r.Some? ==> forall j | 0 <= j < r.value :: !Mentions(text, levels[j])
  {
    if levels == [] then None
    else if Mentions(text, levels[0]) then Some(0)
    else match FirstMentioned(levels[1..], text)
      case None => None
      case Some(i) => Some(i + 1)
  }

  /** `extractRiskLevel(text)`: the first level, in the order Critical, High,
      Medium, Low, that the text mentions, and Medium when it mentions none. */
  function ExtractRiskLevel(text: string): (r: RiskLevel)
    ensures (forall l :: !Mentions(text, l)) ==> r == Medium
    ensures (exists l :: Mentions(text, l)) ==> Mentions(text, r)
    ensures forall l | Rank(l) < Rank(r) :: !Mentions(text, l)
  {
    match FirstMentioned(Levels, text)
    case None =>
      assert forall l :: Levels[Rank(l)] == l && !Mentions(text, l);
      Medium
    case Some(i) =>
      assert Rank(Levels[i]) == i;
      Levels[i]
  }

  /** A mentioned level wins over every level of higher rank. */
  lemma RiskPriority(text: string, l: RiskLevel)
    requires Mentions(text, l)
    ensures Rank(ExtractRiskLevel(text)) <= Rank(l)
  {
  }

  /** The result is Medium exactly when neither Critical nor High is
      mentioned, and Medium is mentioned or Low is not. */
  lemma RiskMedium(text: string)
    ensures ExtractRiskLevel(text) == Medium <==>
      !Mentions(text, Critical) && !Mentions(text, High) &&
      (Mentions(text, Medium) || !Mentions(text, Low))
  {
  }

  /** A reply in lower case shorter than 17 characters mentions no level:
      both capitalised phrasings need a capital letter and the lower-case
      phrasing is longer. */
  lemma ShortLowerCaseMentionsNone(text: string, l: RiskLevel)
    requires |text| < 17 && forall i | 0 <= i < |text| :: !IsUpper(text[i])
    ensures !Mentions(text, l)
  {
    var p1, p2, p3 := "Risk Level: " + Name(l), Name(l) + " Risk", "risk level is " + Lower(Name(l));
    assert p1[0] == 'R';
    LacksChar(text, p1, 0);
    assert p2[0] == Name(l)[0] && IsUpper(p2[0]);
    LacksChar(text, p2, 0);
    if Contains(text, p3) {
      ContainsLength(text, p3);
    }
  }

  // ---------------------------------------------------------------------
  // classifyIncident: the reply's JSON and its fallbacks

  datatype Casualties = Casualties(deaths: int, injuries: int, abducted: int)

  /** The object the classifier returns. */
  datatype Classification = Classification(
    category: string,
    severity: string,
    casualties: Casualties,
    perpetrators: string,
    locations: seq<string>,
    extractedFacts: seq<string>)

  /** The fallback object, with its list of extracted facts. */
  function Fallback(facts: seq<string>): Classification {
    Classification("Other", "Medium", Casualties(0, 0, 0), "Unknown", [], facts)
  }

  /** The first index of `c` in `s`. */
  function FirstIndex(s: string, c: char): (r: Option<nat>)
    ensures r.None? <==> c !in s
    ensures r.Some? ==> r.value < |s| && s[r.value] == c && c !in s[..r.value]
  {
    if s == [] then None
    else if s[0] == c then Some(0)
    else match FirstIndex(s[1..], c)
      case None => None
      case Some(i) =>
        assert s[..i + 1] == [s[0]] + s[1..][..i];
        Some(i + 1)
  }

  /** The last index of `c` in `s`. */
  function LastIndex(s: string, c: char): (r: Option<nat>)
    ensures r.None? <==> c !in s
    ensures r.Some? ==> r.value < |s| && s[r.value] == c && c !in s[r.value + 1..]
  {
    if s == [] then None
    else if s[|s| - 1] == c then Some(|s| - 1)
    else
      var r := LastIndex(s[..|s| - 1], c);
      if r.Some? then
        assert s[r.value + 1..] == s[..|s| - 1][r.value + 1..] + [s[|s| - 1]];
        r
      else r
  }

  /** `block` is `s[i..j]` inclusive, from the first `{` of `s` to the last `}`. */
  predicate GreedyBlock(s: string, block: string, i: int, j: int) {
    0 <= i < j < |s| && block == s[i..j + 1] && '{' !in s[..i] && '}' !in s[j + 1..]
  }

  /** `response.match(/\{[\s\S]*\}/)`: from the first `{` to the last `}`
      after it, when there is one. */
  function JsonBlock(s: string): (r: Option<string>)
    ensures r.Some? <==> exists i, j | 0 <= i < j < |s| :: s[i] == '{' && s[j] == '}'
    ensures r.Some? ==> 2 <= |r.value| && r.value[0] == '{' && r.value[|r.value| - 1] == '}'
    ensures r.Some? ==> Contains(s, r.value)
    ensures r.Some? ==> exists i, j :: GreedyBlock(s, r.value, i, j)
  {
    match FirstIndex(s, '{')
    case None => None
    case Some(i) =>
      match LastIndex(s, '}')
      case None => None
      case Some(j) =>
        if i < j then
          ContainsAt(s, s[i..j + 1], i);
          assert GreedyBlock(s, s[i..j + 1], i, j);
          Some(s[i..j + 1])
        else
          assert forall a, b | 0 <= a < b < |s| && s[a] == '{' :: s[b] != '}' by {
            forall a, b | 0 <= a < b < |s| && s[a] == '{' ensures s[b] != '}' {
              if b > j {
                assert s[j + 1..][b - j - 1] == s[b];
              }
            }
          }
          None
  }

  /** `JSON.parse`: the object a text denotes, or `None` where it throws. */
  type Parser = string -> Option<Classification>

  /** What `classifyIncident` makes of the model's reply. It parses the
      brace-delimited part. Without one it falls back to the first 100
      characters of the reply as the only fact, and when parsing throws it
      falls back with no facts. */
  function ClassifyResponse(response: string, parse: Parser): (c: Classification)
    ensures JsonBlock(response).None? ==> c == Fallback([response[..Min(100, |response|)]])
    ensures JsonBlock(response).Some? ==>
      c == match parse(JsonBlock(response).value)
        case Some(parsed) => parsed
        case None => Fallback([])
  {
    match JsonBlock(response)
    case None => Fallback([response[..Min(100, |response|)]])
    case Some(block) =>
      match parse(block)
      case Some(parsed) => parsed
      case None => Fallback([])
  }

  /** Every fallback is an "Other", "Medium" record with no casualties and an
      unknown perpetrator; its one fact, if any, is a prefix of the reply of
      at most 100 characters. */
  lemma FallbackShape(response: string, parse: Parser)
    requires JsonBlock(response).None? || parse(JsonBlock(response).value).None?
    ensures var c := ClassifyResponse(response, parse);
      c.category == "Other" && c.severity == "Medium" && c.casualties == Casualties(0, 0, 0) &&
      c.perpetrators == "Unknown" && c.locations == [] && |c.extractedFacts| <= 1 &&
      forall f | f in c.extractedFacts :: |f| <= 100 && f <= response
  {
  }

  /** A reply without an opening brace always falls back, whatever the parser. */
  lemma NoBraceFallsBack(response: string, parse: Parser)
    requires '{' !in response
    ensures ClassifyResponse(response, parse) == Fallback([response[..Min(100, |response|)]])
  {
  }

  /** A reply whose only closing brace comes before its opening brace falls back. */
  lemma ClosingFirstFallsBack(response: string, parse: Parser, k: nat)
    requires k < |response| && '}' !in response[k..] && '{' !in response[..k]
    ensures ClassifyResponse(response, parse) == Fallback([response[..Min(100, |response|)]])
  {
  }

  /** `callGroq` with the classification prompt of a title and summary: the
      reply, or `None` where the call throws. */
  type ClassifyCall = (string, string) -> Option<string>

  /** `classifyIncident(title, summary)`: a failed call propagates, a reply
      always yields a record. */
  function ClassifyIncident(title: string, summary: string, call: ClassifyCall, parse: Parser): (r: Option<Classification>)
    ensures r.None? <==> call(title, summary).None?
    ensures r.Some? ==> r.value == ClassifyResponse(call(title, summary).value, parse)
  {
    match call(title, summary)
    case None => None
    case Some(response) => Some(ClassifyResponse(response, parse))
  }

  // ---------------------------------------------------------------------
  // generateStateRiskAssessment

  /** The fields `enrichIncidentData` adds, taken from a classification. */
  datatype Enrichment = Enrichment(
    aiClassification: string,
    severity: string,
    casualties: Casualties,
    extractedLocations: seq<string>,
    perpetrators: string)

  /** An incident as the AI client sees it. `fields` stands for the item's
      other fields, which are carried along as they are. `enrichment` holds
      the fields added when the item is marked `enriched: true`. */
  datatype Incident = Incident(
    title: string,
    summary: string,
    fields: map<string, string>,
    enrichment: Option<Enrichment>)

  /** The filter of `generateStateRiskAssessment`: the lower-cased title and
      summary, joined with no separator, contain the lower-cased state name. */
  predicate AboutState(item: Incident, stateName: string) {
    Contains(Lower(item.title + item.summary), Lower(stateName))
  }

  /** The incidents about a state, in their original order. */
  function StateIncidents(stateName: string, incidents: seq<Incident>): (r: seq<Incident>)
    ensures |r| <= |incidents|
    ensures forall x | x in r :: x in incidents && AboutState(x, stateName)
    ensures forall x | x in incidents && AboutState(x, stateName) :: x in r
    ensures forall x :: multiset(r)[x] == if AboutState(x, stateName) then multiset(incidents)[x] else 0
  {
    if incidents == [] then []
    else
      var rest := StateIncidents(stateName, incidents[1..]);
      assert forall x | x in incidents[1..] :: x in incidents;
      assert incidents == [incidents[0]] + incidents[1..];
      if AboutState(incidents[0], stateName) then [incidents[0]] + rest else rest
  }

  /** The filter keeps the order of the incidents: filtering a list in two
      parts is filtering each part, one after the other. */
  lemma {:induction false} StateIncidentsConcat(stateName: string, a: seq<Incident>, b: seq<Incident>)
    ensures StateIncidents(stateName, a + b) == StateIncidents(stateName, a) + StateIncidents(stateName, b)
  {
    if a == [] {
      assert a + b == b;
    } else {
      assert (a + b)[0] == a[0] && (a + b)[1..] == a[1..] + b;
      StateIncidentsConcat(stateName, a[1..], b);
    }
  }

  /** The object `generateStateRiskAssessment` returns. */
  datatype Assessment = Assessment(stateName: string, riskLevel: RiskLevel, analysis: string, incidentCount: nat)

  /** `callGroq` with the assessment prompt of a state and its incidents. */
  type StateCall = (string, seq<Incident>) -> Option<string>

  function NoIncidentsText(stateName: string): string {
    "No significant security incidents reported for " + stateName + " this week."
  }

  /** `generateStateRiskAssessment(stateName, incidents)`: None where the
      call to the model throws. */
  function StateRiskAssessment(stateName: string, incidents: seq<Incident>, call: StateCall): (r: Option<Assessment>)
    ensures r.Some? ==> r.value.stateName == stateName
    ensures r.Some? ==> r.value.incidentCount == |StateIncidents(stateName, incidents)|
    ensures r.None? ==> StateIncidents(stateName, incidents) != []
    ensures r.Some? && r.value.incidentCount > 0 ==> r.value.riskLevel == ExtractRiskLevel(r.value.analysis)
  {
    var stateIncidents := StateIncidents(stateName, incidents);
    if |stateIncidents| == 0 then
      Some(Assessment(stateName, Low, NoIncidentsText(stateName), 0))
    else
      match call(stateName, stateIncidents)
      case None => None
      case Some(response) =>
        Some(Assessment(stateName, ExtractRiskLevel(response), response, |stateIncidents|))
  }

  /** When no incident is about the state the result is the fixed Low
      assessment, whatever the model would have replied: it is never asked. */
  lemma NoMatchSkipsModel(stateName: string, incidents: seq<Incident>, call1: StateCall, call2: StateCall)
    requires forall x | x in incidents :: !AboutState(x, stateName)
    ensures StateRiskAssessment(stateName, incidents, call1) == StateRiskAssessment(stateName, incidents, call2)
    ensures StateRiskAssessment(stateName, incidents, call1) ==
      Some(Assessment(stateName, Low, NoIncidentsText(stateName), 0))
  {
    NoneAboutState(stateName, incidents);
  }

  lemma {:induction false} NoneAboutState(stateName: string, incidents: seq<Incident>)
    requires forall x | x in incidents :: !AboutState(x, stateName)
    ensures StateIncidents(stateName, incidents) == []
  {
    if incidents != [] {
      assert incidents[0] in incidents;
      assert forall x | x in incidents[1..] :: x in incidents;
      NoneAboutState(stateName, incidents[1..]);
    }
  }

  /** With some incident about the state the model is asked with exactly
      those incidents; its failure is the call's failure, and otherwise the
      reply is the analysis and the risk level is read out of it. */
  lemma MatchAsksModel(stateName: string, incidents: seq<Incident>, call: StateCall, x: Incident)
    requires x in incidents && AboutState(x, stateName)
    ensures var asked := StateIncidents(stateName, incidents);
      var r := StateRiskAssessment(stateName, incidents, call);
      x in asked && (r.None? <==> call(stateName, asked).None?) &&
      (r.Some? ==> r.value.analysis == call(stateName, asked).value && r.value.incidentCount == |asked| > 0)
  {
  }

  /** The state name is compared without regard to case. */
  lemma StateNameCase(a: string, b: string, incidents: seq<Incident>)
    requires Lower(a) == Lower(b)
    ensures StateIncidents(a, incidents) == StateIncidents(b, incidents)
  {
    if incidents != [] {
      StateNameCase(a, b, incidents[1..]);
    }
  }

  /** A state name can match across the join of title and summary. */
  lemma MatchAcrossJoin(title: string, summary: string, stateName: string, k: nat)
    requires 0 < k < |stateName| && k <= |title|
    requires Lower(title[|title| - k..]) == Lower(stateName[..k])
    requires |stateName| - k <= |summary| && Lower(summary[..|stateName| - k]) == Lower(stateName[k..])
    ensures forall fields, e :: AboutState(Incident(title, summary, fields, e), stateName)
  {
    var joined := title + summary;
    var start := |title| - k;
    assert joined[start..start + |stateName|] == title[start..] + summary[..|stateName| - k];
    LowerConcat(title[start..], summary[..|stateName| - k]);
    assert stateName == stateName[..k] + stateName[k..];
    LowerConcat(stateName[..k], stateName[k..]);
    assert Lower(joined)[start..start + |stateName|] == Lower(joined[start..start + |stateName|]);
    ContainsAt(Lower(joined), Lower(stateName), start);
  }

  // ---------------------------------------------------------------------
  // enrichIncidentData

  /** Items enriched per batch, and the number of leading items enriched. */
  const BatchSize: nat := 5
  const EnrichLimit: nat := 50

  /** One item of a batch: the classification's fields added to the item, or
      the item itself when classifying it throws. */
  function Enrich(incident: Incident, call: ClassifyCall, parse: Parser): (r: Incident)
    ensures r.title == incident.title && r.summary == incident.summary && r.fields == incident.fields
    ensures call(incident.title, incident.summary).None? ==> r == incident
    ensures call(incident.title, incident.summary).Some? ==>
      var c := ClassifyResponse(call(incident.title, incident.summary).value, parse);
      r.enrichment == Some(Enrichment(c.category, c.severity, c.casualties, c.locations, c.perpetrators))
  {
    match ClassifyIncident(incident.title, incident.summary, call, parse)
    case None => incident
    case Some(c) =>
      incident.(enrichment := Some(Enrichment(c.category, c.severity, c.casualties, c.locations, c.perpetrators)))
  }

  /** The index ranges `[start, end)` of the batches over the first `limit`
      items, in order. */
  function Batches(limit: nat): seq<(nat, nat)> {
    seq((limit + BatchSize - 1) / BatchSize,
        b requires 0 <= b => (BatchSize * b, Min(BatchSize * b + BatchSize, limit)))
  }

  /** The number of items, that is of model calls, in a list of batches. */
  function Calls(batches: seq<(nat, nat)>): int {
    if batches == [] then 0
    else Calls(batches[..|batches| - 1]) + batches[|batches| - 1].1 - batches[|batches| - 1].0
  }

  /** The batches are consecutive, start at 0, hold between 1 and 5 items and
      together hold exactly `limit` items: each of the first `limit` items is
      classified once. */
  lemma BatchesCover(limit: nat)
    ensures forall b | 0 <= b < |Batches(limit)| ::
      1 <= Batches(limit)[b].1 - Batches(limit)[b].0 <= BatchSize
    ensures Batches(limit) != [] ==> Batches(limit)[0].0 == 0
    ensures forall b | 0 < b < |Batches(limit)| :: Batches(limit)[b].0 == Batches(limit)[b - 1].1
    ensures Calls(Batches(limit)) == limit
  {
    var batches := Batches(limit);
    BatchPrefixCalls(limit, |batches|);
    assert batches[..|batches|] == batches;
    assert BatchSize * |batches| >= limit;
  }

  lemma {:induction false} BatchPrefixCalls(limit: nat, k: nat)
    requires k <= |Batches(limit)|
    ensures Calls(Batches(limit)[..k]) == Min(BatchSize * k, limit)
  {
    if k > 0 {
      assert Batches(limit)[..k][..k - 1] == Batches(limit)[..k - 1];
      BatchPrefixCalls(limit, k - 1);
    }
  }

  /** `enrichIncidentData(incidents)`: the first 50 items, batch by batch,
      each batch's items classified in order. After them come the remaining
      items, unchanged. The batches it used are returned with the result. */
  method EnrichIncidentData(incidents: seq<Incident>, call: ClassifyCall, parse: Parser)
    returns (enriched: seq<Incident>, batches: seq<(nat, nat)>)
    ensures |enriched| == |incidents|
    ensures forall k | 0 <= k < |incidents| && k < EnrichLimit :: enriched[k] == Enrich(incidents[k], call, parse)
    ensures forall k | EnrichLimit <= k < |incidents| :: enriched[k] == incidents[k]
    ensures batches == Batches(Min(|incidents|, EnrichLimit))
  {
    var limit := Min(|incidents|, EnrichLimit);
    enriched := [];
    batches := [];
    var i := 0;
    while i < limit
      invariant i == BatchSize * |batches| && i <= limit + BatchSize - 1
      invariant batches == Batches(limit)[..|batches|]
      invariant |enriched| == Min(i, limit)
      invariant forall k | 0 <= k < |enriched| :: enriched[k] == Enrich(incidents[k], call, parse)
    {
      var end := Min(i + BatchSize, |incidents|);
      var batch := incidents[i..end];
      var enrichedBatch := [];
      for k := 0 to |batch|
        invariant |enrichedBatch| == k
        invariant forall m | 0 <= m < k :: enrichedBatch[m] == Enrich(batch[m], call, parse)
      {
        enrichedBatch := enrichedBatch + [Enrich(batch[k], call, parse)];
      }
      enriched := enriched + enrichedBatch;
      batches := batches + [(i, end)];
      i := i + BatchSize;
    }
    if |incidents| > EnrichLimit {
      enriched := enriched + incidents[EnrichLimit..];
    }
  }
}
