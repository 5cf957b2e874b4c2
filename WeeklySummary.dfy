/** server.js: the weekly-summary report's incident classifier, its weekly
    statistics and the choice between real and fallback data. */
module WeeklySummary {
  import opened Wrappers
  import opened Text
  import opened Tally
  import MapUtils

  /** The incident types of the report's breakdown chart. */
  datatype Category = Kidnapping | Banditry | HerdersAttacks | Terrorism | Other

  /** The label the report prints for a type. */
  function Label(c: Category): string {
    match c
    case Kidnapping => "Kidnapping"
    case Banditry => "Banditry"
    case HerdersAttacks => "Herders\U{2019} Attacks"
    case Terrorism => "Terrorism"
    case Other => "Other"
  }

  /** Distinct types have distinct labels, so the chart's keys count the
      types apart. */
  lemma LabelsDistinct(a: Category, b: Category)
    requires Label(a) == Label(b)
    ensures a == b
  {
  }

  /** One classification rule: any of its keywords gives its type. */
  datatype Rule = Rule(keywords: seq<string>, category: Category)

  /** The rules of `classifyIncident` in the order they are tried. */
  const Rules: seq<Rule> := [
    Rule(["kidnap", "abduct"], Kidnapping),
    Rule(["bandit"], Banditry),
    Rule(["herdsmen"], HerdersAttacks),
    Rule(["boko", "iswap", "ipob"], Terrorism)
  ]

  /** Some keyword of `rule` occurs in `text`. */
  predicate Fires(rule: Rule, text: string) {
    exists k | k in rule.keywords :: Contains(text, k)
  }

  /** The type of the first rule that fires, `Other` when none does. */
  function FirstMatch(rules: seq<Rule>, text: string): Category {
    if rules == [] then Other
    else if Fires(rules[0], text) then rules[0].category
    else FirstMatch(rules[1..], text)
  }

  /** First match wins: the result is the type of the lowest-numbered rule
      that fires, and `Other` exactly when no rule fires. */
  lemma {:induction false} FirstMatchIsFirst(rules: seq<Rule>, text: string, i: nat)
    requires i < |rules| && Fires(rules[i], text)
    requires forall j :: 0 <= j < i ==> !Fires(rules[j], text)
    ensures FirstMatch(rules, text) == rules[i].category
  {
    if i > 0 {
      assert !Fires(rules[0], text);
      FirstMatchIsFirst(rules[1..], text, i - 1);
    }
  }

  lemma {:induction false} FirstMatchNone(rules: seq<Rule>, text: string)
    requires forall j :: 0 <= j < |rules| ==> !Fires(rules[j], text)
    ensures FirstMatch(rules, text) == Other
  {
    if rules != [] {
      FirstMatchNone(rules[1..], text);
    }
  }

  /** The rule list tried in order, written out. */
  lemma RulesUnfolded(t: string)
    ensures FirstMatch(Rules, t) ==
      if Contains(t, "kidnap") || Contains(t, "abduct") then Kidnapping
      else if Contains(t, "bandit") then Banditry
      else if Contains(t, "herdsmen") then HerdersAttacks
      else if Contains(t, "boko") || Contains(t, "iswap") || Contains(t, "ipob") then Terrorism
      else Other
  {
    var r := Rules;
    assert Fires(r[0], t) <==> Contains(t, "kidnap") || Contains(t, "abduct") by {
      assert r[0].keywords == ["kidnap", "abduct"];
    }
    assert Fires(r[1], t) <==> Contains(t, "bandit") by {
      assert r[1].keywords == ["bandit"];
    }
    assert Fires(r[2], t) <==> Contains(t, "herdsmen") by {
      assert r[2].keywords == ["herdsmen"];
    }
    assert Fires(r[3], t) <==> Contains(t, "boko") || Contains(t, "iswap") || Contains(t, "ipob") by {
      assert r[3].keywords == ["boko", "iswap", "ipob"];
    }
    assert r[1..][1..][1..][1..] == [];
    assert FirstMatch(r[1..][1..][1..], t) == if Fires(r[3], t) then Terrorism else Other;
    assert FirstMatch(r[1..][1..], t) == if Fires(r[2], t) then HerdersAttacks else FirstMatch(r[1..][1..][1..], t);
  }

  /** `classifyIncident(text)`: lower-case the text, then test the keyword
      rules in order; the chain of `if`s is the rule list read top down. */
  function ClassifyIncident(text: string): (c: Category)
    ensures c == FirstMatch(Rules, Lower(text))
  {
    var t := Lower(text);
    RulesUnfolded(t);
    if Contains(t, "kidnap") || Contains(t, "abduct") then Kidnapping
    else if Contains(t, "bandit") then Banditry
    else if Contains(t, "herdsmen") then HerdersAttacks
    else if Contains(t, "boko") || Contains(t, "iswap") || Contains(t, "ipob") then Terrorism
    else Other
  }

  /** Either of two texts with the same lower-case form gets the same type:
      the classifier ignores case. */
  lemma ClassifyIgnoresCase(a: string, b: string)
    requires Lower(a) == Lower(b)
    ensures ClassifyIncident(a) == ClassifyIncident(b)
  {
  }

  lemma ClassifyLowered(text: string)
    ensures ClassifyIncident(Lower(text)) == ClassifyIncident(text)
  {
    LowerIdempotent(text);
  }

  /** With rules that never name `Other`, the first-match result is `Other`
      exactly when no rule fires. */
  lemma {:induction false} FirstMatchOther(rules: seq<Rule>, text: string)
    requires forall j :: 0 <= j < |rules| ==> rules[j].category != Other
    ensures FirstMatch(rules, text) == Other <==> forall j :: 0 <= j < |rules| ==> !Fires(rules[j], text)
  {
    if rules != [] {
      FirstMatchOther(rules[1..], text);
      if !Fires(rules[0], text) {
        forall j | 0 <= j < |rules| && !Fires(rules[j], text) ensures true {}
        assert forall j :: 1 <= j < |rules| ==> rules[j] == rules[1..][j - 1];
      }
    }
  }

  /** `Other` exactly when no keyword of any rule occurs in the lower-cased text. */
  lemma ClassifyOther(text: string)
    ensures ClassifyIncident(text) == Other <==>
      forall j :: 0 <= j < |Rules| ==> !Fires(Rules[j], Lower(text))
  {
    FirstMatchOther(Rules, Lower(text));
  }

  /** A keyword of a higher-priority rule always wins over the later ones. */
  lemma ClassifyPriority(text: string, i: nat)
    requires i < |Rules| && Fires(Rules[i], Lower(text))
    requires forall j :: 0 <= j < i ==> !Fires(Rules[j], Lower(text))
    ensures ClassifyIncident(text) == Rules[i].category
  {
    FirstMatchIsFirst(Rules, Lower(text), i);
  }

  /** A news item as `computeStats` reads it; the list of states and the two
      casualty figures may be missing. */
  datatype Item = Item(
    title: string,
    summary: string,
    timestamp: string,
    states: Option<seq<string>>,
    abducted: Option<int>,
    fatalities: Option<int>)

  /** `new Date(ts).toISOString().split('T')[0]`: the day of a timestamp, or
      `None` where the timestamp does not parse and `toISOString` throws. */
  type DateKey = string -> Option<string>

  /** The type of an item: its title and summary joined by one space. */
  function TypeOf(item: Item): Category {
    ClassifyIncident(item.title + " " + item.summary)
  }

  /** The two summed casualty figures. */
  datatype Field = Abducted | Fatalities

  /** `item.abducted || 0`, `item.fatalities || 0`. */
  function Amount(item: Item, f: Field): int {
    match f
    case Abducted => item.abducted.GetOr(0)
    case Fatalities => item.fatalities.GetOr(0)
  }

  /** The types of the items, in order. */
  function Types(data: seq<Item>): seq<Category> {
    seq(|data|, i requires 0 <= i < |data| => TypeOf(data[i]))
  }

  /** Every timestamp parses. */
  predicate Dated(data: seq<Item>, dateKey: DateKey) {
    forall i | 0 <= i < |data| :: dateKey(data[i].timestamp).Some?
  }

  /** The days of the items, in order. */
  function Dates(data: seq<Item>, dateKey: DateKey): seq<string>
    requires Dated(data, dateKey)
  {
    seq(|data|, i requires 0 <= i < |data| => dateKey(data[i].timestamp).value)
  }

  /** The index of the first item whose timestamp does not parse. */
  function FirstUndated(data: seq<Item>, dateKey: DateKey): (r: Option<nat>)
    ensures r.None? <==> Dated(data, dateKey)
    ensures r.Some? ==> r.value < |data| && dateKey(data[r.value].timestamp).None?
    ensures r.Some? ==> Dated(data[..r.value], dateKey)
  {
    if data == [] then None
    else if dateKey(data[0].timestamp).None? then Some(0)
    else match FirstUndated(data[1..], dateKey)
      case None => None
      case Some(j) => Some(j + 1)
  }

  /** The elements of a list, as `forEach(s => set.add(s))` collects them. */
  function Elements(list: seq<string>): set<string> {
    set s | s in list
  }

  /** The union of every item's states, a missing list counting as empty. */
  function StatesOf(data: seq<Item>): set<string> {
    if data == [] then {}
    else StatesOf(data[..|data| - 1]) + Elements(data[|data| - 1].states.GetOr([]))
  }

  /** The sum of one casualty figure over the items. */
  function SumOf(data: seq<Item>, f: Field): int {
    if data == [] then 0
    else SumOf(data[..|data| - 1], f) + Amount(data[|data| - 1], f)
  }

  /** The statistics object of `computeStats`. */
  datatype Stats = Stats(
    byType: map<Category, nat>,
    byDate: map<string, nat>,
    states: set<string>,
    abducted: int,
    fatalities: int)

  /** `toISOString` throwing on the item at `index`: the whole call fails. */
  datatype StatsError = UnparsableTimestamp(index: nat)

  /** What `computeStats(data)` returns or throws: it fails at the first
      item whose timestamp does not parse, and otherwise counts every item
      once by type and once by day, collects the states and sums the figures. */
  function StatsOf(data: seq<Item>, dateKey: DateKey): (r: Result<Stats, StatsError>)
    ensures r.Ok? <==> Dated(data, dateKey)
    ensures r.Err? ==>
      r.error.index < |data| && dateKey(data[r.error.index].timestamp).None? &&
      Dated(data[..r.error.index], dateKey)
  {
    match FirstUndated(data, dateKey)
    case Some(i) => Err(UnparsableTimestamp(i))
    case None =>
      Ok(Stats(Count(Types(data)), Count(Dates(data, dateKey)), StatesOf(data),
               SumOf(data, Abducted), SumOf(data, Fatalities)))
  }

  /** `computeStats(data)`: one pass over the items updating the counters,
      the set of states and the two sums in place. */
  method ComputeStats(data: seq<Item>, dateKey: DateKey) returns (r: Result<Stats, StatsError>)
    ensures r == StatsOf(data, dateKey)
  {
    var byType: map<Category, nat> := map[];
    var byDate: map<string, nat> := map[];
    var states: set<string> := {};
    var abducted, fatalities := 0, 0;
    for i := 0 to |data|
      invariant Dated(data[..i], dateKey)
      invariant byType == Count(Types(data[..i]))
      invariant byDate == Count(Dates(data[..i], dateKey))
      invariant states == StatesOf(data[..i])
      invariant abducted == SumOf(data[..i], Abducted)
      invariant fatalities == SumOf(data[..i], Fatalities)
    {
      var item := data[i];
      var t := ClassifyIncident(item.title + " " + item.summary);
      byType := Inc(byType, t);
      var date := dateKey(item.timestamp);
      if date.None? {
        UndatedAt(data, dateKey, i);
        return Err(UnparsableTimestamp(i));
      }
      byDate := Inc(byDate, date.value);
      states := AddAll(states, item.states.GetOr([]));
      abducted := abducted + item.abducted.GetOr(0);
      fatalities := fatalities + item.fatalities.GetOr(0);
      StepStats(data, dateKey, i);
    }
    assert data[..|data|] == data;
    return Ok(Stats(byType, byDate, states, abducted, fatalities));
  }

  /** `list.forEach(s => set.add(s))`. */
  method AddAll(set0: set<string>, list: seq<string>) returns (r: set<string>)
    ensures r == set0 + Elements(list)
  {
    r := set0;
    for k := 0 to |list|
      invariant r == set0 + Elements(list[..k])
    {
      assert list[..k + 1] == list[..k] + [list[k]];
      r := r + {list[k]};
    }
    assert list[..|list|] == list;
  }

  /** The statistics of one more item, as the loop body updates them. */
  lemma StepStats(data: seq<Item>, dateKey: DateKey, i: nat)
    requires i < |data| && Dated(data[..i], dateKey) && dateKey(data[i].timestamp).Some?
    ensures Dated(data[..i + 1], dateKey)
    ensures Count(Types(data[..i + 1])) == Inc(Count(Types(data[..i])), TypeOf(data[i]))
    ensures Count(Dates(data[..i + 1], dateKey)) ==
      Inc(Count(Dates(data[..i], dateKey)), dateKey(data[i].timestamp).value)
    ensures StatesOf(data[..i + 1]) == StatesOf(data[..i]) + Elements(data[i].states.GetOr([]))
    ensures SumOf(data[..i + 1], Abducted) == SumOf(data[..i], Abducted) + data[i].abducted.GetOr(0)
    ensures SumOf(data[..i + 1], Fatalities) == SumOf(data[..i], Fatalities) + data[i].fatalities.GetOr(0)
  {
    var next := data[..i + 1];
    assert next[..i] == data[..i] && next[i] == data[i];
    assert Types(next)[..i] == Types(data[..i]);
    assert Dates(next, dateKey)[..i] == Dates(data[..i], dateKey);
  }

  /** The loop stops at the first unparsable timestamp. */
  lemma UndatedAt(data: seq<Item>, dateKey: DateKey, i: nat)
    requires i < |data| && Dated(data[..i], dateKey) && dateKey(data[i].timestamp).None?
    ensures StatsOf(data, dateKey) == Err(UnparsableTimestamp(i))
  {
  }

  /** Each item adds exactly one to one type counter and, when the call
      succeeds, one to one day counter: both add up to the number of items,
      and no counter present is zero. */
  lemma StatsCounts(data: seq<Item>, dateKey: DateKey)
    requires StatsOf(data, dateKey).Ok?
    ensures Total(StatsOf(data, dateKey).value.byType) == |data|
    ensures Total(StatsOf(data, dateKey).value.byDate) == |data|
    ensures forall c | c in StatsOf(data, dateKey).value.byType :: StatsOf(data, dateKey).value.byType[c] >= 1
  {
    CountTotal(Types(data));
    CountTotal(Dates(data, dateKey));
    forall c | c in Count(Types(data)) ensures Count(Types(data))[c] >= 1 {
      CountPositive(Types(data), c);
    }
  }

  /** A type has a counter exactly when some item has that type, and the
      counter is the number of such items. */
  lemma TypeCountOccurrences(data: seq<Item>, dateKey: DateKey, c: Category)
    requires StatsOf(data, dateKey).Ok?
    ensures c in StatsOf(data, dateKey).value.byType <==> exists i | 0 <= i < |data| :: TypeOf(data[i]) == c
    ensures c in StatsOf(data, dateKey).value.byType ==>
      StatsOf(data, dateKey).value.byType[c] == multiset(Types(data))[c]
  {
    var types := Types(data);
    assert StatsOf(data, dateKey).value.byType == Count(types);
    CountOccurrences(types, c);
    if c in types {
      var i :| 0 <= i < |types| && types[i] == c;
    }
    if exists i | 0 <= i < |data| :: TypeOf(data[i]) == c {
      var i :| 0 <= i < |data| && TypeOf(data[i]) == c;
      assert types[i] == c;
    }
  }

  /** A state is collected exactly when some item lists it. */
  lemma {:induction false} StatesOfMembers(data: seq<Item>, s: string)
    ensures s in StatesOf(data) <==> exists i | 0 <= i < |data| :: s in data[i].states.GetOr([])
  {
    if data != [] {
      var init := data[..|data| - 1];
      StatesOfMembers(init, s);
      if s in StatesOf(init) {
        var i :| 0 <= i < |init| && s in init[i].states.GetOr([]);
        assert data[i] == init[i];
      }
      if exists i | 0 <= i < |data| :: s in data[i].states.GetOr([]) {
        var i :| 0 <= i < |data| && s in data[i].states.GetOr([]);
        if i < |init| {
          assert init[i] == data[i];
        }
      }
    }
  }

  /** The sums add over a split of the items. */
  lemma {:induction false} SumOfConcat(a: seq<Item>, b: seq<Item>, f: Field)
    ensures SumOf(a + b, f) == SumOf(a, f) + SumOf(b, f)
    decreases |b|
  {
    if b == [] {
      assert a + b == a;
    } else {
      assert (a + b)[..|a + b| - 1] == a + b[..|b| - 1];
      SumOfConcat(a, b[..|b| - 1], f);
    }
  }

  /** With no negative figure the sums are not negative. */
  lemma {:induction false} SumOfNonNegative(data: seq<Item>, f: Field)
    requires forall i | 0 <= i < |data| :: Amount(data[i], f) >= 0
    ensures SumOf(data, f) >= 0
  {
    if data != [] {
      SumOfNonNegative(data[..|data| - 1], f);
    }
  }

  /** No items: no counters, no states, zero totals. */
  lemma EmptyStats(dateKey: DateKey)
    ensures StatsOf([], dateKey) == Ok(Stats(map[], map[], {}, 0, 0))
  {
  }

  /** The list the report uses: the cached news when there is an entry,
      otherwise the freshly scraped news (`||`), and the fallback data when
      that list is empty. */
  function ReportData(cached: Option<seq<Item>>, scraped: seq<Item>, fallback: seq<Item>): (data: seq<Item>)
    ensures data == fallback || data != []
    ensures cached.Some? && cached.value != [] ==> data == cached.value
    ensures cached.None? && scraped != [] ==> data == scraped
    ensures cached == Some([]) ==> data == fallback
    ensures cached.None? && scraped == [] ==> data == fallback
  {
    var realData := cached.GetOr(scraped);
    if |realData| > 0 then realData else fallback
  }

  /** `Array.from(stats.states).map(stateNameToId)`: the map regions of the
      collected states, "" for a name the table does not know. */
  function AffectedIds(states: set<string>): (ids: set<string>)
    ensures forall s | s in states :: MapUtils.StateNameToId(s) in ids
    ensures forall id | id in ids :: id == "" || MapUtils.IsSubdivisionCode(id)
    ensures forall id | id in ids && id != "" ::
      exists s | s in states :: StripSpaces(s) in MapUtils.StateIds && StripSpaces(s) == MapUtils.StateOfCode(id)
    ensures "" in ids ==> exists s | s in states :: MapUtils.StateNameToId(s) == ""
  {
    set s | s in states :: MapUtils.StateNameToId(s)
  }
}
