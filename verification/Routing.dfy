/** Which provider serves a model for a client: the winning rule, and the strategy of that rule. */
module Routing {
  import opened Options
  import opened Text
  import opened Weights
  import opened CircuitBreaker

  datatype Strategy = Fixed | Weighted | PrimaryFallback | Latency | Cost | Unsupported

  /** An optional number of a rule. */
  datatype Amount = Unset | NotFinite | Finite(value: real)

  /** A weight or cost is None when it is missing or not a finite number. */
  datatype RawTarget = RawTarget(provider: string, amount: Option<real>)

  /** Missing texts are "". enabled is None when the stored rule lacks the field. */
  datatype Rule = Rule(
    id: string, apiKey: string, enabled: Option<bool>, priority: real,
    effectiveFrom: Option<int>, effectiveUntil: Option<int>, strategy: Strategy,
    fixedProvider: string, weightedTargets: seq<RawTarget>,
    primary: string, fallback: string, primaryWeight: Amount, fallbackWeight: Amount,
    latencyTargets: seq<string>, costTargets: seq<RawTarget>)

  datatype Health = Health(sampleCount: int, avgLatency: real)

  /** What the rest of the system says about providers while a rule is resolved. */
  datatype Surroundings = Surroundings(
    circuit: string -> CircuitState, allows: string -> bool, health: string -> Health,
    runtimeCost: string -> Option<real>)

  datatype Hit = Hit(provider: string, failover: bool)

  datatype RuleHit = RuleHit(ruleId: string, hit: Hit)

  const MIN_SAMPLES: int := 10

  const UNKNOWN_LATENCY: real := 5000.0

  const HIGH_COST: real := 999999.0

  const SEPARATOR: char := '\U{1C}'

  // ----- candidates -----

  predicate IsEffective(r: Rule, at: int) {
    && (r.effectiveFrom.Some? ==> at >= r.effectiveFrom.value)
    && (r.effectiveUntil.Some? ==> at <= r.effectiveUntil.value)
  }

  predicate ClientMatches(r: Rule, apiKey: string) {
    Trim(r.apiKey) == "" || Trim(r.apiKey) == apiKey
  }

  predicate IsSpecific(r: Rule, apiKey: string) {
    Trim(r.apiKey) != "" && Trim(r.apiKey) == apiKey
  }

  /** The targets with a name and a positive finite weight. */
  function NormalizedTargets(raw: seq<RawTarget>): seq<Target> {
    if raw == [] then []
    else
      var rest := NormalizedTargets(raw[1..]);
      if IsWeighted(raw[0]) then [Target(Trim(raw[0].provider), raw[0].amount.value)] + rest else rest
  }

  predicate IsWeighted(t: RawTarget) {
    Trim(t.provider) != "" && t.amount.Some? && t.amount.value > 0.0
  }

  method NormalizeWeightedTargets(raw: seq<RawTarget>) returns (out: seq<Target>)
    ensures out == NormalizedTargets(raw)
  {
    out := [];
    var i := 0;
    assert raw[0..] == raw;
    while i < |raw|
      invariant 0 <= i <= |raw| && NormalizedTargets(raw) == out + NormalizedTargets(raw[i..])
    {
      assert raw[i..][1..] == raw[i + 1..];
      var provider := Trim(raw[i].provider);
      if provider != "" && raw[i].amount.Some? && raw[i].amount.value > 0.0 {
        out := out + [Target(provider, raw[i].amount.value)];
      }
      i := i + 1;
    }
  }

  /** Each weighted target keeps its place: it comes right after what the targets before it give. */
  lemma {:induction false} WeightedTargetsKeepTheirPlace(raw: seq<RawTarget>, i: nat)
    requires i < |raw|
    ensures var before := NormalizedTargets(raw[..i]);
      if IsWeighted(raw[i])
      then |before| < |NormalizedTargets(raw)|
        && NormalizedTargets(raw)[|before|] == Target(Trim(raw[i].provider), raw[i].amount.value)
      else |NormalizedTargets(raw[..i + 1])| == |before|
    decreases i
  {
    if i == 0 {
      assert raw[..0] == [] && raw[..1] == [raw[0]];
    } else {
      WeightedTargetsKeepTheirPlace(raw[1..], i - 1);
      assert raw[..i][1..] == raw[1..][..i - 1] && raw[..i + 1][1..] == raw[1..][..i];
    }
  }

  /** And nothing else is there: every target found comes from a weighted one. */
  lemma {:induction false} OnlyWeightedTargets(raw: seq<RawTarget>, k: nat) returns (i: nat)
    requires k < |NormalizedTargets(raw)|
    ensures i < |raw| && IsWeighted(raw[i]) && |NormalizedTargets(raw[..i])| == k
    decreases |raw|
  {
    if IsWeighted(raw[0]) && k == 0 {
      i := 0;
      assert raw[..0] == [];
    } else {
      var rest := OnlyWeightedTargets(raw[1..], if IsWeighted(raw[0]) then k - 1 else k);
      i := rest + 1;
      assert raw[..i][1..] == raw[1..][..rest];
    }
  }

  function MaxReal(a: real, b: real): real {
    if a < b then b else a
  }

  /** A lone target is picked whatever its weight, so the weight of one that is not finite does not matter. */
  function PrimaryAlone(primary: string, weight: Amount): seq<Target> {
    [Target(primary, match weight
      case Unset => 100.0
      case NotFinite => 1.0
      case Finite(value) => MaxReal(value, 1.0))]
  }

  function PrimaryFallbackTargets(r: Rule): seq<Target> {
    var primary, fallback := Trim(r.primary), Trim(r.fallback);
    var pw := if r.primaryWeight.Unset? then Finite(100.0) else r.primaryWeight;
    var fw := if r.fallbackWeight.Unset? then Finite(0.0) else r.fallbackWeight;
    if primary == "" then []
    else if fallback == "" then PrimaryAlone(primary, pw)
    else if pw.NotFinite? || fw.NotFinite? || pw.value < 0.0 || fw.value < 0.0 then []
    else if fw.value <= 0.0 then PrimaryAlone(primary, pw)
    else [Target(primary, pw.value), Target(fallback, fw.value)]
  }

  /** The names left once trimmed. */
  function TrimmedNames(names: seq<string>): seq<string> {
    if names == [] then []
    else if Trim(names[0]) == "" then TrimmedNames(names[1..])
    else [Trim(names[0])] + TrimmedNames(names[1..])
  }

  function NamedTargets(targets: seq<RawTarget>): seq<RawTarget> {
    if targets == [] then []
    else if Trim(targets[0].provider) == "" then NamedTargets(targets[1..])
    else [targets[0].(provider := Trim(targets[0].provider))] + NamedTargets(targets[1..])
  }

  predicate CanResolve(r: Rule) {
    match r.strategy
    case Fixed => Trim(r.fixedProvider) != ""
    case Weighted => NormalizedTargets(r.weightedTargets) != [] && Sum(NormalizedTargets(r.weightedTargets)) > 0.0
    case PrimaryFallback => PrimaryFallbackTargets(r) != []
    case Latency => |TrimmedNames(r.latencyTargets)| >= 2
    case Cost => NamedTargets(r.costTargets) != []
    case Unsupported => false
  }

  predicate IsEligible(r: Rule, apiKey: string, at: int) {
    r.strategy != Unsupported && IsEffective(r, at) && ClientMatches(r, apiKey) && CanResolve(r)
  }

  /** Production asks the database for enabled rules. */
  predicate IsCandidate(r: Rule, apiKey: string, at: int) {
    r.enabled == Some(true) && IsEligible(r, apiKey, at)
  }

  /** The simulation drops only the rules that are disabled. */
  predicate IsSimulatedCandidate(r: Rule, apiKey: string, at: int) {
    r.enabled != Some(false) && IsEligible(r, apiKey, at)
  }

  function Filter<T>(keep: T -> bool, s: seq<T>): seq<T> {
    if s == [] then [] else if keep(s[0]) then [s[0]] + Filter(keep, s[1..]) else Filter(keep, s[1..])
  }

  function Candidates(rules: seq<Rule>, apiKey: string, at: int): seq<Rule> {
    Filter((r: Rule) => IsCandidate(r, apiKey, at), rules)
  }

  function SimulatedCandidates(rules: seq<Rule>, apiKey: string, at: int): seq<Rule> {
    Filter((r: Rule) => IsSimulatedCandidate(r, apiKey, at), rules)
  }

  // ----- ranking: the more specific first, then the higher priority; ties keep their order -----

  predicate Ahead(a: Rule, b: Rule, apiKey: string) {
    || (IsSpecific(a, apiKey) && !IsSpecific(b, apiKey))
    || (IsSpecific(a, apiKey) == IsSpecific(b, apiKey) && a.priority > b.priority)
  }

  function Insert(sorted: seq<Rule>, r: Rule, apiKey: string): seq<Rule> {
    if sorted == [] then [r]
    else if Ahead(r, sorted[0], apiKey) then [r] + sorted
    else [sorted[0]] + Insert(sorted[1..], r, apiKey)
  }

  function Ranked(rules: seq<Rule>, apiKey: string): (sorted: seq<Rule>)
    ensures |sorted| == |rules|
  {
    if rules == [] then []
    else
      var sorted := Insert(Ranked(rules[..|rules| - 1], apiKey), rules[|rules| - 1], apiKey);
      InsertGrows(Ranked(rules[..|rules| - 1], apiKey), rules[|rules| - 1], apiKey);
      sorted
  }

  lemma {:induction false} InsertGrows(sorted: seq<Rule>, r: Rule, apiKey: string)
    ensures |Insert(sorted, r, apiKey)| == |sorted| + 1
  {
    if sorted == [] {
    } else {
      InsertGrows(sorted[1..], r, apiKey);
    }
  }

  // ----- strategies -----

  function Seed(apiKey: string, model: string, ruleId: string): string {
    apiKey + [SEPARATOR] + model + [SEPARATOR] + ruleId
  }

  /** A provider that a strategy may choose, with what it is compared by. */
  datatype Choice = Choice(provider: string, cost: real, latency: real)

  function EffectiveLatency(around: Surroundings, provider: string): real {
    var health := around.health(provider);
    if health.sampleCount < MIN_SAMPLES then UNKNOWN_LATENCY else health.avgLatency
  }

  function EffectiveCost(around: Surroundings, t: RawTarget): real {
    if t.amount.Some? then t.amount.value
    else if around.runtimeCost(t.provider).Some? then around.runtimeCost(t.provider).value
    else HIGH_COST
  }

  /** The choices for names, without those whose breaker is open. */
  function LatencyChoices(around: Surroundings, names: seq<string>): seq<Choice> {
    if names == [] then []
    else
      var rest := LatencyChoices(around, names[1..]);
      if around.circuit(names[0]) == Open then rest
      else [Choice(names[0], 0.0, EffectiveLatency(around, names[0]))] + rest
  }

  function CostChoices(around: Surroundings, targets: seq<RawTarget>): seq<Choice> {
    if targets == [] then []
    else
      var t, rest := targets[0], CostChoices(around, targets[1..]);
      if around.circuit(t.provider) == Open then rest
      else [Choice(t.provider, EffectiveCost(around, t), EffectiveLatency(around, t.provider))] + rest
  }

  function Least(choices: seq<Choice>, key: Choice -> real): real
    requires choices != []
  {
    if |choices| == 1 then key(choices[0])
    else
      var rest := Least(choices[1..], key);
      if key(choices[0]) < rest then key(choices[0]) else rest
  }

  /** The choices that share the least key. */
  function LeastChoices(choices: seq<Choice>, key: Choice -> real): seq<Choice>
    requires choices != []
  {
    var least := Least(choices, key);
    Filter((c: Choice) => key(c) == least, choices)
  }

  /** Choices that tie are told apart by the seed. */
  function TieBreak(pool: seq<Choice>, seed: string): Option<string> {
    if pool == [] then None else Some(pool[if |pool| == 1 then 0 else SeedNumber(seed) % |pool|].provider)
  }

  function ResolveLatency(around: Surroundings, r: Rule, seed: string): Option<string> {
    var names := TrimmedNames(r.latencyTargets);
    var choices := LatencyChoices(around, names);
    if |names| < 2 || choices == [] then None
    else TieBreak(LeastChoices(choices, (c: Choice) => c.latency), seed)
  }

  function ResolveCost(around: Surroundings, r: Rule, seed: string): Option<string> {
    var choices := CostChoices(around, NamedTargets(r.costTargets));
    if choices == [] then None
    else
      var cheapest := LeastChoices(choices, (c: Choice) => c.cost);
      if cheapest == [] then None
      else TieBreak(LeastChoices(cheapest, (c: Choice) => c.latency), seed)
  }

  function ClosedTargets(around: Surroundings, targets: seq<Target>): seq<Target> {
    Filter((t: Target) => around.circuit(t.provider) != Open, targets)
  }

  function ResolveWeighted(around: Surroundings, r: Rule, seed: string): Option<string> {
    var available := ClosedTargets(around, NormalizedTargets(r.weightedTargets));
    if available == [] then None else Some(PickWeighted(available, seed))
  }

  function ToFallback(fallback: string): Option<Hit> {
    if fallback == "" then None else Some(Hit(fallback, true))
  }

  function ResolvePrimaryFallback(around: Surroundings, r: Rule, seed: string): Option<Hit> {
    var primary, fallback := Trim(r.primary), Trim(r.fallback);
    if primary == "" then None
    else
      match around.circuit(primary)
      case Open => ToFallback(fallback)
      case HalfOpen => if around.allows(primary) then Some(Hit(primary, false)) else ToFallback(fallback)
      case Closed =>
        var targets := PrimaryFallbackTargets(r);
        if targets == [] then None else Some(Hit(PickWeighted(targets, seed), false))
  }

  function Plain(provider: Option<string>): Option<Hit> {
    if provider.None? then None else Some(Hit(provider.value, false))
  }

  function Resolve(around: Surroundings, r: Rule, seed: string): Option<Hit> {
    match r.strategy
    case Fixed => if Trim(r.fixedProvider) == "" then None else Some(Hit(Trim(r.fixedProvider), false))
    case Weighted => Plain(ResolveWeighted(around, r, seed))
    case PrimaryFallback => ResolvePrimaryFallback(around, r, seed)
    case Latency => Plain(ResolveLatency(around, r, seed))
    case Cost => Plain(ResolveCost(around, r, seed))
    case Unsupported => None
  }

  /** The first of the ranked candidates decides; there is no second try with the next one. */
  function ResolveTop(around: Surroundings, candidates: seq<Rule>, apiKey: string, model: string): Option<RuleHit> {
    if candidates == [] then None
    else
      var top := Ranked(candidates, apiKey)[0];
      var hit := Resolve(around, top, Seed(apiKey, model, top.id));
      if hit.None? then None else Some(RuleHit(top.id, hit.value))
  }

  function TryResolveFromRules(around: Surroundings, rules: seq<Rule>, model: string, apiKey: string, at: int)
    : Option<RuleHit>
  {
    ResolveTop(around, Candidates(rules, apiKey, at), apiKey, model)
  }

  function SimulateFromRules(around: Surroundings, rules: seq<Rule>, model: string, apiKey: string, at: int)
    : Option<RuleHit>
  {
    ResolveTop(around, SimulatedCandidates(rules, apiKey, at), apiKey, model)
  }
}
