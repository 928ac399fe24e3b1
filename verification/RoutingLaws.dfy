/** Where a routing hit comes from: the rule that was in force, and what its strategy says, on the rule's own data. */
module RoutingLaws {
  import opened Options
  import opened Text
  import opened Weights
  import opened CircuitBreaker
  import opened Routing
  import opened RoutingProperties

  // ----- names -----

  /** Trimming takes the blanks at both ends away and nothing else. */
  lemma TrimTakesBlanksAway(s: string) returns (before: string, after: string)
    ensures s == before + Trim(s) + after
    ensures forall c :: c in before || c in after ==> IsSpace(c)
    ensures Trim(s) != "" ==> !IsSpace(Trim(s)[0]) && !IsSpace(Trim(s)[|Trim(s)| - 1])
  {
    before := TrimStartTakes(s);
    after := TrimEndTakes(TrimStart(s));
  }

  lemma {:induction false} TrimStartTakes(s: string) returns (before: string)
    ensures s == before + TrimStart(s) && forall c :: c in before ==> IsSpace(c)
    ensures TrimStart(s) != "" ==> !IsSpace(TrimStart(s)[0])
    decreases |s|
  {
    before := "";
    if s != "" && IsSpace(s[0]) {
      before := TrimStartTakes(s[1..]);
      before := [s[0]] + before;
    }
  }

  lemma {:induction false} TrimEndTakes(s: string) returns (after: string)
    ensures s == TrimEnd(s) + after && forall c :: c in after ==> IsSpace(c)
    ensures TrimEnd(s) != "" ==> TrimEnd(s)[0] == s[0] && !IsSpace(TrimEnd(s)[|TrimEnd(s)| - 1])
    decreases |s|
  {
    after := "";
    if s != "" && IsSpace(s[|s| - 1]) {
      after := TrimEndTakes(s[..|s| - 1]);
      after := after + [s[|s| - 1]];
      assert s == s[..|s| - 1] + [s[|s| - 1]];
    }
  }

  // ----- the rule -----

  /** Enabled, inside its window, ends included, and for every client or for this one. */
  predicate InForce(r: Rule, apiKey: string, at: int) {
    && r.enabled == Some(true)
    && (r.effectiveFrom == None || r.effectiveFrom.value <= at)
    && (r.effectiveUntil == None || at <= r.effectiveUntil.value)
    && (Trim(r.apiKey) == "" || Trim(r.apiKey) == apiKey)
  }

  /** The weights, 100 and 0 where unset, split the traffic, if there is a fallback to split it with. */
  predicate CanSplitTraffic(r: Rule) {
    Trim(r.fallback) == "" ||
    (&& (r.primaryWeight.Unset? || (r.primaryWeight.Finite? && r.primaryWeight.value >= 0.0))
     && (r.fallbackWeight.Unset? || (r.fallbackWeight.Finite? && r.fallbackWeight.value >= 0.0)))
  }

  predicate HasWeight(t: RawTarget) {
    Trim(t.provider) != "" && t.amount.Some? && t.amount.value > 0.0
  }

  ghost predicate TwoAreNamed(names: seq<string>) {
    exists i, j :: 0 <= i < j < |names| && Trim(names[i]) != "" && Trim(names[j]) != ""
  }

  /** The strategy has what it needs. */
  ghost predicate IsComplete(r: Rule) {
    match r.strategy
    case Fixed => Trim(r.fixedProvider) != ""
    case Weighted => exists t :: t in r.weightedTargets && HasWeight(t)
    case PrimaryFallback => Trim(r.primary) != "" && CanSplitTraffic(r)
    case Latency => TwoAreNamed(r.latencyTargets)
    case Cost => exists t :: t in r.costTargets && Trim(t.provider) != ""
    case Unsupported => false
  }

  /** The rule names this client, or it names none. */
  predicate Names(r: Rule, apiKey: string) {
    Trim(r.apiKey) != "" && Trim(r.apiKey) == apiKey
  }

  lemma {:induction false} WeightsAddUp(raw: seq<RawTarget>)
    ensures Sum(NormalizedTargets(raw)) >= 0.0
    ensures NormalizedTargets(raw) != [] ==> Sum(NormalizedTargets(raw)) > 0.0
  {
    if raw == [] {
    } else {
      WeightsAddUp(raw[1..]);
    }
  }

  /** The weighted targets are the items with a weight, their names trimmed. */
  lemma {:induction false} WeightedItems(raw: seq<RawTarget>)
    ensures forall t :: t in NormalizedTargets(raw) <==>
      exists item :: item in raw && HasWeight(item) && t == Target(Trim(item.provider), item.amount.value)
    decreases |raw|
  {
    if raw == [] {
    } else {
      WeightedItems(raw[1..]);
      assert forall item :: item in raw <==> item == raw[0] || item in raw[1..];
    }
  }

  function TrimmedItem(t: RawTarget): RawTarget {
    t.(provider := Trim(t.provider))
  }

  lemma {:induction false} NamedItems(targets: seq<RawTarget>)
    ensures forall t :: t in NamedTargets(targets) <==>
      exists item :: item in targets && Trim(item.provider) != "" && t == TrimmedItem(item)
    decreases |targets|
  {
    if targets == [] {
    } else {
      NamedItems(targets[1..]);
      assert forall item :: item in targets <==> item == targets[0] || item in targets[1..];
    }
  }

  lemma {:induction false} NamesAreTrimmed(names: seq<string>)
    ensures forall n :: n in TrimmedNames(names) <==> exists name :: name in names && Trim(name) == n != ""
    decreases |names|
  {
    if names == [] {
    } else {
      NamesAreTrimmed(names[1..]);
      assert forall name :: name in names <==> name == names[0] || name in names[1..];
    }
  }

  lemma {:induction false} TwoNames(names: seq<string>)
    ensures |TrimmedNames(names)| >= 2 <==> TwoAreNamed(names)
    decreases |names|
  {
    if names == [] {
    } else {
      var rest := names[1..];
      TwoNames(rest);
      NamesAreTrimmed(rest);
      assert forall i :: 0 < i < |names| ==> names[i] == rest[i - 1];
      assert forall i :: 0 <= i < |rest| ==> rest[i] == names[i + 1];
      if Trim(names[0]) != "" {
        if i, j :| 0 <= i < j < |names| && Trim(names[i]) != "" && Trim(names[j]) != "" {
          assert names[j] in rest && Trim(names[j]) in TrimmedNames(rest);
        }
        if TrimmedNames(rest) != [] {
          assert TrimmedNames(rest)[0] in TrimmedNames(rest);
          var name :| name in rest && Trim(name) == TrimmedNames(rest)[0];
          var i :| 0 <= i < |rest| && rest[i] == name;
          assert Trim(names[0]) != "" && Trim(names[i + 1]) != "";
        }
      }
    }
  }

  lemma CompleteRulesResolve(r: Rule)
    ensures CanResolve(r) <==> IsComplete(r)
  {
    match r.strategy
    case Weighted =>
      WeightsAddUp(r.weightedTargets);
      WeightedItems(r.weightedTargets);
      SomeWeighted(r.weightedTargets);
    case Latency => TwoNames(r.latencyTargets);
    case Cost => SomeNamed(r.costTargets);
    case _ =>
  }

  lemma SomeWeighted(raw: seq<RawTarget>)
    ensures NormalizedTargets(raw) != [] <==> exists t :: t in raw && HasWeight(t)
  {
    WeightedItems(raw);
    var targets := NormalizedTargets(raw);
    if targets != [] { assert targets[0] in targets; }
    if t :| t in raw && HasWeight(t) { assert Target(Trim(t.provider), t.amount.value) in targets; }
  }

  lemma SomeNamed(raw: seq<RawTarget>)
    ensures NamedTargets(raw) != [] <==> exists t :: t in raw && Trim(t.provider) != ""
  {
    NamedItems(raw);
    var targets := NamedTargets(raw);
    if targets != [] { assert targets[0] in targets; }
    if t :| t in raw && Trim(t.provider) != "" { assert TrimmedItem(t) in targets; }
  }

  lemma CandidatesAreCompleteRulesInForce(r: Rule, apiKey: string, at: int)
    ensures IsCandidate(r, apiKey, at) <==> InForce(r, apiKey, at) && IsComplete(r)
  {
    CompleteRulesResolve(r);
  }

  /** The rule that decides: complete, in force, and before every other such rule, the rules that name the client
      first and then those of higher priority. */
  ghost predicate Decides(rules: seq<Rule>, apiKey: string, at: int, r: Rule) {
    && r in rules && InForce(r, apiKey, at) && IsComplete(r)
    && forall other :: other in rules && InForce(other, apiKey, at) && IsComplete(other) ==>
      if Names(r, apiKey) == Names(other, apiKey) then other.priority <= r.priority else Names(r, apiKey)
  }

  /** A hit comes from a rule that decides, with what the rule resolves to; there is none exactly when no rule is
      complete and in force, or when the deciding one resolves to nothing. */
  lemma HitsComeFromRulesInForce(around: Surroundings, rules: seq<Rule>, model: string, apiKey: string, at: int)
    returns (top: Option<Rule>)
    ensures top == None ==> forall r :: r in rules ==> !(InForce(r, apiKey, at) && IsComplete(r))
    ensures top.Some? ==> Decides(rules, apiKey, at, top.value)
    ensures TryResolveFromRules(around, rules, model, apiKey, at) ==
      if top == None then None
      else
        match Resolve(around, top.value, apiKey + "\U{1C}" + model + "\U{1C}" + top.value.id)
        case None => None
        case Some(hit) => Some(RuleHit(top.value.id, hit))
  {
    var candidates := Candidates(rules, apiKey, at);
    FilterMembers((r: Rule) => IsCandidate(r, apiKey, at), rules);
    forall r | r in rules
      ensures r in candidates <==> InForce(r, apiKey, at) && IsComplete(r)
    {
      CandidatesAreCompleteRulesInForce(r, apiKey, at);
    }
    if candidates == [] {
      top := None;
    } else {
      var k := RankedFront(candidates, apiKey);
      top := Some(candidates[k]);
      FrontDecides(rules, candidates, apiKey, at, k);
    }
  }

  lemma FrontDecides(rules: seq<Rule>, candidates: seq<Rule>, apiKey: string, at: int, k: nat)
    requires IsFirstBest(candidates, apiKey, k) && forall r :: r in candidates ==> r in rules
    requires forall r :: r in rules ==> (r in candidates <==> InForce(r, apiKey, at) && IsComplete(r))
    ensures Decides(rules, apiKey, at, candidates[k])
  {
    var r := candidates[k];
    forall other | other in rules && InForce(other, apiKey, at) && IsComplete(other)
      ensures if Names(r, apiKey) == Names(other, apiKey) then other.priority <= r.priority else Names(r, apiKey)
    {
      var i :| 0 <= i < |candidates| && candidates[i] == other;
      assert !Ahead(candidates[i], candidates[k], apiKey);
    }
  }

  // ----- what the strategies say -----

  /** A provider's average latency, or 5 seconds when fewer than 10 samples are known. */
  function LatencyOf(around: Surroundings, provider: string): real {
    if around.health(provider).sampleCount >= 10 then around.health(provider).avgLatency else 5000.0
  }

  /** The target's own cost, or the provider's, or a high one. */
  function CostOf(around: Surroundings, t: RawTarget): real {
    if t.amount.Some? then t.amount.value
    else if around.runtimeCost(Trim(t.provider)).Some? then around.runtimeCost(Trim(t.provider)).value
    else 999999.0
  }

  predicate Usable(around: Surroundings, name: string) {
    Trim(name) != "" && around.circuit(Trim(name)) != Open
  }

  /** A fixed rule always gives its provider. */
  lemma FixedGivesItsProvider(around: Surroundings, r: Rule, seed: string)
    requires r.strategy == Fixed && IsComplete(r)
    ensures Resolve(around, r, seed) == Some(Hit(Trim(r.fixedProvider), false))
  {
  }

  /** A latency rule gives one of its targets whose breaker is not open, none of them faster; nothing exactly when
      all of them are open. */
  lemma LatencyGivesTheFastest(around: Surroundings, r: Rule, seed: string)
    requires r.strategy == Latency && IsComplete(r)
    ensures match Resolve(around, r, seed)
      case None => forall name :: name in r.latencyTargets ==> !Usable(around, name)
      case Some(hit) =>
        && !hit.failover
        && (exists name :: name in r.latencyTargets && Usable(around, name) && Trim(name) == hit.provider)
        && forall name :: name in r.latencyTargets && Usable(around, name) ==>
          LatencyOf(around, hit.provider) <= LatencyOf(around, Trim(name))
  {
    LatencyPicksTheFastest(around, r, seed);
    NamesAreTrimmed(r.latencyTargets);
    TwoNames(r.latencyTargets);
    var names := TrimmedNames(r.latencyTargets);
    forall name | name in r.latencyTargets && Trim(name) != "" ensures Trim(name) in names {}
  }

  lemma TrimmedChoice(around: Surroundings, t: RawTarget)
    ensures ChoiceOf(around, TrimmedItem(t)) ==
      Choice(Trim(t.provider), CostOf(around, t), LatencyOf(around, Trim(t.provider)))
  {
  }

  /** Cheaper, or as cheap and no slower. */
  predicate IsNoWorse(around: Surroundings, t: RawTarget, u: RawTarget) {
    || CostOf(around, t) < CostOf(around, u)
    || (CostOf(around, t) == CostOf(around, u) &&
        LatencyOf(around, Trim(t.provider)) <= LatencyOf(around, Trim(u.provider)))
  }

  lemma CheapestItem(around: Surroundings, raw: seq<RawTarget>, t: RawTarget) returns (best: RawTarget)
    requires IsCheapest(around, NamedTargets(raw), t)
    ensures best in raw && Usable(around, best.provider) && Trim(best.provider) == t.provider
    ensures forall u :: u in raw && Usable(around, u.provider) ==> IsNoWorse(around, best, u)
  {
    best := ItemOf(raw, t);
    forall u | u in raw && Usable(around, u.provider) ensures IsNoWorse(around, best, u) {
      NamedItems(raw);
      assert TrimmedItem(u) in NamedTargets(raw);
      NoTargetIsBetter(around, NamedTargets(raw), best, u);
    }
  }

  lemma ItemOf(raw: seq<RawTarget>, t: RawTarget) returns (item: RawTarget)
    requires t in NamedTargets(raw)
    ensures item in raw && Trim(item.provider) != "" && t == TrimmedItem(item)
  {
    NamedItems(raw);
    item :| item in raw && Trim(item.provider) != "" && t == TrimmedItem(item);
  }

  lemma NoTargetIsBetter(around: Surroundings, targets: seq<RawTarget>, best: RawTarget, u: RawTarget)
    requires IsCheapest(around, targets, TrimmedItem(best)) && TrimmedItem(u) in targets
    requires around.circuit(Trim(u.provider)) != Open
    ensures IsNoWorse(around, best, u)
  {
    TrimmedChoice(around, best);
    TrimmedChoice(around, u);
  }

  /** A cost rule gives the target of a cheapest item whose breaker is not open, none as cheap being faster; nothing
      exactly when all of them are open. */
  lemma CostGivesTheCheapest(around: Surroundings, r: Rule, seed: string)
    requires r.strategy == Cost && IsComplete(r)
    ensures match Resolve(around, r, seed)
      case None => forall t :: t in r.costTargets ==> !Usable(around, t.provider)
      case Some(hit) =>
        !hit.failover && exists t ::
          && t in r.costTargets && Usable(around, t.provider) && Trim(t.provider) == hit.provider
          && forall u :: u in r.costTargets && Usable(around, u.provider) ==> IsNoWorse(around, t, u)
  {
    CostPicksTheCheapest(around, r, seed);
    var targets := NamedTargets(r.costTargets);
    if Resolve(around, r, seed).Some? {
      var t :| IsCheapest(around, targets, t) && t.provider == Resolve(around, r, seed).value.provider;
      var best := CheapestItem(around, r.costTargets, t);
    } else {
      NamedItems(r.costTargets);
      forall t | t in r.costTargets && Trim(t.provider) != "" ensures !Usable(around, t.provider) {
        assert TrimmedItem(t) in targets;
      }
    }
  }

  // ----- shares and ties -----

  predicate Shares(around: Surroundings, t: RawTarget) {
    HasWeight(t) && around.circuit(Trim(t.provider)) != Open
  }

  /** The weights of the items that take part, added up. */
  function TotalWeight(around: Surroundings, raw: seq<RawTarget>): real {
    if raw == [] then 0.0
    else
      var earlier, last := TotalWeight(around, raw[..|raw| - 1]), raw[|raw| - 1];
      if Shares(around, last) then earlier + last.amount.value else earlier
  }

  ghost function Available(around: Surroundings, raw: seq<RawTarget>): seq<Target> {
    ClosedTargets(around, NormalizedTargets(raw))
  }

  lemma {:induction false} AvailableGrows(around: Surroundings, raw: seq<RawTarget>, i: nat)
    requires i < |raw|
    ensures Available(around, raw[..i + 1]) == Available(around, raw[..i]) +
      if Shares(around, raw[i]) then [Target(Trim(raw[i].provider), raw[i].amount.value)] else []
    decreases i
  {
    if i == 0 {
      assert raw[..0] == [] && raw[..1] == [raw[0]] && raw[..1][1..] == [];
    } else {
      AvailableGrows(around, raw[1..], i - 1);
      assert raw[..i][1..] == raw[1..][..i - 1] && raw[..i + 1][1..] == raw[1..][..i];
    }
  }

  lemma SumGrows(a: seq<Target>, t: Target)
    ensures Sum(a + [t]) == Sum(a) + t.weight
  {
    SplitSum(a + [t], |a|);
    assert (a + [t])[..|a|] == a;
  }

  lemma {:induction false} AvailableWeighs(around: Surroundings, raw: seq<RawTarget>, i: nat)
    requires i <= |raw|
    ensures Sum(Available(around, raw[..i])) == TotalWeight(around, raw[..i])
    ensures NoNegativeWeights(Available(around, raw[..i]))
    decreases i
  {
    if i == 0 {
      assert raw[..0] == [];
    } else {
      AvailableWeighs(around, raw, i - 1);
      AvailableGrows(around, raw, i - 1);
      assert raw[..i][..i - 1] == raw[..i - 1] && raw[..i][i - 1] == raw[i - 1];
      if Shares(around, raw[i - 1]) {
        SumGrows(Available(around, raw[..i - 1]), Target(Trim(raw[i - 1].provider), raw[i - 1].amount.value));
      } else {
        assert Available(around, raw[..i]) == Available(around, raw[..i - 1]);
      }
    }
  }

  lemma {:induction false} AvailableKeepsItsStart(around: Surroundings, raw: seq<RawTarget>, i: nat, n: nat)
    requires i <= n <= |raw|
    ensures Available(around, raw[..i]) <= Available(around, raw[..n])
    decreases n - i
  {
    if i == n {
    } else {
      AvailableKeepsItsStart(around, raw, i, n - 1);
      AvailableGrows(around, raw, n - 1);
    }
  }

  /** A weighted rule splits the traffic among its weighted items whose breaker is not open, in their order: it
      gives item i when the bucket of the seed lies in its share, which starts where the shares before it end. */
  lemma WeightedSplitsByShare(around: Surroundings, r: Rule, seed: string, i: nat)
    requires r.strategy == Weighted && i < |r.weightedTargets| && Shares(around, r.weightedTargets[i])
    ensures var raw := r.weightedTargets;
      var total, start := TotalWeight(around, raw), TotalWeight(around, raw[..i]);
      && total > 0.0
      && (start <= StableBucket(seed, total) < start + raw[i].amount.value ==>
          Resolve(around, r, seed) == Some(Hit(Trim(raw[i].provider), false)))
  {
    var raw := r.weightedTargets;
    var all, before := Available(around, raw), Available(around, raw[..i]);
    assert raw[..|raw|] == raw;
    AvailableGrows(around, raw, i);
    AvailableKeepsItsStart(around, raw, i + 1, |raw|);
    AvailableWeighs(around, raw, i);
    AvailableWeighs(around, raw, |raw|);
    assert all[..|before|] == before && all[|before|] == Target(Trim(raw[i].provider), raw[i].amount.value);
    SplitSum(all, |before|);
    AllWeighSomething(all, |before|);
    BucketInRange(SeedNumber(seed), Sum(all));
    SharesAreTheWeights(all, StableBucket(seed, Sum(all)), |before|);
  }

  lemma AllWeighSomething(targets: seq<Target>, i: nat)
    requires NoNegativeWeights(targets) && i < |targets| && targets[i].weight > 0.0
    ensures Sum(targets) > 0.0
  {
    SplitSum(targets, i);
    SumIsNotNegative(targets[..i]);
    SumIsNotNegative(targets[i + 1..]);
  }

  /** And nothing exactly when no item takes part. */
  lemma WeightedGivesNothingWhenAllAreOpen(around: Surroundings, r: Rule, seed: string)
    requires r.strategy == Weighted
    ensures Resolve(around, r, seed) == None <==> forall t :: t in r.weightedTargets ==> !Shares(around, t)
  {
    WeightedAvoidsOpen(around, r, seed);
    WeightedItems(r.weightedTargets);
    forall t | t in r.weightedTargets && HasWeight(t)
      ensures Target(Trim(t.provider), t.amount.value) in NormalizedTargets(r.weightedTargets)
    {}
  }

  /** Choices that tie share the seeds evenly: the hash of the seed counts round the pool. */
  lemma TiesGoRound(pool: seq<Choice>, seed: string)
    requires pool != []
    ensures TieBreak(pool, seed) == Some(pool[SeedNumber(seed) % |pool|].provider)
  {
  }

  /** A primary is used while it is admitted, alone or with its share of the traffic, and else its fallback. */
  lemma PrimaryOrFallback(around: Surroundings, r: Rule, seed: string)
    requires r.strategy == PrimaryFallback && IsComplete(r)
    ensures var primary, fallback := Trim(r.primary), Trim(r.fallback);
      var pw := if r.primaryWeight.Finite? then r.primaryWeight.value else 100.0;
      var fw := if r.fallbackWeight.Finite? then r.fallbackWeight.value else 0.0;
      var refused :=
        around.circuit(primary) == Open || (around.circuit(primary) == HalfOpen && !around.allows(primary));
      Resolve(around, r, seed) ==
        if refused then (if fallback == "" then None else Some(Hit(fallback, true)))
        else if around.circuit(primary) == HalfOpen || fallback == "" || fw == 0.0 then Some(Hit(primary, false))
        else Some(Hit(if StableBucket(seed, pw + fw) < pw then primary else fallback, false))
  {
    if around.circuit(Trim(r.primary)) == Closed {
      var targets := PrimaryFallbackTargets(r);
      if |targets| == 2 {
        assert Sum(targets) == targets[0].weight + (targets[1].weight + Sum(targets[2..]));
        assert Sum(targets[1..]) == targets[1].weight + Sum(targets[1..][1..]);
        BucketInRange(SeedNumber(seed), Sum(targets));
      }
    }
  }

  /** Different clients, models and rules have different seeds, as long as no name holds the separator. */
  lemma SeedsDiffer(a: string, model: string, id: string, a': string, model': string, id': string)
    requires '\U{1C}' !in a && '\U{1C}' !in a' && '\U{1C}' !in model && '\U{1C}' !in model'
    requires Seed(a, model, id) == Seed(a', model', id')
    ensures a == a' && model == model' && id == id'
  {
    var sep := "\U{1C}";
    assert Seed(a, model, id) == a + sep + (model + sep + id);
    assert Seed(a', model', id') == a' + sep + (model' + sep + id');
    Prefixes(a, model + sep + id, a', model' + sep + id');
    Prefixes(model, id, model', id');
  }

  lemma Prefixes(a: string, rest: string, a': string, rest': string)
    requires '\U{1C}' !in a && '\U{1C}' !in a' && a + "\U{1C}" + rest == a' + "\U{1C}" + rest'
    ensures a == a' && rest == rest'
  {
    var s, s' := a + "\U{1C}" + rest, a' + "\U{1C}" + rest';
    FirstSeparator(a, rest);
    FirstSeparator(a', rest');
    assert |a| == |a'|;
    assert s[..|a|] == a && s'[..|a'|] == a' && s[|a| + 1..] == rest && s'[|a'| + 1..] == rest';
  }

  lemma FirstSeparator(a: string, rest: string)
    requires '\U{1C}' !in a
    ensures var s := a + "\U{1C}" + rest;
      s[|a|] == '\U{1C}' && forall k :: 0 <= k < |a| ==> s[k] != '\U{1C}'
  {
    forall k | 0 <= k < |a| ensures (a + "\U{1C}" + rest)[k] != '\U{1C}' { assert a[k] in a; }
  }
}
