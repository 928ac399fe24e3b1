/** The winner among routing rules, and what each strategy promises about the provider it picks. */
module RoutingProperties {
  import opened Options
  import opened Text
  import opened Weights
  import opened CircuitBreaker
  import opened Routing

  // ----- the winner -----

  /** The first of the rules that none is ahead of. */
  ghost predicate IsFirstBest(rules: seq<Rule>, apiKey: string, k: nat) {
    && k < |rules|
    && (forall i :: 0 <= i < |rules| ==> !Ahead(rules[i], rules[k], apiKey))
    && forall i :: 0 <= i < k ==> Ahead(rules[k], rules[i], apiKey)
  }

  /** Ranking puts the first best rule in front. */
  lemma {:induction false} RankedFront(rules: seq<Rule>, apiKey: string) returns (k: nat)
    requires rules != []
    ensures IsFirstBest(rules, apiKey, k) && Ranked(rules, apiKey)[0] == rules[k]
    decreases |rules|
  {
    var before, last := rules[..|rules| - 1], rules[|rules| - 1];
    assert rules == before + [last];
    if before == [] {
      k := 0;
    } else {
      var j := RankedFront(before, apiKey);
      k := if Ahead(last, before[j], apiKey) then |before| else j;
    }
  }

  lemma {:induction false} InsertKeepsAll(sorted: seq<Rule>, r: Rule, apiKey: string)
    ensures multiset(Insert(sorted, r, apiKey)) == multiset(sorted) + multiset{r}
    decreases |sorted|
  {
    if sorted != [] && !Ahead(r, sorted[0], apiKey) {
      InsertKeepsAll(sorted[1..], r, apiKey);
      assert sorted == [sorted[0]] + sorted[1..];
    }
  }

  /** Nothing later in the list is ahead of something earlier. */
  ghost predicate IsOrdered(rules: seq<Rule>, apiKey: string) {
    forall i, j :: 0 <= i < j < |rules| ==> !Ahead(rules[j], rules[i], apiKey)
  }

  lemma {:induction false} InsertKeepsOrder(sorted: seq<Rule>, r: Rule, apiKey: string)
    requires IsOrdered(sorted, apiKey)
    ensures IsOrdered(Insert(sorted, r, apiKey), apiKey)
    decreases |sorted|
  {
    if sorted != [] && !Ahead(r, sorted[0], apiKey) {
      var rest := Insert(sorted[1..], r, apiKey);
      InsertKeepsOrder(sorted[1..], r, apiKey);
      InsertKeepsAll(sorted[1..], r, apiKey);
      forall j | 0 <= j < |rest| ensures !Ahead(rest[j], sorted[0], apiKey) {
        assert rest[j] in multiset(rest);
      }
      PrependKeepsOrder(sorted[0], rest, apiKey);
    }
  }

  lemma PrependKeepsOrder(first: Rule, rest: seq<Rule>, apiKey: string)
    requires IsOrdered(rest, apiKey) && forall j :: 0 <= j < |rest| ==> !Ahead(rest[j], first, apiKey)
    ensures IsOrdered([first] + rest, apiKey)
  {
  }

  lemma WithTheLast(rules: seq<Rule>)
    requires rules != []
    ensures multiset(rules) == multiset(rules[..|rules| - 1]) + multiset{rules[|rules| - 1]}
  {
    assert rules == rules[..|rules| - 1] + [rules[|rules| - 1]];
  }

  lemma {:induction false} RankingKeepsAll(rules: seq<Rule>, apiKey: string)
    ensures multiset(Ranked(rules, apiKey)) == multiset(rules)
    decreases |rules|
  {
    if rules == [] {
    } else {
      var before, last := rules[..|rules| - 1], rules[|rules| - 1];
      RankingKeepsAll(before, apiKey);
      InsertKeepsAll(Ranked(before, apiKey), last, apiKey);
      WithTheLast(rules);
    }
  }

  lemma {:induction false} RankingOrders(rules: seq<Rule>, apiKey: string)
    ensures IsOrdered(Ranked(rules, apiKey), apiKey)
    decreases |rules|
  {
    if rules == [] {
    } else {
      var ranked := Ranked(rules[..|rules| - 1], apiKey);
      RankingOrders(rules[..|rules| - 1], apiKey);
      InsertKeepsOrder(ranked, rules[|rules| - 1], apiKey);
    }
  }

  /** The candidates sorted: the same rules, the more specific first and then the higher priority. */
  lemma RankingSorts(rules: seq<Rule>, apiKey: string)
    ensures multiset(Ranked(rules, apiKey)) == multiset(rules) && IsOrdered(Ranked(rules, apiKey), apiKey)
  {
    RankingKeepsAll(rules, apiKey);
    RankingOrders(rules, apiKey);
  }

  predicate Ties(a: Rule, b: Rule, apiKey: string) {
    IsSpecific(a, apiKey) == IsSpecific(b, apiKey) && a.priority == b.priority
  }

  /** No other rule shares the winner's specificity and priority. */
  ghost predicate NoRival(rules: seq<Rule>, apiKey: string)
    requires rules != []
  {
    forall r :: r in rules && Ties(r, Ranked(rules, apiKey)[0], apiKey) ==> r == Ranked(rules, apiKey)[0]
  }

  lemma SameRules(a: seq<Rule>, b: seq<Rule>)
    requires multiset(a) == multiset(b)
    ensures forall r :: r in a <==> r in b
    ensures |a| == |b|
  {
    forall r ensures r in a <==> r in b {
      assert r in multiset(a) <==> r in multiset(b);
    }
    assert |multiset(a)| == |a| && |multiset(b)| == |b|;
  }

  lemma WinnerAnyOrder(a: seq<Rule>, b: seq<Rule>, apiKey: string)
    requires a != [] && multiset(a) == multiset(b) && NoRival(a, apiKey)
    ensures b != [] && Ranked(b, apiKey)[0] == Ranked(a, apiKey)[0]
  {
    SameRules(a, b);
    var j := RankedFront(a, apiKey);
    var k := RankedFront(b, apiKey);
    assert b[k] in a && a[j] in b;
    var i :| 0 <= i < |a| && a[i] == b[k];
    var l :| 0 <= l < |b| && b[l] == a[j];
    assert !Ahead(a[i], a[j], apiKey) && !Ahead(b[l], b[k], apiKey);
  }

  /** The same rules with rule i fetched first. */
  function FetchedFirst(rules: seq<Rule>, i: nat): seq<Rule>
    requires i < |rules|
  {
    [rules[i]] + rules[..i] + rules[i + 1..]
  }

  lemma FetchedFirstIsTheSameRules(rules: seq<Rule>, i: nat)
    requires i < |rules|
    ensures multiset(FetchedFirst(rules, i)) == multiset(rules)
  {
    assert rules == rules[..i] + [rules[i]] + rules[i + 1..];
  }

  /** A rival wins when it is fetched first. */
  lemma RivalWinsFirst(rules: seq<Rule>, apiKey: string, i: nat)
    requires i < |rules| && Ties(rules[i], Ranked(rules, apiKey)[0], apiKey)
    ensures Ranked(FetchedFirst(rules, i), apiKey)[0] == rules[i]
  {
    var other := FetchedFirst(rules, i);
    FetchedFirstIsTheSameRules(rules, i);
    SameRules(rules, other);
    var j := RankedFront(rules, apiKey);
    var k := RankedFront(other, apiKey);
    assert other[k] in rules;
    var l :| 0 <= l < |rules| && rules[l] == other[k];
    assert !Ahead(rules[l], rules[j], apiKey);
    assert other[0] == rules[i];
  }

  ghost predicate SameWinner(a: seq<Rule>, b: seq<Rule>, apiKey: string) {
    a != [] && b != [] && Ranked(a, apiKey)[0] == Ranked(b, apiKey)[0]
  }

  /** The winner does not depend on the order in which rules are fetched exactly when it has no rival. */
  lemma WinnerIgnoresFetchOrder(rules: seq<Rule>, apiKey: string)
    requires rules != []
    ensures NoRival(rules, apiKey) <==>
      forall other :: multiset(other) == multiset(rules) ==> SameWinner(rules, other, apiKey)
  {
    if NoRival(rules, apiKey) {
      forall other | multiset(other) == multiset(rules)
        ensures SameWinner(rules, other, apiKey)
      {
        WinnerAnyOrder(rules, other, apiKey);
      }
    } else {
      var r :| r in rules && Ties(r, Ranked(rules, apiKey)[0], apiKey) && r != Ranked(rules, apiKey)[0];
      var i :| 0 <= i < |rules| && rules[i] == r;
      RivalWinsFirst(rules, apiKey, i);
      FetchedFirstIsTheSameRules(rules, i);
      assert !SameWinner(rules, FetchedFirst(rules, i), apiKey);
    }
  }

  // ----- simulation and production -----

  lemma {:induction false} FilterCounts<T>(keep: T -> bool, s: seq<T>, x: T)
    ensures multiset(Filter(keep, s))[x] == if keep(x) then multiset(s)[x] else 0
    decreases |s|
  {
    if s == [] {
    } else {
      FilterCounts(keep, s[1..], x);
      assert s == [s[0]] + s[1..];
    }
  }

  lemma FilterPermutes(keep: Rule -> bool, a: seq<Rule>, b: seq<Rule>)
    requires multiset(a) == multiset(b)
    ensures multiset(Filter(keep, a)) == multiset(Filter(keep, b))
  {
    forall x: Rule ensures multiset(Filter(keep, a))[x] == multiset(Filter(keep, b))[x] {
      FilterCounts(keep, a, x);
      FilterCounts(keep, b, x);
    }
  }

  lemma {:induction false} FilterAgrees<T>(f: T -> bool, g: T -> bool, s: seq<T>)
    requires forall x :: x in s ==> f(x) == g(x)
    ensures Filter(f, s) == Filter(g, s)
    decreases |s|
  {
    if s == [] {
    } else {
      FilterAgrees(f, g, s[1..]);
    }
  }

  /** Every rule that would be a candidate says whether it is enabled. */
  ghost predicate FlagsAreSet(rules: seq<Rule>, apiKey: string, at: int) {
    forall r :: r in rules && IsEligible(r, apiKey, at) ==> r.enabled.Some?
  }

  /** Production and simulation consider the same rules exactly when no eligible rule lacks the flag. */
  lemma SameCandidates(rules: seq<Rule>, apiKey: string, at: int)
    ensures Candidates(rules, apiKey, at) == SimulatedCandidates(rules, apiKey, at) <==>
      FlagsAreSet(rules, apiKey, at)
  {
    var f, g := (r: Rule) => IsCandidate(r, apiKey, at), (r: Rule) => IsSimulatedCandidate(r, apiKey, at);
    if FlagsAreSet(rules, apiKey, at) {
      forall r | r in rules ensures f(r) == g(r) {
        if IsEligible(r, apiKey, at) {
          assert r.enabled == Some(r.enabled.value);
          assert r.enabled.value == true || r.enabled.value == false;
        }
      }
      FilterAgrees(f, g, rules);
    } else {
      var r :| r in rules && IsEligible(r, apiKey, at) && r.enabled.None?;
      FilterCounts(f, rules, r);
      FilterCounts(g, rules, r);
      assert multiset(rules)[r] > 0;
    }
  }

  /** However each fetches the rules, production and simulation hit the same rule and provider. */
  lemma SimulationMatchesProduction(around: Surroundings, fetched: seq<Rule>, sorted: seq<Rule>, model: string,
      apiKey: string, at: int)
    requires multiset(fetched) == multiset(sorted) && FlagsAreSet(fetched, apiKey, at)
    requires Candidates(fetched, apiKey, at) != [] ==> NoRival(Candidates(fetched, apiKey, at), apiKey)
    ensures TryResolveFromRules(around, fetched, model, apiKey, at) ==
      SimulateFromRules(around, sorted, model, apiKey, at)
  {
    SameCandidates(fetched, apiKey, at);
    var keep := (r: Rule) => IsSimulatedCandidate(r, apiKey, at);
    FilterPermutes(keep, fetched, sorted);
    var a, b := Candidates(fetched, apiKey, at), SimulatedCandidates(sorted, apiKey, at);
    assert multiset(a) == multiset(b);
    SameRules(a, b);
    if a != [] { WinnerAnyOrder(a, b, apiKey); }
  }

  // ----- least choices -----

  /** c is a choice with the least key. */
  ghost predicate IsLeast(choices: seq<Choice>, key: Choice -> real, c: Choice) {
    c in choices && forall d :: d in choices ==> key(c) <= key(d)
  }

  lemma {:induction false} FilterMembers<T>(keep: T -> bool, s: seq<T>)
    ensures forall x :: x in Filter(keep, s) <==> x in s && keep(x)
    decreases |s|
  {
    if s == [] {
    } else {
      FilterMembers(keep, s[1..]);
    }
  }

  lemma {:induction false} LeastIsReached(choices: seq<Choice>, key: Choice -> real) returns (c: Choice)
    requires choices != []
    ensures IsLeast(choices, key, c) && key(c) == Least(choices, key)
    decreases |choices|
  {
    if |choices| == 1 {
      c := choices[0];
    } else {
      var rest := choices[1..];
      c := LeastIsReached(rest, key);
      if key(choices[0]) < key(c) { c := choices[0]; }
      forall d | d in choices ensures key(c) <= key(d) {
        assert d == choices[0] || d in rest;
      }
    }
  }

  /** The pool is not empty and has exactly the choices of least key. */
  lemma LeastChoicesAreLeast(choices: seq<Choice>, key: Choice -> real)
    requires choices != []
    ensures LeastChoices(choices, key) != []
    ensures forall c :: c in LeastChoices(choices, key) <==> IsLeast(choices, key, c)
  {
    var best := LeastIsReached(choices, key);
    var least := Least(choices, key);
    FilterMembers((c: Choice) => key(c) == least, choices);
    assert best in LeastChoices(choices, key);
  }

  lemma TieBreakPicksFromThePool(pool: seq<Choice>, seed: string) returns (c: Choice)
    requires pool != []
    ensures c in pool && TieBreak(pool, seed) == Some(c.provider)
  {
    var i := if |pool| == 1 then 0 else SeedNumber(seed) % |pool|;
    c := pool[i];
  }

  // ----- strategies -----

  lemma {:induction false} LatencyChoicesAreNotOpen(around: Surroundings, names: seq<string>)
    ensures forall c :: c in LatencyChoices(around, names) <==>
      c.provider in names && around.circuit(c.provider) != Open && c.cost == 0.0
      && c.latency == EffectiveLatency(around, c.provider)
    decreases |names|
  {
    if names == [] {
    } else {
      LatencyChoicesAreNotOpen(around, names[1..]);
      assert forall n :: n in names <==> n == names[0] || n in names[1..];
    }
  }

  /** No target whose breaker is not open is faster. */
  ghost predicate IsFastest(around: Surroundings, names: seq<string>, provider: string) {
    && provider in names && around.circuit(provider) != Open
    && forall n :: n in names && around.circuit(n) != Open ==>
         EffectiveLatency(around, provider) <= EffectiveLatency(around, n)
  }

  ghost predicate AllOpen(around: Surroundings, names: seq<string>) {
    forall n :: n in names ==> around.circuit(n) == Open
  }

  lemma SomeLatencyChoice(around: Surroundings, names: seq<string>)
    ensures LatencyChoices(around, names) == [] <==> AllOpen(around, names)
  {
    LatencyChoicesAreNotOpen(around, names);
    var choices := LatencyChoices(around, names);
    if choices != [] {
      assert choices[0] in choices;
    } else {
      forall n | n in names ensures around.circuit(n) == Open {
        assert Choice(n, 0.0, EffectiveLatency(around, n)) !in choices;
      }
    }
  }

  /** The latency strategy picks a fastest target; of two or more targets none is picked exactly when all are open. */
  lemma LatencyPicksTheFastest(around: Surroundings, r: Rule, seed: string)
    ensures var names := TrimmedNames(r.latencyTargets);
      match ResolveLatency(around, r, seed)
      case Some(provider) => |names| >= 2 && IsFastest(around, names, provider)
      case None => |names| < 2 || AllOpen(around, names)
  {
    var names := TrimmedNames(r.latencyTargets);
    var choices := LatencyChoices(around, names);
    SomeLatencyChoice(around, names);
    if |names| >= 2 && choices != [] {
      LatencyChoicesAreNotOpen(around, names);
      var key := (c: Choice) => c.latency;
      LeastChoicesAreLeast(choices, key);
      var c := TieBreakPicksFromThePool(LeastChoices(choices, key), seed);
      forall n | n in names && around.circuit(n) != Open
        ensures EffectiveLatency(around, c.provider) <= EffectiveLatency(around, n)
      {
        assert Choice(n, 0.0, EffectiveLatency(around, n)) in choices;
      }
    }
  }

  function ChoiceOf(around: Surroundings, t: RawTarget): Choice {
    Choice(t.provider, EffectiveCost(around, t), EffectiveLatency(around, t.provider))
  }

  lemma {:induction false} CostChoiceHasTarget(around: Surroundings, targets: seq<RawTarget>, c: Choice)
    returns (t: RawTarget)
    requires c in CostChoices(around, targets)
    ensures t in targets && around.circuit(t.provider) != Open && c == ChoiceOf(around, t)
    decreases |targets|
  {
    if around.circuit(targets[0].provider) != Open && c == ChoiceOf(around, targets[0]) {
      t := targets[0];
    } else {
      t := CostChoiceHasTarget(around, targets[1..], c);
    }
  }

  lemma {:induction false} TargetHasCostChoice(around: Surroundings, targets: seq<RawTarget>, t: RawTarget)
    requires t in targets && around.circuit(t.provider) != Open
    ensures ChoiceOf(around, t) in CostChoices(around, targets)
    decreases |targets|
  {
    if t != targets[0] { TargetHasCostChoice(around, targets[1..], t); }
  }

  /** Cheaper, or as cheap and no slower. */
  predicate NoWorse(a: Choice, b: Choice) {
    a.cost < b.cost || (a.cost == b.cost && a.latency <= b.latency)
  }

  /** Of the targets that are not open, t is a cheapest, and no cheapest one is faster. */
  ghost predicate IsCheapest(around: Surroundings, targets: seq<RawTarget>, t: RawTarget) {
    && t in targets && around.circuit(t.provider) != Open
    && forall u :: u in targets && around.circuit(u.provider) != Open ==>
         NoWorse(ChoiceOf(around, t), ChoiceOf(around, u))
  }

  lemma CheapestThenFastest(choices: seq<Choice>, seed: string) returns (c: Choice)
    requires choices != []
    ensures var cheapest := LeastChoices(choices, (c: Choice) => c.cost);
      cheapest != [] && TieBreak(LeastChoices(cheapest, (c: Choice) => c.latency), seed) == Some(c.provider)
    ensures c in choices && forall d :: d in choices ==> NoWorse(c, d)
  {
    LeastChoicesAreLeast(choices, (c: Choice) => c.cost);
    var cheapest := LeastChoices(choices, (c: Choice) => c.cost);
    LeastChoicesAreLeast(cheapest, (c: Choice) => c.latency);
    c := TieBreakPicksFromThePool(LeastChoices(cheapest, (c: Choice) => c.latency), seed);
    assert IsLeast(choices, (c: Choice) => c.cost, c);
    forall d | d in choices ensures NoWorse(c, d) {
      if d.cost == c.cost { assert IsLeast(choices, (c: Choice) => c.cost, d); }
    }
  }

  /** The cost strategy picks a cheapest target, of those a fastest; none exactly when all are open. */
  lemma CostPicksTheCheapest(around: Surroundings, r: Rule, seed: string)
    ensures var targets := NamedTargets(r.costTargets);
      match ResolveCost(around, r, seed)
      case Some(provider) => exists t :: IsCheapest(around, targets, t) && t.provider == provider
      case None => forall t :: t in targets ==> around.circuit(t.provider) == Open
  {
    var targets := NamedTargets(r.costTargets);
    var choices := CostChoices(around, targets);
    forall u | u in targets && around.circuit(u.provider) != Open ensures ChoiceOf(around, u) in choices {
      TargetHasCostChoice(around, targets, u);
    }
    if choices != [] {
      var c := CheapestThenFastest(choices, seed);
      var t := CostChoiceHasTarget(around, targets, c);
      assert IsCheapest(around, targets, t);
    }
  }

  /** The weighted strategy picks a target that is not open; none exactly when all are open. */
  lemma WeightedAvoidsOpen(around: Surroundings, r: Rule, seed: string)
    ensures var targets := NormalizedTargets(r.weightedTargets);
      match ResolveWeighted(around, r, seed)
      case Some(provider) => around.circuit(provider) != Open && exists t :: t in targets && t.provider == provider
      case None => forall t :: t in targets ==> around.circuit(t.provider) == Open
  {
    var targets := NormalizedTargets(r.weightedTargets);
    var available := ClosedTargets(around, targets);
    FilterMembers((t: Target) => around.circuit(t.provider) != Open, targets);
    if available != [] {
      var sum := Sum(available);
      var i := if sum <= 0.0 then 0 else PickIndex(available, StableBucket(seed, sum));
      assert available[i] in available;
    }
  }

  predicate PrimaryIsRefused(around: Surroundings, primary: string) {
    around.circuit(primary) == Open || (around.circuit(primary) == HalfOpen && !around.allows(primary))
  }

  predicate CanSplit(r: Rule) {
    PrimaryFallbackTargets(r) != []
  }

  /** No primary, or a refused one without a fallback, or an admitted one whose weights leave no target. */
  predicate NothingToUse(around: Surroundings, r: Rule) {
    var primary, fallback := Trim(r.primary), Trim(r.fallback);
    || primary == ""
    || (PrimaryIsRefused(around, primary) && fallback == "")
    || (around.circuit(primary) == Closed && !CanSplit(r))
  }

  /** A primary is used while its breaker is open only as its own fallback, and the flag tells a failover. */
  lemma PrimaryFallbackFailsOver(around: Surroundings, r: Rule, seed: string)
    ensures var primary, fallback := Trim(r.primary), Trim(r.fallback);
      match ResolvePrimaryFallback(around, r, seed)
      case Some(hit) =>
        && hit.provider != "" && (hit.provider == primary || hit.provider == fallback)
        && (hit.failover == PrimaryIsRefused(around, primary))
        && (hit.failover ==> hit.provider == fallback)
      case None => NothingToUse(around, r)
    ensures NothingToUse(around, r) ==> ResolvePrimaryFallback(around, r, seed).None?
  {
    if Trim(r.primary) != "" && around.circuit(Trim(r.primary)) == Closed {
      var targets := PrimaryFallbackTargets(r);
      if targets != [] {
        var sum := Sum(targets);
        var i := if sum <= 0.0 then 0 else PickIndex(targets, StableBucket(seed, sum));
        assert targets[i].provider == Trim(r.primary) || targets[i].provider == Trim(r.fallback);
      }
    }
  }
}
