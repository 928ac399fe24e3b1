/** The circuit breaker of a provider: a three-state machine over a compare-and-set store with expiring keys. */
module CircuitBreaker {
  import opened Options

  datatype CircuitState = Closed | Open | HalfOpen

  datatype Override<Time> = Override(state: CircuitState, operator: string, timestamp: Time)

  /** Time is a number of milliseconds here, and an ISO 8601 string in the stored text. */
  datatype Breaker<Time> = Breaker(
    state: CircuitState, openedAt: Option<Time>, lastTransitionAt: Time,
    consecutiveFailures: nat, probeSuccesses: nat, manualOverride: Option<Override<Time>>)

  type Reading = Option<Breaker<int>>

  /** A key of the store; it is gone from expiresAt on. */
  datatype Stored = Stored(value: Breaker<int>, expiresAt: int)

  datatype Cached = Cached(value: Breaker<int>, at: int)

  datatype Config = Config(
    cooldown: int, probeRequestCount: int, minSampleCount: int, errorRateThreshold: real, failureThreshold: int)

  datatype Metrics = Metrics(sampleCount: int, errorRate: real)

  const TTL_MARGIN: int := 60000

  const CACHE_TTL: int := 1000

  function Ttl(config: Config): int {
    config.cooldown + TTL_MARGIN
  }

  function Live(entry: Option<Stored>, now: int): Reading {
    if entry.Some? && now < entry.value.expiresAt then Some(entry.value.value) else None
  }

  /** A missing state counts as CLOSED. */
  function StateOf(seen: Reading): CircuitState {
    if seen.Some? then seen.value.state else Closed
  }

  function DefaultClosed(now: int): Breaker<int> {
    Breaker(Closed, None, now, 0, 0, None)
  }

  function OrDefault(seen: Reading, now: int): Breaker<int> {
    if seen.Some? then seen.value else DefaultClosed(now)
  }

  // ----- what an operation tries to write, given the state it has read -----

  /** The state that must still be stored, and what replaces it. */
  datatype Attempt = Attempt(expected: CircuitState, value: Breaker<int>)

  predicate ShouldOpen(config: Config, current: Breaker<int>, metrics: Metrics) {
    || (metrics.sampleCount >= config.minSampleCount && metrics.errorRate * 100.0 > config.errorRateThreshold)
    || current.consecutiveFailures > config.failureThreshold
  }

  function EvaluateAttempt(config: Config, seen: Reading, metrics: Metrics, now: int): Option<Attempt> {
    var current := OrDefault(seen, now);
    if current.manualOverride.Some? then None
    else
      match current.state
      case Closed =>
        if ShouldOpen(config, current, metrics)
        then Some(Attempt(Closed, Breaker(Open, Some(now), now, current.consecutiveFailures, 0, None)))
        else None
      case Open =>
        if current.openedAt.Some? && now - current.openedAt.value >= config.cooldown
        then Some(Attempt(Open, Breaker(HalfOpen, current.openedAt, now, current.consecutiveFailures, 0, None)))
        else None
      case HalfOpen => None
  }

  function RecordAttempt(config: Config, seen: Reading, success: bool, now: int): Attempt {
    var current := OrDefault(seen, now);
    var failures := if success then 0 else current.consecutiveFailures + 1;
    match current.state
    case Closed => Attempt(Closed, current.(consecutiveFailures := failures))
    case Open => Attempt(Open, current.(consecutiveFailures := failures))
    case HalfOpen =>
      if !success then Attempt(HalfOpen, Breaker(Open, Some(now), now, failures, 0, None))
      else if current.probeSuccesses + 1 >= config.probeRequestCount
      then Attempt(HalfOpen, Breaker(Closed, None, now, 0, 0, None))
      else Attempt(HalfOpen, current.(consecutiveFailures := 0, probeSuccesses := current.probeSuccesses + 1))
  }

  /** The script: a missing key passes only for CLOSED, any other key only for its own state. */
  predicate Passes(entry: Option<Stored>, expected: CircuitState, now: int) {
    StateOf(Live(entry, now)) == expected
  }

  function AfterAttempt(entry: Option<Stored>, attempt: Option<Attempt>, ttl: int, now: int): Option<Stored> {
    if attempt.Some? && Passes(entry, attempt.value.expected, now)
    then Some(Stored(attempt.value.value, now + ttl))
    else entry
  }

  predicate Allows(config: Config, seen: Reading) {
    match StateOf(seen)
    case Closed => true
    case Open => false
    case HalfOpen => seen.value.probeSuccesses < config.probeRequestCount
  }

  function AfterOverride(config: Config, seen: Reading, to: CircuitState, operator: string, now: int): Stored {
    var base := OrDefault(seen, now);
    Stored(
      base.(state := to, lastTransitionAt := now, openedAt := if to == Open then Some(now) else None,
            consecutiveFailures := if to == Closed then 0 else base.consecutiveFailures, probeSuccesses := 0,
            manualOverride := Some(Override(to, operator, now))),
      now + Ttl(config))
  }

  /** The shared keys, and the local cache of one process in front of them. */
  class CircuitBreakerStore {
    var keys: map<string, Stored>
    var cache: map<string, Cached>

    ghost function Entry(provider: string): Option<Stored>
      reads this`keys
    {
      if provider in keys then Some(keys[provider]) else None
    }

    /** What a read at this time returns. */
    ghost function Seen(provider: string, now: int): Reading
      reads this
    {
      if provider in cache && now - cache[provider].at < CACHE_TTL then Some(cache[provider].value)
      else Live(Entry(provider), now)
    }

    constructor ()
      ensures keys == map[] && cache == map[]
    {
      keys, cache := map[], map[];
    }

    method GetState(provider: string, now: int) returns (r: Reading)
      modifies this`cache
      ensures r == old(Seen(provider, now)) && Seen(provider, now) == r
      ensures r ==
        if provider in old(cache) && now < old(cache)[provider].at + 1000 then Some(old(cache)[provider].value)
        else if provider in keys && now < keys[provider].expiresAt then Some(keys[provider].value)
        else None
    {
      if provider in cache && now - cache[provider].at < CACHE_TTL {
        return Some(cache[provider].value);
      }
      if provider !in keys || now >= keys[provider].expiresAt {
        cache := cache - {provider};
        return None;
      }
      r := Some(keys[provider].value);
      cache := cache[provider := Cached(keys[provider].value, now)];
    }

    method SetState(provider: string, value: Breaker<int>, ttl: int, now: int)
      modifies this
      ensures Entry(provider) == Some(Stored(value, now + ttl)) && Seen(provider, now) == Some(value)
      ensures forall p :: p != provider ==> Entry(p) == old(Entry(p))
    {
      keys := keys[provider := Stored(value, now + ttl)];
      cache := cache[provider := Cached(value, now)];
    }

    /** Writes when the stored state is the expected one; a lost race clears the cache entry. */
    method CompareAndSetState(provider: string, expected: CircuitState, value: Breaker<int>, ttl: int, now: int)
      returns (ok: bool)
      modifies this
      ensures ok == old(Passes(Entry(provider), expected, now))
      ensures Entry(provider) == old(AfterAttempt(Entry(provider), Some(Attempt(expected, value)), ttl, now))
      ensures ok == if provider in old(keys) && now < old(keys)[provider].expiresAt
        then old(keys)[provider].value.state == expected
        else expected == Closed
      ensures keys == if ok then old(keys)[provider := Stored(value, now + ttl)] else old(keys)
      ensures if ok then Seen(provider, now) == Some(value) else Seen(provider, now) == Live(Entry(provider), now)
      ensures forall p :: p != provider ==> Entry(p) == old(Entry(p))
    {
      var missing := provider !in keys || now >= keys[provider].expiresAt;
      if missing {
        ok := expected == Closed;
      } else {
        ok := keys[provider].value.state == expected;
      }
      if ok {
        keys := keys[provider := Stored(value, now + ttl)];
        cache := cache[provider := Cached(value, now)];
      } else {
        cache := cache - {provider};
      }
    }
  }

  class CircuitBreakerService {
    const store: CircuitBreakerStore

    constructor (store: CircuitBreakerStore)
      ensures this.store == store
    {
      this.store := store;
    }

    method GetState(provider: string, now: int) returns (state: CircuitState)
      modifies store`cache
      ensures state == StateOf(old(store.Seen(provider, now)))
    {
      var seen := store.GetState(provider, now);
      state := if seen.None? then Closed else seen.value.state;
    }

    method AllowRequest(provider: string, config: Config, now: int) returns (allowed: bool)
      modifies store`cache
      ensures allowed == Allows(config, old(store.Seen(provider, now)))
    {
      var seen := store.GetState(provider, now);
      if seen.None? { return true; }
      match seen.value.state
      case Closed => allowed := true;
      case Open => allowed := false;
      case HalfOpen => allowed := seen.value.probeSuccesses < config.probeRequestCount;
    }

    method Evaluate(provider: string, config: Config, metrics: Metrics, now: int)
      modifies store
      ensures store.Entry(provider) == old(AfterAttempt(store.Entry(provider),
        EvaluateAttempt(config, store.Seen(provider, now), metrics, now), Ttl(config), now))
      ensures forall p :: p != provider ==> store.Entry(p) == old(store.Entry(p))
    {
      var seen := store.GetState(provider, now);
      var current := if seen.Some? then seen.value else DefaultClosed(now);
      if current.manualOverride.Some? { return; }
      match current.state
      case Closed =>
        if ShouldOpen(config, current, metrics) {
          var tripped := Breaker(Open, Some(now), now, current.consecutiveFailures, 0, None);
          var _ := store.CompareAndSetState(provider, Closed, tripped, Ttl(config), now);
        }
      case Open =>
        if current.openedAt.Some? && now - current.openedAt.value >= config.cooldown {
          var probing := Breaker(HalfOpen, current.openedAt, now, current.consecutiveFailures, 0, None);
          var _ := store.CompareAndSetState(provider, Open, probing, Ttl(config), now);
        }
      case HalfOpen =>
    }

    method RecordResult(provider: string, config: Config, success: bool, now: int)
      modifies store
      ensures store.Entry(provider) == old(AfterAttempt(store.Entry(provider),
        Some(RecordAttempt(config, store.Seen(provider, now), success, now)), Ttl(config), now))
      ensures forall p :: p != provider ==> store.Entry(p) == old(store.Entry(p))
    {
      var seen := store.GetState(provider, now);
      var current := if seen.Some? then seen.value else DefaultClosed(now);
      var failures := if success then 0 else current.consecutiveFailures + 1;
      var next := current.(consecutiveFailures := failures);
      if current.state == HalfOpen {
        if !success {
          next := Breaker(Open, Some(now), now, failures, 0, None);
        } else if current.probeSuccesses + 1 >= config.probeRequestCount {
          next := Breaker(Closed, None, now, 0, 0, None);
        } else {
          next := current.(consecutiveFailures := 0, probeSuccesses := current.probeSuccesses + 1);
        }
      }
      var _ := store.CompareAndSetState(provider, current.state, next, Ttl(config), now);
    }

    /** An administrator may force OPEN or CLOSED, whatever is stored. */
    method ManualOverride(provider: string, config: Config, to: CircuitState, operator: string, now: int)
      returns (ok: bool)
      modifies store
      ensures ok == (to != HalfOpen)
      ensures store.Entry(provider) == if ok
        then Some(AfterOverride(config, old(store.Seen(provider, now)), to, operator, now))
        else old(store.Entry(provider))
      ensures forall p :: p != provider ==> store.Entry(p) == old(store.Entry(p))
    {
      if to != Open && to != Closed { return false; }
      var seen := store.GetState(provider, now);
      var forced := AfterOverride(config, seen, to, operator, now);
      store.SetState(provider, forced.value, Ttl(config), now);
      ok := true;
    }

    /** The state stays; only the override goes. */
    method ClearOverride(provider: string, config: Config, now: int)
      modifies store
      ensures var seen := old(store.Seen(provider, now));
        store.Entry(provider) ==
        if seen.None? then old(store.Entry(provider))
        else Some(Stored(seen.value.(manualOverride := None), now + Ttl(config)))
      ensures forall p :: p != provider ==> store.Entry(p) == old(store.Entry(p))
    {
      var seen := store.GetState(provider, now);
      if seen.None? { return; }
      store.SetState(provider, seen.value.(manualOverride := None), Ttl(config), now);
    }
  }
}
