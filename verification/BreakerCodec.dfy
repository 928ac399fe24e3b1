/** The text of a stored breaker state, and the substring that the compare-and-set script takes for the state. */
module BreakerCodec {
  import opened Options
  import opened CircuitBreaker
  import opened Json

  function StateName(state: CircuitState): string {
    match state case Closed => "CLOSED" case Open => "OPEN" case HalfOpen => "HALF_OPEN"
  }

  function StateNamed(j: Option<Json>): Option<CircuitState> {
    if j == Some(Text("CLOSED")) then Some(Closed)
    else if j == Some(Text("OPEN")) then Some(Open)
    else if j == Some(Text("HALF_OPEN")) then Some(HalfOpen)
    else None
  }

  function OverrideValue(o: Override<Json>): Json {
    Object(
      Member("state", Text(StateName(o.state)),
      Member("operator", Text(o.operator),
      Member("timestamp", o.timestamp, End))))
  }

  function Serialize(b: Breaker<Json>): string {
    Write(Object(Fields(b)))
  }

  function Fields(b: Breaker<Json>): Members {
    Member("state", Text(StateName(b.state)),
    Member("opened_at", if b.openedAt.Some? then b.openedAt.value else Null,
    Member("last_transition_at", b.lastTransitionAt,
    Member("consecutive_failures", Number(b.consecutiveFailures),
    Member("probe_successes", Number(b.probeSuccesses),
    Member("manual_override",
      if b.manualOverride.Some? then OverrideValue(b.manualOverride.value) else Null, End))))))
  }

  /** A property of an object: the last member of that name; None is undefined. */
  function Property(m: Members, name: string): Option<Json> {
    if m.End? then None
    else
      var later := Property(m.rest, name);
      if later.Some? then later else if m.name == name then Some(m.value) else None
  }

  /** The outer None is a malformed override; the inner one is no override. */
  function ReadOverride(j: Option<Json>): Option<Option<Override<Json>>> {
    if j.None? || j.value.Null? then Some(None)
    else if !j.value.Object? then None
    else
      var state := StateNamed(Property(j.value.members, "state"));
      var operator := Property(j.value.members, "operator");
      var timestamp := Property(j.value.members, "timestamp");
      if state.None? || operator.None? || !operator.value.Text? || timestamp.None? || !timestamp.value.Text? then None
      else Some(Some(Override(state.value, operator.value.s, timestamp.value)))
  }

  /** opened_at is passed through whatever it is; every other field is checked. */
  function Decode(m: Members): Option<Breaker<Json>> {
    var state := StateNamed(Property(m, "state"));
    var changed := Property(m, "last_transition_at");
    var failures := Property(m, "consecutive_failures");
    var probes := Property(m, "probe_successes");
    var override := ReadOverride(Property(m, "manual_override"));
    var openedAt := Property(m, "opened_at");
    if state.None? || changed.None? || !changed.value.Text? || changed.value.s == "" then None
    else if failures.None? || !failures.value.Number? || probes.None? || !probes.value.Number? then None
    else if override.None? then None
    else
      Some(Breaker(
        state.value, if openedAt == Some(Null) then None else openedAt, changed.value,
        failures.value.n, probes.value.n, override.value))
  }

  function Deserialize(text: string): Option<Breaker<Json>> {
    var parsed := Parse(text);
    if parsed.None? || !parsed.value.Object? then None else Decode(parsed.value.members)
  }

  /** Times are texts, and the last transition has one. */
  predicate WellTimed(b: Breaker<Json>) {
    && (b.openedAt.Some? ==> b.openedAt.value.Text?)
    && b.lastTransitionAt.Text? && b.lastTransitionAt.s != ""
    && (b.manualOverride.Some? ==> b.manualOverride.value.timestamp.Text?)
  }

  /** The names of the members, front to back. */
  function Names(m: Members): seq<string> {
    if m.End? then [] else [m.name] + Names(m.rest)
  }

  function ValueAt(m: Members, i: nat): Json
    requires i < |Names(m)|
    decreases i
  {
    if i == 0 then m.value else ValueAt(m.rest, i - 1)
  }

  /** Under distinct names a property is the value written under its name. */
  lemma {:induction false} DistinctNames(m: Members, i: nat)
    requires i < |Names(m)| && forall j, k :: 0 <= j < k < |Names(m)| ==> Names(m)[j] != Names(m)[k]
    ensures Property(m, Names(m)[i]) == Some(ValueAt(m, i))
    decreases m
  {
    forall j, k | 0 <= j < k < |Names(m.rest)| ensures Names(m.rest)[j] != Names(m.rest)[k] {
      assert Names(m)[j + 1] == Names(m.rest)[j] && Names(m)[k + 1] == Names(m.rest)[k];
    }
    if i == 0 {
      forall j | 0 <= j < |Names(m.rest)| ensures Names(m.rest)[j] != m.name {
        assert Names(m)[0] == m.name && Names(m)[j + 1] == Names(m.rest)[j];
      }
      AbsentName(m.rest, m.name);
    } else {
      assert Names(m)[i] == Names(m.rest)[i - 1];
      DistinctNames(m.rest, i - 1);
    }
  }

  lemma {:induction false} AbsentName(m: Members, name: string)
    requires name !in Names(m)
    ensures Property(m, name).None?
    decreases m
  {
    if m.End? {
    } else {
      assert m.name == Names(m)[0];
      assert name !in Names(m.rest);
      AbsentName(m.rest, name);
    }
  }

  const FIELD_NAMES: seq<string> := [
    "state", "opened_at", "last_transition_at", "consecutive_failures", "probe_successes", "manual_override"]

  lemma ThreeNames(m: Members)
    requires m.Member? && m.rest.Member? && m.rest.rest.Member? && m.rest.rest.rest.End?
    ensures Names(m) == [m.name, m.rest.name, m.rest.rest.name]
  {
    assert Names(m.rest.rest) == [m.rest.rest.name];
  }

  lemma ThreeMoreNames(m: Members)
    requires m.Member? && m.rest.Member? && m.rest.rest.Member?
    ensures Names(m) == [m.name] + ([m.rest.name] + ([m.rest.rest.name] + Names(m.rest.rest.rest)))
  {
    assert Names(m.rest) == [m.rest.name] + Names(m.rest.rest);
  }

  lemma SixNames(a: string, b: string, c: string, d: string, e: string, f: string)
    ensures [a] + ([b] + ([c] + [d, e, f])) == [a, b, c, d, e, f]
  {
  }

  lemma OverrideReadsBack(o: Override<Json>)
    requires o.timestamp.Text?
    ensures ReadOverride(Some(OverrideValue(o))) == Some(Some(o))
  {
    var m := OverrideValue(o).members;
    ThreeNames(m);
    DistinctNames(m, 0);
    DistinctNames(m, 1);
    DistinctNames(m, 2);
  }

  lemma FieldsReadBack(b: Breaker<Json>)
    ensures forall i :: 0 <= i < |FIELD_NAMES| ==>
      |Names(Fields(b))| == |FIELD_NAMES| && Property(Fields(b), FIELD_NAMES[i]) == Some(ValueAt(Fields(b), i))
  {
    var last := Fields(b).rest.rest.rest;
    ThreeNames(last);
    ThreeMoreNames(Fields(b));
    SixNames("state", "opened_at", "last_transition_at", "consecutive_failures", "probe_successes", "manual_override");
    assert Names(Fields(b)) == FIELD_NAMES;
    forall i | 0 <= i < |FIELD_NAMES|
      ensures Property(Fields(b), FIELD_NAMES[i]) == Some(ValueAt(Fields(b), i))
    {
      DistinctNames(Fields(b), i);
    }
  }

  /** Reading a stored state gives back the state that was written. */
  lemma DeserializeUndoesSerialize(b: Breaker<Json>)
    requires WellTimed(b)
    ensures Deserialize(Serialize(b)) == Some(b)
  {
    ParseUndoesWrite(Object(Fields(b)));
    DecodeFields(b);
  }

  lemma DecodeFields(b: Breaker<Json>)
    requires WellTimed(b)
    ensures Decode(Fields(b)) == Some(b)
  {
    FieldsReadBack(b);
    assert Property(Fields(b), FIELD_NAMES[0]) == Some(Text(StateName(b.state)));
    assert Property(Fields(b), FIELD_NAMES[1]) == Some(if b.openedAt.Some? then b.openedAt.value else Null);
    assert Property(Fields(b), FIELD_NAMES[2]) == Some(b.lastTransitionAt);
    assert Property(Fields(b), FIELD_NAMES[3]) == Some(Number(b.consecutiveFailures));
    assert Property(Fields(b), FIELD_NAMES[4]) == Some(Number(b.probeSuccesses));
    var o := if b.manualOverride.Some? then OverrideValue(b.manualOverride.value) else Null;
    assert Property(Fields(b), FIELD_NAMES[5]) == Some(o);
    if b.manualOverride.Some? { OverrideReadsBack(b.manualOverride.value); }
    assert ReadOverride(Some(o)) == Some(b.manualOverride);
  }

  // ----- the script -----

  const STATE_PREFIX: string := "\"state\":\""

  function UpToQuote(s: string): string {
    if s == "" || s[0] == '"' then "" else [s[0]] + UpToQuote(s[1..])
  }

  /** The first place where the pattern "state":"([^"]+)" matches, and what it captures there. */
  function ScriptState(text: string): Option<string>
    decreases |text|
  {
    if text == "" then None
    else if MatchesHere(text) then Some(UpToQuote(text[|STATE_PREFIX|..]))
    else ScriptState(text[1..])
  }

  predicate MatchesHere(text: string) {
    StartsWith(text, STATE_PREFIX) &&
    var value := UpToQuote(text[|STATE_PREFIX|..]);
    value != "" && |STATE_PREFIX| + |value| < |text| && text[|STATE_PREFIX| + |value|] == '"'
  }

  lemma {:induction false} UpToQuoteStops(s: string, rest: string)
    requires '"' !in s && rest != "" && rest[0] == '"'
    ensures UpToQuote(s + rest) == s
    decreases |s|
  {
    if s == "" {
      assert s + rest == rest;
    } else {
      assert (s + rest)[1..] == s[1..] + rest;
      UpToQuoteStops(s[1..], rest);
    }
  }

  lemma FirstMatch(value: string, rest: string)
    requires '"' !in value && value != "" && rest != "" && rest[0] == '"'
    ensures ScriptState("{" + (STATE_PREFIX + (value + rest))) == Some(value)
  {
    var inside := STATE_PREFIX + (value + rest);
    var text := "{" + inside;
    assert !StartsWith(text, STATE_PREFIX) by { assert text[0] == '{' && STATE_PREFIX[0] == '"'; }
    assert text[1..] == inside;
    assert inside[|STATE_PREFIX|..] == value + rest;
    UpToQuoteStops(value, rest);
    assert inside[|STATE_PREFIX| + |value|] == rest[0];
  }

  /** What the written text has after the top-level state. */
  ghost function AfterState(b: Breaker<Json>): string {
    "\"" + ("," + WriteMembers(Fields(b).rest))
  }

  lemma StateComesFirst(b: Breaker<Json>)
    ensures Serialize(b) == "{" + (STATE_PREFIX + (StateName(b.state) + AfterState(b)))
  {
    StateNamesArePlain(b.state);
    TextFront(StateName(b.state), Fields(b).rest);
  }

  lemma TextFront(name: string, rest: Members)
    requires WriteText("state") == "\"state\"" && WriteText(name) == "\"" + (name + "\"") && rest.Member?
    ensures Write(Object(Member("state", Text(name), rest))) ==
      "{" + (STATE_PREFIX + (name + ("\"" + ("," + WriteMembers(rest)))))
  {
    FirstMember(name, rest);
    Layout(name, "," + WriteMembers(rest));
  }

  lemma FirstMember(name: string, rest: Members)
    requires rest.Member?
    ensures WriteMembers(Member("state", Text(name), rest)) ==
      WriteText("state") + (":" + (WriteText(name) + ("," + WriteMembers(rest))))
  {
  }

  lemma StateNamesArePlain(state: CircuitState)
    ensures WriteText("state") == "\"state\"" && WriteText(StateName(state)) == "\"" + (StateName(state) + "\"")
  {
    StateIsPlain();
    match state
    case Closed => PlainChars("CLOSED");
    case Open => PlainChars("OPEN");
    case HalfOpen => PlainChars("HALF_OPEN");
  }

  lemma StateIsPlain()
    ensures WriteText("state") == "\"state\""
  {
    PlainChars("state");
  }

  lemma Layout(name: string, tail: string)
    requires WriteText("state") == "\"state\"" && WriteText(name) == "\"" + (name + "\"")
    ensures WriteText("state") + (":" + (WriteText(name) + tail)) == STATE_PREFIX + (name + ("\"" + tail))
  {
    Regroup("\"", name, "\"", tail);
    Gather("\"state\"", ":", "\"", name + ("\"" + tail));
    PrefixIsItsParts();
  }

  lemma PrefixIsItsParts()
    ensures "\"state\"" + ":" + "\"" == STATE_PREFIX
  {
  }

  lemma Regroup(a: string, b: string, c: string, d: string)
    ensures a + (b + c) + d == a + (b + (c + d))
  {
  }

  lemma Gather(a: string, b: string, c: string, d: string)
    ensures a + (b + (c + d)) == a + b + c + d
  {
  }

  predicate IsPlain(c: char) {
    c == '_' || 'A' <= c <= 'Z' || 'a' <= c <= 'z'
  }

  lemma {:induction false} PlainChars(s: string)
    requires forall i :: 0 <= i < |s| ==> IsPlain(s[i])
    ensures WriteChars(s) == s
    decreases |s|
  {
    if s == "" {
    } else {
      PlainChars(s[1..]);
      assert IsPlain(s[0]);
      assert s == [s[0]] + s[1..];
    }
  }

  /** The script compares the top-level state of a stored text, whatever the override and its operator say. */
  lemma ScriptReadsTheState(b: Breaker<Json>)
    ensures ScriptState(Serialize(b)) == Some(StateName(b.state))
  {
    StateComesFirst(b);
    FirstMatch(StateName(b.state), AfterState(b));
  }

  /** So the script tells two stored states apart exactly when they differ. */
  lemma ScriptComparesStates(b: Breaker<Json>, expected: CircuitState)
    ensures ScriptState(Serialize(b)) == Some(StateName(expected)) <==> b.state == expected
  {
    ScriptReadsTheState(b);
  }
}
