/** The sliding-window rate limiter over a sorted set with an expiring key. */
module SlidingWindow {
  import opened Options
  import opened FiniteSets

  /** A sorted set, member to score, whose key is gone from expiresAt on. */
  datatype Window = Window(scores: map<string, int>, expiresAt: int)

  function Present(window: Option<Window>, now: int): map<string, int> {
    if window.Some? && now < window.value.expiresAt then window.value.scores else map[]
  }

  /** zremrangebyscore 0 .. now - windowMs. */
  function Recent(scores: map<string, int>, windowMs: int, now: int): map<string, int> {
    map m | m in scores && !(0 <= scores[m] <= now - windowMs) :: scores[m]
  }

  function AfterAcquire(window: Option<Window>, windowMs: int, now: int, member: string): Window {
    Window(Recent(Present(window, now), windowMs, now)[member := now], now + windowMs)
  }

  class RateLimiterService {
    var windows: map<string, Window>

    ghost function At(key: string): Option<Window>
      reads this
    {
      if key in windows then Some(windows[key]) else None
    }

    constructor ()
      ensures windows == map[]
    {
      windows := map[];
    }

    /** A call is added to the set whether or not it is allowed. member is the call's unique id. */
    method Acquire(key: string, maxRequests: int, windowMs: int, now: int, member: string) returns (allowed: bool)
      modifies this
      ensures At(key) == Some(AfterAcquire(old(At(key)), windowMs, now, member))
      ensures allowed == (|At(key).value.scores| <= maxRequests)
      ensures key in windows && windows[key].expiresAt == now + windowMs
      ensures var live := if key in old(windows) && now < old(windows)[key].expiresAt then old(windows)[key].scores
        else map[];
        var kept := set m | m in live && (live[m] < 0 || now - windowMs < live[m]) && m != member;
        windows[key].scores.Keys == kept + {member} && windows[key].scores[member] == now
        && forall m :: m in kept ==> windows[key].scores[m] == live[m]
      ensures forall k :: k != key ==> At(k) == old(At(k))
    {
      var scores: map<string, int> := map[];
      if key in windows && now < windows[key].expiresAt { scores := windows[key].scores; }
      scores := map m | m in scores && !(0 <= scores[m] <= now - windowMs) :: scores[m];
      scores := scores[member := now];
      windows := windows[key := Window(scores, now + windowMs)];
      allowed := |scores| <= maxRequests;
    }
  }

  // ----- all the calls for one key, with one limit and one window -----

  datatype Call = Call(at: int, member: string)

  /** The clock does not go back, and ids are unique. */
  ghost predicate IsCallLog(calls: seq<Call>) {
    && (forall i, j :: 0 <= i < j < |calls| ==> calls[i].at <= calls[j].at && calls[i].member != calls[j].member)
    && forall i :: 0 <= i < |calls| ==> calls[i].at >= 0
  }

  function WindowAfter(calls: seq<Call>, windowMs: int): Option<Window> {
    if calls == [] then None
    else
      var last := calls[|calls| - 1];
      Some(AfterAcquire(WindowAfter(calls[..|calls| - 1], windowMs), windowMs, last.at, last.member))
  }

  /** The answer to call i. */
  function Allowed(calls: seq<Call>, windowMs: int, maxRequests: int, i: nat): bool
    requires i < |calls|
  {
    var window := WindowAfter(calls[..i + 1], windowMs);
    window.Some? && |window.value.scores| <= maxRequests
  }

  /** Call j lies in the window of windowMs that ends at time end. */
  predicate InWindow(calls: seq<Call>, windowMs: int, end: int, j: int) {
    0 <= j < |calls| && end - windowMs < calls[j].at <= end
  }

  /** The set after call i holds exactly the calls in the window that ends with it. */
  ghost predicate HoldsWindow(calls: seq<Call>, windowMs: int, scores: map<string, int>, end: int) {
    && (forall j :: InWindow(calls, windowMs, end, j) ==> calls[j].member in scores)
    && forall m :: m in scores ==> exists j :: InWindow(calls, windowMs, end, j) && calls[j] == Call(scores[m], m)
  }

  /** The key that the calls leave behind. */
  ghost predicate IsWindowOf(calls: seq<Call>, windowMs: int, window: Option<Window>) {
    if calls == [] then window.None?
    else
      var end := calls[|calls| - 1].at;
      window.Some? && window.value.expiresAt == end + windowMs && HoldsWindow(calls, windowMs, window.value.scores, end)
  }

  lemma WindowStep(calls: seq<Call>, windowMs: int, window: Option<Window>)
    requires IsCallLog(calls) && calls != [] && windowMs > 0
    requires IsWindowOf(calls[..|calls| - 1], windowMs, window)
    ensures var last := calls[|calls| - 1];
      IsWindowOf(calls, windowMs, Some(AfterAcquire(window, windowMs, last.at, last.member)))
  {
    var before, last := calls[..|calls| - 1], calls[|calls| - 1];
    var scores := AfterAcquire(window, windowMs, last.at, last.member).scores;
    forall j | InWindow(calls, windowMs, last.at, j) ensures calls[j].member in scores {
      if j < |before| {
        assert before[j] == calls[j];
        assert InWindow(before, windowMs, before[|before| - 1].at, j);
        var k :| InWindow(before, windowMs, before[|before| - 1].at, k)
          && before[k] == Call(window.value.scores[calls[j].member], calls[j].member);
        assert calls[k].member == calls[j].member;
      }
    }
    forall m | m in scores
      ensures exists j :: InWindow(calls, windowMs, last.at, j) && calls[j] == Call(scores[m], m)
    {
      if m == last.member {
        assert InWindow(calls, windowMs, last.at, |calls| - 1);
      } else {
        var k :| InWindow(before, windowMs, before[|before| - 1].at, k) && before[k] == Call(window.value.scores[m], m);
        assert calls[k] == before[k];
        assert InWindow(calls, windowMs, last.at, k);
      }
    }
  }

  lemma {:induction false} WindowHoldsRecentCalls(calls: seq<Call>, windowMs: int)
    requires IsCallLog(calls) && windowMs > 0
    ensures IsWindowOf(calls, windowMs, WindowAfter(calls, windowMs))
    decreases |calls|
  {
    if calls == [] {
    } else {
      var before := calls[..|calls| - 1];
      WindowHoldsRecentCalls(before, windowMs);
      WindowStep(calls, windowMs, WindowAfter(before, windowMs));
    }
  }

  /** The calls up to call i in the window that ends at time end. */
  ghost function CallsIn(calls: seq<Call>, windowMs: int, end: int): set<int> {
    set j | 0 <= j < |calls| && InWindow(calls, windowMs, end, j)
  }

  ghost function MembersOf(calls: seq<Call>, s: set<int>): set<string>
    requires forall j :: j in s ==> 0 <= j < |calls|
  {
    set j | j in s :: calls[j].member
  }

  lemma {:induction false} AsManyMembers(calls: seq<Call>, s: set<int>)
    requires IsCallLog(calls) && forall j :: j in s ==> 0 <= j < |calls|
    ensures |MembersOf(calls, s)| == |s|
    decreases |s|
  {
    if s == {} {
      assert MembersOf(calls, s) == {};
    } else {
      var j := SomeElement(s);
      AsManyMembers(calls, s - {j});
      OneMoreMember(calls, s, j);
    }
  }

  lemma OneMoreMember(calls: seq<Call>, s: set<int>, j: int)
    requires IsCallLog(calls) && j in s && forall j :: j in s ==> 0 <= j < |calls|
    ensures MembersOf(calls, s) == MembersOf(calls, s - {j}) + {calls[j].member}
    ensures calls[j].member !in MembersOf(calls, s - {j})
  {
    forall m | m in MembersOf(calls, s) ensures m in MembersOf(calls, s - {j}) + {calls[j].member} {
      var k :| k in s && calls[k].member == m;
    }
  }

  /** A call is allowed exactly when its window, itself included, has no more calls than the limit. */
  lemma AllowedExactlyWithinTheLimit(calls: seq<Call>, windowMs: int, maxRequests: int, i: nat)
    requires IsCallLog(calls) && windowMs > 0 && i < |calls|
    ensures Allowed(calls, windowMs, maxRequests, i) <==>
      |CallsIn(calls[..i + 1], windowMs, calls[i].at)| <= maxRequests
    ensures forall j :: j in CallsIn(calls[..i + 1], windowMs, calls[i].at) <==>
      0 <= j <= i && calls[i].at - windowMs < calls[j].at
  {
    var upTo := calls[..i + 1];
    WindowHoldsRecentCalls(upTo, windowMs);
    var scores := WindowAfter(upTo, windowMs).value.scores;
    var s := CallsIn(upTo, windowMs, calls[i].at);
    AsManyMembers(upTo, s);
    SameMembers(upTo, windowMs, scores, calls[i].at);
    assert |scores.Keys| == |scores|;
  }

  lemma SameMembers(calls: seq<Call>, windowMs: int, scores: map<string, int>, end: int)
    requires HoldsWindow(calls, windowMs, scores, end)
    ensures MembersOf(calls, CallsIn(calls, windowMs, end)) == scores.Keys
  {
    forall m | m in scores ensures m in MembersOf(calls, CallsIn(calls, windowMs, end)) {
      var j :| InWindow(calls, windowMs, end, j) && calls[j] == Call(scores[m], m);
      assert j in CallsIn(calls, windowMs, end);
    }
  }

  ghost function AllowedIn(calls: seq<Call>, windowMs: int, maxRequests: int, end: int): set<int> {
    set j | 0 <= j < |calls| && InWindow(calls, windowMs, end, j) && Allowed(calls, windowMs, maxRequests, j)
  }

  /** Whenever it ends, no window of windowMs has more allowed calls than the limit. */
  lemma NoWindowExceedsTheLimit(calls: seq<Call>, windowMs: int, maxRequests: nat, end: int)
    requires IsCallLog(calls) && windowMs > 0
    ensures |AllowedIn(calls, windowMs, maxRequests, end)| <= maxRequests
    ensures forall j :: j in AllowedIn(calls, windowMs, maxRequests, end) <==>
      0 <= j < |calls| && end - windowMs < calls[j].at <= end && Allowed(calls, windowMs, maxRequests, j)
  {
    var s := AllowedIn(calls, windowMs, maxRequests, end);
    if s != {} {
      var i := LargestExists(s);
      AllowedExactlyWithinTheLimit(calls, windowMs, maxRequests, i);
      var upTo := calls[..i + 1];
      forall j | j in s ensures j in CallsIn(upTo, windowMs, calls[i].at) {
        assert upTo[j] == calls[j] && calls[j].at <= calls[i].at;
      }
      SubsetIsNoLarger(s, CallsIn(upTo, windowMs, calls[i].at));
    }
  }
}
