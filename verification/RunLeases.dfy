/** The bound on an owner's concurrent runs: leases in a sorted set with an expiring key. */
module RunLeases {
  import opened Options
  import opened FiniteSets

  /** The limits of a role; the timeout is in seconds. */
  datatype Limits = Limits(maxConcurrentRuns: int, executionTimeout: int)

  /** Run ids and the times their leases end; the key is gone from expiresAt on. */
  datatype Leases = Leases(runs: map<string, int>, expiresAt: int)

  const KEY_MARGIN: int := 60000

  function TimeoutMs(limits: Limits): int {
    limits.executionTimeout * 1000
  }

  function Present(leases: Option<Leases>, now: int): map<string, int> {
    if leases.Some? && now < leases.value.expiresAt then leases.value.runs else map[]
  }

  /** zremrangebyscore -inf .. now. */
  function Alive(runs: map<string, int>, now: int): map<string, int> {
    map r | r in runs && runs[r] > now :: runs[r]
  }

  predicate HasRoom(leases: Option<Leases>, limits: Limits, now: int) {
    |Alive(Present(leases, now), now)| < limits.maxConcurrentRuns
  }

  function AfterAcquire(leases: Option<Leases>, limits: Limits, now: int, run: string): Option<Leases> {
    var alive := Alive(Present(leases, now), now);
    if HasRoom(leases, limits, now) then
      Some(Leases(alive[run := now + TimeoutMs(limits)], now + TimeoutMs(limits) + KEY_MARGIN))
    else if leases.None? then None
    else Some(leases.value.(runs := alive))
  }

  function AfterRelease(leases: Option<Leases>, run: string): Option<Leases> {
    if leases.None? then None else Some(leases.value.(runs := leases.value.runs - {run}))
  }

  class WorkflowPolicyService {
    var leases: map<string, Leases>

    ghost function Of(owner: string): Option<Leases>
      reads this
    {
      if owner in leases then Some(leases[owner]) else None
    }

    constructor ()
      ensures leases == map[]
    {
      leases := map[];
    }

    /** known is false when the owner is not an active user: then nothing is acquired. A refusal is an exception. */
    method AcquireRun(owner: string, known: bool, limits: Limits, run: string, now: int)
      returns (acquired: bool, refused: bool)
      modifies this
      ensures acquired == (known && old(HasRoom(Of(owner), limits, now)))
      ensures refused == (known && !acquired)
      ensures Of(owner) == if known then AfterAcquire(old(Of(owner)), limits, now, run) else old(Of(owner))
      ensures acquired ==>
        && owner in leases && run in leases[owner].runs
        && leases[owner].runs[run] == now + 1000 * limits.executionTimeout
        && leases[owner].expiresAt == now + 1000 * limits.executionTimeout + 60000
      ensures known && owner in leases ==>
        var live := if owner in old(leases) && now < old(leases)[owner].expiresAt then old(leases)[owner].runs
          else map[];
        forall r :: (r in leases[owner].runs && (acquired ==> r != run)) <==>
          (r in live && now < live[r] && (acquired ==> r != run))
      ensures forall o :: o != owner ==> Of(o) == old(Of(o))
    {
      if !known { return false, false; }
      var runs: map<string, int> := map[];
      if owner in leases && now < leases[owner].expiresAt { runs := leases[owner].runs; }
      runs := map r | r in runs && runs[r] > now :: runs[r];
      if |runs| >= limits.maxConcurrentRuns {
        if owner in leases { leases := leases[owner := leases[owner].(runs := runs)]; }
        return false, true;
      }
      var until := now + limits.executionTimeout * 1000;
      leases := leases[owner := Leases(runs[run := until], until + KEY_MARGIN)];
      return true, false;
    }

    method ReleaseRun(owner: string, run: string)
      modifies this
      ensures Of(owner) == AfterRelease(old(Of(owner)), run)
      ensures forall o :: o != owner ==> Of(o) == old(Of(o))
    {
      if owner in leases { leases := leases[owner := leases[owner].(runs := leases[owner].runs - {run})]; }
    }
  }

  // ----- the answers one owner has had, for a fixed role -----

  datatype Event = Acquire(at: int, run: string, granted: bool) | Release(at: int, run: string)

  function After(limits: Limits, log: seq<Event>): Option<Leases> {
    if log == [] then None
    else
      var before := After(limits, log[..|log| - 1]);
      match log[|log| - 1]
      case Acquire(at, run, _) => AfterAcquire(before, limits, at, run)
      case Release(_, run) => AfterRelease(before, run)
  }

  /** The clock does not go back, and the answers are the ones the script gave. */
  ghost predicate IsLog(limits: Limits, log: seq<Event>) {
    log == [] ||
    (var before := log[..|log| - 1];
     var last := log[|log| - 1];
     && IsLog(limits, before) && (before != [] ==> before[|before| - 1].at <= last.at)
     && (last.Acquire? ==> last.granted == HasRoom(After(limits, before), limits, last.at)))
  }

  predicate UpTo(log: seq<Event>, now: int) {
    log == [] || log[|log| - 1].at <= now
  }

  /** From the answers alone: when the lease of a run ends, if it has one that was not released. */
  ghost function LeaseOf(limits: Limits, log: seq<Event>, run: string): Option<int> {
    if log == [] then None
    else
      var last := log[|log| - 1];
      var before := log[..|log| - 1];
      if last.run != run then LeaseOf(limits, before, run)
      else
        match last
        case Acquire(at, _, granted) =>
          if granted then Some(at + TimeoutMs(limits)) else LeaseOf(limits, before, run)
        case Release(_, _) => None
  }

  ghost predicate IsLive(limits: Limits, log: seq<Event>, run: string, now: int) {
    LeaseOf(limits, log, run).Some? && LeaseOf(limits, log, run).value > now
  }

  ghost function LiveRuns(limits: Limits, log: seq<Event>, now: int): set<string> {
    set e | e in log && IsLive(limits, log, e.run, now) :: e.run
  }

  /** A stored lease that has not ended is the live lease of its run, and the key outlasts it by the margin. */
  ghost predicate StoresIfLive(limits: Limits, leases: Option<Leases>, lease: Option<int>, run: string, now: int) {
    var stored := leases.Some? && run in leases.value.runs;
    && (stored ==> leases.value.runs[run] + KEY_MARGIN <= leases.value.expiresAt)
    && (stored ==> leases.value.runs[run] <= now + TimeoutMs(limits))
    && (stored && leases.value.runs[run] > now ==> lease == Some(leases.value.runs[run]))
    && (lease.Some? && lease.value > now ==> stored && leases.value.runs[run] == lease.value)
  }

  ghost predicate StoresTheLive(limits: Limits, log: seq<Event>, now: int) {
    forall run :: StoresIfLive(limits, After(limits, log), LeaseOf(limits, log, run), run, now)
  }

  lemma {:induction false} LogsStoreTheLive(limits: Limits, log: seq<Event>, now: int)
    requires IsLog(limits, log) && UpTo(log, now)
    ensures StoresTheLive(limits, log, now)
    decreases |log|
  {
    if log == [] {
    } else {
      LogsStoreTheLive(limits, log[..|log| - 1], log[|log| - 1].at);
    }
  }

  /** The key's expiry never drops a live lease: what a script finds are exactly the live ones. */
  lemma ExpiryDropsNoLiveLease(limits: Limits, log: seq<Event>, now: int)
    requires IsLog(limits, log) && UpTo(log, now)
    ensures Alive(Present(After(limits, log), now), now).Keys == LiveRuns(limits, log, now)
  {
    LogsStoreTheLive(limits, log, now);
    var alive := Alive(Present(After(limits, log), now), now).Keys;
    forall run | run in alive ensures run in LiveRuns(limits, log, now) {
      assert StoresIfLive(limits, After(limits, log), LeaseOf(limits, log, run), run, now);
      LiveRunIsLogged(limits, log, run);
    }
    forall run | run in LiveRuns(limits, log, now) ensures run in alive {
      assert StoresIfLive(limits, After(limits, log), LeaseOf(limits, log, run), run, now);
    }
  }

  lemma {:induction false} LiveRunIsLogged(limits: Limits, log: seq<Event>, run: string)
    requires LeaseOf(limits, log, run).Some?
    ensures exists e :: e in log && e.run == run
    decreases |log|
  {
    var last := log[|log| - 1];
    if last.run == run {
      assert last in log;
    } else {
      LiveRunIsLogged(limits, log[..|log| - 1], run);
      var e :| e in log[..|log| - 1] && e.run == run;
      assert e in log;
    }
  }

  /** A lease is granted exactly when fewer than the maximum are live. */
  lemma GrantedExactlyWhenThereIsRoom(limits: Limits, log: seq<Event>, now: int)
    requires IsLog(limits, log) && UpTo(log, now)
    ensures HasRoom(After(limits, log), limits, now) <==> |LiveRuns(limits, log, now)| < limits.maxConcurrentRuns
  {
    ExpiryDropsNoLiveLease(limits, log, now);
    var alive := Alive(Present(After(limits, log), now), now);
    assert |alive.Keys| == |alive|;
  }

  /** At no time are more leases live than the role allows. */
  lemma {:induction false} LiveLeasesAreBounded(limits: Limits, log: seq<Event>, now: int)
    requires IsLog(limits, log) && UpTo(log, now) && limits.maxConcurrentRuns >= 0
    ensures |LiveRuns(limits, log, now)| <= limits.maxConcurrentRuns
    decreases |log|
  {
    if log != [] {
      var before, last := log[..|log| - 1], log[|log| - 1];
      LiveLeasesAreBounded(limits, before, last.at);
      if last.Acquire? && last.granted {
        GrantedExactlyWhenThereIsRoom(limits, before, last.at);
        LiveAfter(limits, log, now);
        SubsetIsNoLarger(LiveRuns(limits, log, now), LiveRuns(limits, before, last.at) + {last.run});
      } else {
        LiveAfter(limits, log, now);
        SubsetIsNoLarger(LiveRuns(limits, log, now), LiveRuns(limits, before, last.at));
      }
    } else {
      assert LiveRuns(limits, log, now) == {};
    }
  }

  /** Only a granted lease adds to the live ones. */
  lemma LiveAfter(limits: Limits, log: seq<Event>, now: int)
    requires log != [] && UpTo(log, now)
    ensures var last := log[|log| - 1];
      var before := LiveRuns(limits, log[..|log| - 1], last.at);
      LiveRuns(limits, log, now) <= if last.Acquire? && last.granted then before + {last.run} else before
  {
    var last, before := log[|log| - 1], log[..|log| - 1];
    forall run | run in LiveRuns(limits, log, now) && (run != last.run || !(last.Acquire? && last.granted))
      ensures run in LiveRuns(limits, before, last.at)
    {
      assert IsLive(limits, before, run, last.at);
      LiveRunIsLogged(limits, before, run);
    }
  }
}
