/** Which refused jobs let more nodes run than there are slots. */
module WorkflowSlots {
  import opened ExecutionGraph
  import opened WorkflowProtocol
  import opened WorkflowPass
  import opened WorkflowEngine

  /** What the queue makes of the job of a node; nothing, when the node is not pending. */
  datatype Verdict = Nothing | Accepted | Refused

  // ----- the slots as numbers -----

  /** The accepted jobs from f on. */
  function Count(v: seq<Verdict>, f: nat): nat
    requires f <= |v|
    decreases |v| - f
  {
    if f == |v| then 0 else (if v[f].Accepted? then 1 else 0) + Count(v, f + 1)
  }

  /** Works through the jobs from f on while s slots last. A refused job starts an inner pass, which counts its own
      slots; the outer one goes on behind it with the slots that it had. The result is where the work ends, and how
      many nodes run then. */
  function Fill(v: seq<Verdict>, f: nat, running: nat, s: int, max: int): (r: (nat, nat))
    requires f <= |v|
    ensures f <= r.0 <= |v|
    decreases |v| - f
  {
    if f == |v| || s <= 0 then (f, running)
    else
      match v[f]
      case Nothing => Fill(v, f + 1, running, s, max)
      case Accepted => Fill(v, f + 1, running + 1, s - 1, max)
      case Refused =>
        var inner := Fill(v, f + 1, running, max - running, max);
        Fill(v, inner.0, inner.1, s, max)
  }

  /** The work ends when the slots are used up or no accepted job is left. */
  lemma {:induction false} FillUsesSlots(v: seq<Verdict>, f: nat, running: nat, s: int, max: int)
    requires f <= |v|
    ensures var r := Fill(v, f, running, s, max);
      && r.1 - running == Count(v, f) - Count(v, r.0)
      && (r.1 - running >= s || Count(v, r.0) == 0)
    decreases |v| - f
  {
    if f < |v| && s > 0 {
      match v[f]
      case Nothing => FillUsesSlots(v, f + 1, running, s, max);
      case Accepted => FillUsesSlots(v, f + 1, running + 1, s - 1, max);
      case Refused =>
        var inner := Fill(v, f + 1, running, max - running, max);
        FillUsesSlots(v, f + 1, running, max - running, max);
        CountShrinks(v, f + 1, inner.0);
        FillUsesSlots(v, inner.0, inner.1, s, max);
    }
  }

  lemma {:induction false} CountShrinks(v: seq<Verdict>, f: nat, g: nat)
    requires f <= g <= |v|
    ensures Count(v, g) <= Count(v, f)
    decreases g - f
  {
    if f == g {
    } else {
      CountShrinks(v, f + 1, g);
    }
  }

  /** More jobs are accepted than there are slots, and one is refused before the slots are used up. */
  ghost predicate Overruns(v: seq<Verdict>, f: nat, s: int)
    requires f <= |v|
  {
    Count(v, f) > s && exists q :: f <= q < |v| && v[q].Refused? && Count(v, f) - Count(v, q) < s
  }

  /** The work overruns its slots exactly then. */
  lemma {:induction false} FillOverrunsExactly(v: seq<Verdict>, f: nat, running: nat, s: nat, max: int)
    requires f <= |v| && running + s == max
    ensures Fill(v, f, running, s, max).1 > max <==> Overruns(v, f, s)
    decreases |v| - f
  {
    forall q | f <= q < |v| ensures Count(v, q) <= Count(v, f) { CountShrinks(v, f, q); }
    if f < |v| && s > 0 {
      match v[f]
      case Nothing =>
        FillOverrunsExactly(v, f + 1, running, s, max);
        assert Overruns(v, f, s) <==> Overruns(v, f + 1, s);
      case Accepted =>
        FillOverrunsExactly(v, f + 1, running + 1, s - 1, max);
        assert Overruns(v, f, s) <==> Overruns(v, f + 1, s - 1);
      case Refused =>
        assert Overruns(v, f, s) <==> Count(v, f + 1) > s;
        var inner := Fill(v, f + 1, running, s, max);
        FillUsesSlots(v, f + 1, running, s, max);
        FillUsesSlots(v, inner.0, inner.1, s, max);
        CountShrinks(v, inner.0, Fill(v, inner.0, inner.1, s, max).0);
    }
  }

  // ----- the slots of a run -----

  function VerdictOf(accepts: Job -> bool, r: Run, n: string): Verdict {
    if n !in r.nodes || r.nodes[n].status != Pending then Nothing
    else if accepts(Job(n, r.nodes[n].attempt)) then Accepted
    else Refused
  }

  /** The verdicts on the nodes, in the order of the definition. */
  function Verdicts(w: Workflow, accepts: Job -> bool, r: Run): (v: seq<Verdict>)
    ensures |v| == |w.nodes|
  {
    seq(|w.nodes|, i requires 0 <= i < |w.nodes| => VerdictOf(accepts, r, w.nodes[i].id))
  }

  predicate WaitsForNothing(w: Workflow, nodes: Nodes, n: string) {
    forall e :: e in w.edges && e.target == n && e.source in nodes ==> IsTerminal(nodes[e.source].status)
  }

  /** Its dependencies are done, and they let it start. */
  ghost predicate IsFree(w: Workflow, r: Run, n: string) {
    Claimable(w, r, n) && !Skippable(w, r, n) && WaitsForNothing(w, r.nodes, n)
  }

  ghost predicate AllAreFree(w: Workflow, r: Run) {
    forall n {:trigger IsFree(w, r, n)} :: n in r.nodes && r.nodes[n].status == Pending ==> IsFree(w, r, n)
  }

  ghost predicate DistinctIds(w: Workflow) {
    forall i, j :: 0 <= i < j < |w.nodes| ==> w.nodes[i].id != w.nodes[j].id
  }

  ghost predicate PendingAt(w: Workflow, r: Run, i: nat)
    requires i < |w.nodes|
  {
    w.nodes[i].id in r.nodes && r.nodes[w.nodes[i].id].status == Pending
  }

  /** now is the run after the pending nodes of r before f have been worked off, and nothing else has. */
  ghost predicate WorkedUpTo(w: Workflow, r: Run, now: Run, f: nat) {
    && f <= |w.nodes| && now.nodes.Keys == r.nodes.Keys
    && (forall n :: n in r.nodes && r.nodes[n].status != Pending ==> now.nodes[n] == r.nodes[n])
    && (forall i :: 0 <= i < |w.nodes| && PendingAt(w, r, i) ==>
        if i < f then !PendingAt(w, now, i) else now.nodes[w.nodes[i].id] == r.nodes[w.nodes[i].id])
    && (now.status == RunRunning || forall i :: f <= i < |w.nodes| ==> !PendingAt(w, r, i))
  }

  /** A node that is still pending can be claimed, and is not to be skipped. */
  lemma StaysFree(w: Workflow, r: Run, now: Run, f: nat, n: string)
    requires AllAreFree(w, r) && WorkedUpTo(w, r, now, f) && n in now.nodes && now.nodes[n].status == Pending
    ensures Claimable(w, now, n) && !Skippable(w, now, n)
  {
    assert r.nodes[n].status == Pending && IsFree(w, r, n);
    forall e | e in w.edges && e.target == n && e.source in r.nodes ensures now.nodes[e.source] == r.nodes[e.source] {}
    forall e | e in w.edges && Selected(now.nodes, e, n) && ActiveBranch(now.nodes, e)
      ensures now.nodes[e.source].status == Succeeded
    {
      assert Selected(r.nodes, e, n) && ActiveBranch(r.nodes, e);
    }
    assert HasFailedDependency(w, now.nodes, n) ==> HasFailedDependency(w, r.nodes, n);
    if HasInactiveBranch(w, now.nodes, n) {
      var e :| e in w.edges && Selected(now.nodes, e, n);
      assert Selected(r.nodes, e, n);
      forall e | e in w.edges && Selected(r.nodes, e, n) ensures !ActiveBranch(r.nodes, e) {
        assert Selected(now.nodes, e, n);
      }
      assert HasInactiveBranch(w, r.nodes, n);
    }
  }

  lemma NothingToSkip(w: Workflow, r: Run, now: Run, f: nat)
    requires AllAreFree(w, r) && WorkedUpTo(w, r, now, f)
    ensures SkipAll(w, now) == now
  {
    forall n ensures !Skippable(w, now, n) {
      if n in now.nodes && now.nodes[n].status == Pending { StaysFree(w, r, now, f, n); }
    }
  }

  lemma NothingAt(w: Workflow, r: Run, now: Run, f: nat)
    requires WorkedUpTo(w, r, now, f) && f < |w.nodes| && !PendingAt(w, r, f)
    ensures WorkedUpTo(w, r, now, f + 1) && !PendingAt(w, now, f)
  {
  }

  /** The next pending node is claimed. */
  lemma ClaimAt(w: Workflow, r: Run, seen: Run, now: Run, f: nat)
    requires DistinctIds(w) && WorkedUpTo(w, r, now, f) && f < |w.nodes| && PendingAt(w, r, f)
    requires w.nodes[f].id in seen.nodes
    ensures Guard(now, ClaimNode(w.nodes[f].id))
    ensures var claimed := Effect(seen, now, ClaimNode(w.nodes[f].id));
      WorkedUpTo(w, r, claimed, f + 1) && RunningCount(claimed) == RunningCount(now) + 1
  {
    var n := w.nodes[f].id;
    var claimed := Effect(seen, now, ClaimNode(n));
    assert NodesWith(claimed.nodes, Running) == NodesWith(now.nodes, Running) + {n};
  }

  /** And failed, when its job is refused. */
  lemma FailAt(w: Workflow, r: Run, seen: Run, now: Run, f: nat)
    requires DistinctIds(w) && WorkedUpTo(w, r, now, f) && f < |w.nodes| && PendingAt(w, r, f)
    requires w.nodes[f].id in seen.nodes
    ensures Guard(now, ClaimNode(w.nodes[f].id))
    ensures var claimed := Effect(seen, now, ClaimNode(w.nodes[f].id));
      Guard(claimed, FailNode(w.nodes[f].id)) &&
      var failed := Effect(claimed, claimed, FailNode(w.nodes[f].id));
      WorkedUpTo(w, r, failed, f + 1) && RunningCount(failed) == RunningCount(now) && failed.status == RunRunning
  {
    ClaimAt(w, r, seen, now, f);
    var n := w.nodes[f].id;
    var claimed := Effect(seen, now, ClaimNode(n));
    var failed := Effect(claimed, claimed, FailNode(n));
    assert NodesWith(failed.nodes, Running) == NodesWith(now.nodes, Running);
  }

  /** The numbers that belong to a pass from now, or to what is left of one with these slots. */
  ghost function Filled(w: Workflow, accepts: Job -> bool, r: Run, now: Run, f: nat, slots: int): (nat, nat)
    requires f <= |w.nodes|
  {
    Fill(Verdicts(w, accepts, r), f, RunningCount(now), slots, Parallelism(w))
  }

  lemma {:induction false} FillOfNothing(v: seq<Verdict>, f: nat, running: nat, s: int, max: int)
    requires f <= |v| && forall i :: f <= i < |v| ==> v[i].Nothing?
    ensures Fill(v, f, running, s, max).1 == running
    decreases |v| - f
  {
    if f == |v| {
    } else {
      FillOfNothing(v, f + 1, running, s, max);
    }
  }

  /** When everything is done, the pass ends the run. */
  lemma LastPassFills(w: Workflow, accepts: Job -> bool, r: Run, now: Run, f: nat, later: Run) returns (g: nat)
    requires WorkedUpTo(w, r, now, f) && now.status == RunRunning && AllTerminal(now.nodes)
    requires later == Released(Write(now, now, FinishPass))
    ensures WorkedUpTo(w, r, later, g)
    ensures Filled(w, accepts, r, now, f, Parallelism(w) - RunningCount(now)) == (g, RunningCount(later))
  {
    var v := Verdicts(w, accepts, r);
    forall i | f <= i < |v| ensures v[i].Nothing? && !PendingAt(w, r, i) {
      assert !IsTerminal(Pending);
    }
    FillOfNothing(v, f, RunningCount(now), Parallelism(w) - RunningCount(now), Parallelism(w));
    g := Filled(w, accepts, r, now, f, Parallelism(w) - RunningCount(now)).0;
  }

  /** The skip loop of a pass has nothing to do. */
  lemma PassProceeds(w: Workflow, accepts: Job -> bool, r: Run, now: Run, f: nat)
    requires AllAreFree(w, r) && WorkedUpTo(w, r, now, f)
    ensures Pass(w, accepts, now) == Proceed(w, accepts, now)
  {
    NothingToSkip(w, r, now, f);
  }

  lemma FailureProceeds(w: Workflow, accepts: Job -> bool, r: Run, now: Run, n: string, f: nat)
    requires AllAreFree(w, r) && w.failureStrategy == Continue && Guard(now, FailNode(n))
    requires WorkedUpTo(w, r, Effect(now, now, FailNode(n)), f)
    ensures AfterFailed(w, accepts, now, n) == Proceed(w, accepts, Effect(now, now, FailNode(n)))
  {
    PassProceeds(w, accepts, r, Effect(now, now, FailNode(n)), f);
  }

  /** A pass is this work. */
  lemma {:induction false} ProceedFills(w: Workflow, accepts: Job -> bool, r: Run, now: Run, f: nat, later: Run)
    returns (g: nat)
    requires AllAreFree(w, r) && DistinctIds(w) && w.failureStrategy == Continue
    requires WorkedUpTo(w, r, now, f) && now.status == RunRunning
    requires later == Proceed(w, accepts, now)
    ensures WorkedUpTo(w, r, later, g)
    ensures Filled(w, accepts, r, now, f, Parallelism(w) - RunningCount(now)) == (g, RunningCount(later))
    decreases |w.nodes| - f, 2, 0
  {
    if AllTerminal(now.nodes) {
      g := LastPassFills(w, accepts, r, now, f, later);
    } else {
      ProceedUnfolds(w, accepts, now);
      g := DispatchFills(w, accepts, r, now, f, now, Parallelism(w) - RunningCount(now), 0, f, later);
    }
  }

  /** So is what is left of one from the node at i on. */
  lemma {:induction false} DispatchFills(w: Workflow, accepts: Job -> bool, r: Run, seen: Run, start: nat, now: Run,
      slots: int, i: nat, f: nat, later: Run)
    returns (g: nat)
    requires AllAreFree(w, r) && DistinctIds(w) && w.failureStrategy == Continue
    requires i <= f && start <= f && WorkedUpTo(w, r, seen, start) && WorkedUpTo(w, r, now, f)
    requires later == Dispatch(w, accepts, seen, now, slots, i)
    ensures WorkedUpTo(w, r, later, g) && Filled(w, accepts, r, now, f, slots) == (g, RunningCount(later))
    decreases |w.nodes| - f, 1, |w.nodes| - i
  {
    if slots <= 0 {
      NoSlotsNoDispatch(w, accepts, seen, now, slots, i);
      g := f;
    } else if i == |w.nodes| {
      g := f;
    } else if i < f {
      assert !Claimable(w, seen, w.nodes[i].id) || !Guard(now, ClaimNode(w.nodes[i].id));
      g := DispatchFills(w, accepts, r, seen, start, now, slots, i + 1, f, later);
    } else if PendingAt(w, r, f) {
      g := DispatchOneFills(w, accepts, r, seen, start, now, slots, f, later);
    } else {
      NothingAt(w, r, now, f);
      assert !Claimable(w, seen, w.nodes[f].id);
      g := DispatchFills(w, accepts, r, seen, start, now, slots, f + 1, f + 1, later);
    }
  }

  /** What is left of the pass once the node at f has been tried. */
  lemma NextDispatch(w: Workflow, accepts: Job -> bool, r: Run, seen: Run, start: nat, now: Run, slots: int, f: nat)
    requires AllAreFree(w, r) && DistinctIds(w) && w.failureStrategy == Continue
    requires start <= f < |w.nodes| && WorkedUpTo(w, r, seen, start) && WorkedUpTo(w, r, now, f)
    requires slots > 0 && PendingAt(w, r, f)
    ensures var n := w.nodes[f].id;
      n in seen.nodes && seen.nodes[n] == r.nodes[n] && Guard(now, ClaimNode(n)) &&
      var claimed := Effect(seen, now, ClaimNode(n));
      Guard(claimed, FailNode(n)) &&
      Dispatch(w, accepts, seen, now, slots, f) ==
      if accepts(Job(n, seen.nodes[n].attempt)) then Dispatch(w, accepts, seen, claimed, slots - 1, f + 1)
      else Dispatch(w, accepts, seen, Proceed(w, accepts, Effect(claimed, claimed, FailNode(n))), slots, f + 1)
  {
    var n := w.nodes[f].id;
    assert seen.nodes[n] == r.nodes[n];
    StaysFree(w, r, seen, start, n);
    FailAt(w, r, seen, now, f);
    DispatchUnfolds(w, accepts, seen, now, slots, f);
    FailureProceeds(w, accepts, r, Effect(seen, now, ClaimNode(n)), n, f + 1);
  }

  lemma AcceptedIsFilled(w: Workflow, accepts: Job -> bool, r: Run, now: Run, claimed: Run, f: nat, slots: int)
    requires f < |w.nodes| && slots > 0 && PendingAt(w, r, f) && RunningCount(claimed) == RunningCount(now) + 1
    requires accepts(Job(w.nodes[f].id, r.nodes[w.nodes[f].id].attempt))
    ensures Filled(w, accepts, r, now, f, slots) == Filled(w, accepts, r, claimed, f + 1, slots - 1)
  {
    assert Verdicts(w, accepts, r)[f] == Accepted;
  }

  lemma RefusedIsFilled(w: Workflow, accepts: Job -> bool, r: Run, now: Run, failed: Run, middle: Run, inner: nat,
      f: nat, slots: int)
    requires f < |w.nodes| && slots > 0 && PendingAt(w, r, f) && RunningCount(failed) == RunningCount(now)
    requires !accepts(Job(w.nodes[f].id, r.nodes[w.nodes[f].id].attempt))
    requires Filled(w, accepts, r, failed, f + 1, Parallelism(w) - RunningCount(failed)) ==
      (inner, RunningCount(middle))
    ensures f < inner <= |w.nodes|
    ensures Filled(w, accepts, r, now, f, slots) == Filled(w, accepts, r, middle, inner, slots)
  {
    assert Verdicts(w, accepts, r)[f] == Refused;
  }

  lemma {:induction false} DispatchOneFills(w: Workflow, accepts: Job -> bool, r: Run, seen: Run, start: nat, now: Run,
      slots: int, f: nat, later: Run)
    returns (g: nat)
    requires AllAreFree(w, r) && DistinctIds(w) && w.failureStrategy == Continue
    requires start <= f < |w.nodes| && WorkedUpTo(w, r, seen, start) && WorkedUpTo(w, r, now, f)
    requires slots > 0 && PendingAt(w, r, f) && later == Dispatch(w, accepts, seen, now, slots, f)
    ensures WorkedUpTo(w, r, later, g) && Filled(w, accepts, r, now, f, slots) == (g, RunningCount(later))
    decreases |w.nodes| - f, 0, 0
  {
    NextDispatch(w, accepts, r, seen, start, now, slots, f);
    var n := w.nodes[f].id;
    var claimed := Effect(seen, now, ClaimNode(n));
    if accepts(Job(n, seen.nodes[n].attempt)) {
      ClaimAt(w, r, seen, now, f);
      AcceptedIsFilled(w, accepts, r, now, claimed, f, slots);
      g := DispatchFills(w, accepts, r, seen, start, claimed, slots - 1, f + 1, f + 1, later);
    } else {
      FailAt(w, r, seen, now, f);
      var failed := Effect(claimed, claimed, FailNode(n));
      var middle := Proceed(w, accepts, failed);
      var inner := ProceedFills(w, accepts, r, failed, f + 1, middle);
      RefusedIsFilled(w, accepts, r, now, failed, middle, inner, f, slots);
      g := DispatchFills(w, accepts, r, seen, start, middle, slots, f + 1, inner, later);
    }
  }

  /** So many nodes run after an undisturbed pass over nodes that wait for nothing. */
  lemma PassRuns(w: Workflow, accepts: Job -> bool, r: Run)
    requires AllAreFree(w, r) && DistinctIds(w) && w.failureStrategy == Continue && r.status == RunRunning
    ensures RunningCount(Pass(w, accepts, r)) == Filled(w, accepts, r, r, 0, Parallelism(w) - RunningCount(r)).1
  {
    PassProceeds(w, accepts, r, r, 0);
    var _ := ProceedFills(w, accepts, r, r, 0, Proceed(w, accepts, r));
  }

  /** When no pending node waits for anything, an undisturbed pass lets more nodes run than there are slots exactly
      when the queue accepts more jobs than there are free slots and refuses one before the free slots are used up. */
  lemma SlotsOverrunExactly(w: Workflow, accepts: Job -> bool, r: Run)
    requires AllAreFree(w, r) && DistinctIds(w) && w.failureStrategy == Continue && r.status == RunRunning
    requires RunningCount(r) <= Parallelism(w)
    ensures RunningCount(Pass(w, accepts, r)) > Parallelism(w) <==>
      Overruns(Verdicts(w, accepts, r), 0, Parallelism(w) - RunningCount(r))
  {
    PassRuns(w, accepts, r);
    FillOverrunsExactly(Verdicts(w, accepts, r), 0, RunningCount(r), Parallelism(w) - RunningCount(r), Parallelism(w));
  }

  lemma IdlePassRuns(w: Workflow, accepts: Job -> bool, r: Run, v: seq<Verdict>, slots: int)
    requires AllAreFree(w, r) && DistinctIds(w) && w.failureStrategy == Continue && r.status == RunRunning
    requires RunningCount(r) == 0 && Verdicts(w, accepts, r) == v && Parallelism(w) == slots
    ensures RunningCount(Pass(w, accepts, r)) == Fill(v, 0, 0, slots, slots).1
  {
    PassRuns(w, accepts, r);
  }

  // ----- a run that shows it -----

  const THREE: Workflow := Workflow(
    [WorkflowNode("x", "input", false, false, false, false), WorkflowNode("y", "input", false, false, false, false),
     WorkflowNode("z", "input", false, false, false, false)], [], Continue, 1)

  /** Three independent nodes, one slot, and a queue that refuses the job of x: after the first pass two nodes run. */
  method RefusedJobOverrunsTheSlots() returns (execution: WorkflowExecution)
    ensures execution.Valid() && execution.Quiet() && execution.w == THREE && Parallelism(THREE) == 1
    ensures forall job :: execution.queueAccepts(job) <==> job != Job("x", 0)
    ensures RunningCount(execution.run) == 2
  {
    var refusesX := (job: Job) => job != Job("x", 0);
    execution := new WorkflowExecution(THREE, {"x", "y", "z"}, true, refusesX, []);
    ghost var start := execution.run;
    TwoOfThree(refusesX, start);
    execution.ScheduleReadyNodes();
  }

  lemma FillOfThree()
    ensures Fill([Refused, Accepted, Accepted], 0, 0, 1, 1) == (3, 2)
  {
    var v := [Refused, Accepted, Accepted];
    assert Fill(v, 1, 0, 1, 1) == (2, 1);
    assert Fill(v, 2, 1, 1, 1) == (3, 2);
  }

  ghost predicate IsStartOfThree(r: Run) {
    Initial(THREE, {"x", "y", "z"}, r)
  }

  lemma ThreeAreFree(r: Run)
    requires IsStartOfThree(r)
    ensures AllAreFree(THREE, r) && RunningCount(r) == 0
  {
    assert NodesWith(r.nodes, Running) == {};
    forall n | n in r.nodes && r.nodes[n].status == Pending ensures IsFree(THREE, r, n) {}
  }

  lemma VerdictsOnThree(accepts: Job -> bool, r: Run)
    requires IsStartOfThree(r) && forall job :: accepts(job) <==> job != Job("x", 0)
    ensures Verdicts(THREE, accepts, r) == [Refused, Accepted, Accepted]
  {
    var nodes := THREE.nodes;
    assert nodes[0] in nodes && nodes[1] in nodes && nodes[2] in nodes;
    assert "x" in r.nodes && "y" in r.nodes && "z" in r.nodes;
  }

  lemma TwoOfThree(accepts: Job -> bool, r: Run)
    requires IsStartOfThree(r) && forall job :: accepts(job) <==> job != Job("x", 0)
    ensures RunningCount(Pass(THREE, accepts, r)) == 2
  {
    ThreeAreFree(r);
    VerdictsOnThree(accepts, r);
    FillOfThree();
    IdlePassRuns(THREE, accepts, r, [Refused, Accepted, Accepted], 1);
  }
}
