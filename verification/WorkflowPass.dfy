/** What a scheduling pass does: as a function of the run when nobody interferes, and as the writes it has issued
    when others do. */
module WorkflowPass {
  import opened Options
  import opened FiniteSets
  import opened ExecutionGraph
  import opened WorkflowProtocol

  predicate MovesANode(step: Step) {
    step.SkipNode? || step.ClaimNode? || step.CompleteNode? || step.FailNode?
  }

  function Parallelism(w: Workflow): int {
    if w.maxParallelism < 1 then 1 else w.maxParallelism
  }

  ghost function RunningCount(r: Run): nat {
    |NodesWith(r.nodes, Running)|
  }

  predicate Skippable(w: Workflow, r: Run, n: string) {
    n in r.nodes && r.nodes[n].status == Pending && ShouldSkip(w, r.nodes, n)
  }

  predicate Claimable(w: Workflow, r: Run, n: string) {
    n in r.nodes && r.nodes[n].status == Pending && Ready(w, r.nodes, n)
  }

  ghost predicate AtSkipFixpoint(w: Workflow, r: Run) {
    forall n :: n in r.nodes && r.nodes[n].status == Pending ==> !ShouldSkip(w, r.nodes, n)
  }

  // ----- a pass that nobody disturbs -----

  function AfterSkipping(r: Run, ids: set<string>): Run {
    r.(nodes := map n | n in r.nodes ::
      if n in ids && r.nodes[n].status == Pending then r.nodes[n].(status := Skipped) else r.nodes[n])
  }

  ghost function SkippableNodes(w: Workflow, r: Run): set<string> {
    set n | n in r.nodes && Skippable(w, r, n)
  }

  lemma SkippingUsesMoves(w: Workflow, r: Run, n: string)
    requires Skippable(w, r, n)
    ensures MovesLeft(AfterSkipping(r, SkippableNodes(w, r))) < MovesLeft(r)
  {
    var later := AfterSkipping(r, SkippableNodes(w, r));
    var pending, stillPending := NodesWith(r.nodes, Pending), NodesWith(later.nodes, Pending);
    assert NodesWith(later.nodes, Running) == NodesWith(r.nodes, Running);
    assert n in pending && n !in stillPending && stillPending <= pending - {n};
    SubsetIsNoLarger(stillPending, pending - {n});
  }

  /** The skip loop: round after round, each from a new snapshot, until a round has nothing to skip. */
  ghost function SkipAll(w: Workflow, r: Run): (s: Run)
    ensures MovesLeft(s) <= MovesLeft(r)
    decreases MovesLeft(r)
  {
    if r.status == RunRunning && exists n :: Skippable(w, r, n) then
      var n :| Skippable(w, r, n);
      SkippingUsesMoves(w, r, n);
      SkipAll(w, AfterSkipping(r, SkippableNodes(w, r)))
    else r
  }

  /** The winner of a finalising write removes the lease. */
  function Released(r: Run): Run {
    Write(r, r, ReleaseLease)
  }

  lemma NodeWriteUsesAMove(seen: Run, now: Run, step: Step)
    requires MovesANode(step) && Guard(now, step)
    ensures MovesLeft(Effect(seen, now, step)) < MovesLeft(now)
  {
    var next := Effect(seen, now, step);
    forall n | n in now.nodes ensures NodeEvolves(now.nodes[n], next.nodes[n]) {}
    StepUsesMoves(now, next);
    assert step.n in Moved(now, next);
  }

  /** One scheduling pass. */
  ghost function Pass(w: Workflow, accepts: Job -> bool, r: Run): (s: Run)
    ensures MovesLeft(s) <= MovesLeft(r)
    decreases MovesLeft(r), 3, 0
  {
    Proceed(w, accepts, SkipAll(w, r))
  }

  /** The pass after its skip loop, from the last snapshot. */
  ghost function Proceed(w: Workflow, accepts: Job -> bool, seen: Run): (s: Run)
    ensures MovesLeft(s) <= MovesLeft(seen)
    decreases MovesLeft(seen), 2, 0
  {
    if seen.status != RunRunning then seen
    else if AllTerminal(seen.nodes) then Released(Write(seen, seen, FinishPass))
    else Dispatch(w, accepts, seen, seen, Parallelism(w) - RunningCount(seen), 0)
  }

  /** Claims ready nodes of the snapshot, from the node at i on, while there are free slots. */
  ghost function Dispatch(w: Workflow, accepts: Job -> bool, seen: Run, now: Run, slots: int, i: nat): (s: Run)
    requires i <= |w.nodes|
    ensures MovesLeft(s) <= MovesLeft(now)
    decreases MovesLeft(now), 1, |w.nodes| - i
  {
    if i == |w.nodes| then now
    else
      var n := w.nodes[i].id;
      if slots <= 0 || !Claimable(w, seen, n) then Dispatch(w, accepts, seen, now, slots, i + 1)
      else
        var (next, enqueued) := Enqueue(w, accepts, seen, now, n);
        Dispatch(w, accepts, seen, next, if enqueued then slots - 1 else slots, i + 1)
  }

  lemma {:induction false} NoSlotsNoDispatch(w: Workflow, accepts: Job -> bool, seen: Run, now: Run, slots: int, i: nat)
    requires i <= |w.nodes| && slots <= 0
    ensures Dispatch(w, accepts, seen, now, slots, i) == now
    decreases |w.nodes| - i
  {
    if i == |w.nodes| {
    } else {
      NoSlotsNoDispatch(w, accepts, seen, now, slots, i + 1);
    }
  }

  /** Claims a node and hands its job to the queue; a queue that refuses the job fails the node. */
  ghost function Enqueue(w: Workflow, accepts: Job -> bool, seen: Run, now: Run, n: string): (r: (Run, bool))
    requires n in seen.nodes
    ensures MovesLeft(r.0) <= MovesLeft(now)
    decreases MovesLeft(now), 0, 0
  {
    if !Guard(now, ClaimNode(n)) then (now, false)
    else
      var claimed := Effect(seen, now, ClaimNode(n));
      NodeWriteUsesAMove(seen, now, ClaimNode(n));
      if accepts(Job(n, seen.nodes[n].attempt)) then (claimed, true)
      else (AfterFailed(w, accepts, claimed, n), false)
  }

  /** A job reports failure, or its node could not be queued. */
  ghost function AfterFailed(w: Workflow, accepts: Job -> bool, now: Run, n: string): (s: Run)
    ensures MovesLeft(s) <= MovesLeft(now)
    decreases MovesLeft(now), 4, 0
  {
    if !Guard(now, FailNode(n)) then now
    else
      var failed := Effect(now, now, FailNode(n));
      NodeWriteUsesAMove(now, now, FailNode(n));
      if w.failureStrategy == FailFast then Released(Write(failed, failed, FinishFailFast))
      else Pass(w, accepts, failed)
  }

  /** A job reports success. */
  ghost function AfterCompleted(w: Workflow, accepts: Job -> bool, now: Run, n: string, branch: Option<string>)
    : (s: Run)
    ensures MovesLeft(s) <= MovesLeft(now)
  {
    if !Guard(now, CompleteNode(n, branch)) then now
    else
      var done := Effect(now, now, CompleteNode(n, branch));
      NodeWriteUsesAMove(now, now, CompleteNode(n, branch));
      if AllFine(done.nodes) then Released(Write(done, done, FinishCompleted)) else Pass(w, accepts, done)
  }

  lemma ProceedUnfolds(w: Workflow, accepts: Job -> bool, now: Run)
    requires now.status == RunRunning && !AllTerminal(now.nodes)
    ensures Proceed(w, accepts, now) == Dispatch(w, accepts, now, now, Parallelism(w) - RunningCount(now), 0)
  {
  }

  lemma DispatchUnfolds(w: Workflow, accepts: Job -> bool, seen: Run, now: Run, slots: int, i: nat)
    requires i < |w.nodes| && slots > 0 && Claimable(w, seen, w.nodes[i].id) && Guard(now, ClaimNode(w.nodes[i].id))
    ensures var n := w.nodes[i].id;
      var claimed := Effect(seen, now, ClaimNode(n));
      Dispatch(w, accepts, seen, now, slots, i) ==
      if accepts(Job(n, seen.nodes[n].attempt)) then Dispatch(w, accepts, seen, claimed, slots - 1, i + 1)
      else Dispatch(w, accepts, seen, AfterFailed(w, accepts, claimed, n), slots, i + 1)
  {
  }

  // ----- what the passes of many workers leave behind -----

  /** A worker that read h[i] has issued this write; other writes may have come in before it. */
  ghost predicate Issued(h: seq<Run>, i: nat, step: Step)
    requires i < |h|
  {
    exists k :: i <= k < |h| - 1 && h[k + 1] == Write(h[i], h[k], step)
  }

  ghost predicate HasSkip(w: Workflow, seen: Run) {
    exists n :: Decides(w, seen, SkipNode(n))
  }

  ghost predicate HasClaim(w: Workflow, seen: Run) {
    exists n :: Decides(w, seen, ClaimNode(n))
  }

  ghost predicate IssuedSkip(w: Workflow, h: seq<Run>, i: nat)
    requires i < |h|
  {
    exists n :: Decides(w, h[i], SkipNode(n)) && Issued(h, i, SkipNode(n))
  }

  ghost predicate IssuedClaim(w: Workflow, h: seq<Run>, i: nat)
    requires i < |h|
  {
    exists n :: Decides(w, h[i], ClaimNode(n)) && Issued(h, i, ClaimNode(n))
  }

  /** A pass that read h[i] has done at least this much: skipped something if there was something to skip, else
      finalised if everything was done, else claimed something if it saw a free slot and a ready node. */
  ghost predicate PassFinished(w: Workflow, h: seq<Run>, i: nat)
    requires i < |h|
  {
    h[i].status == RunRunning ==>
      if HasSkip(w, h[i]) then IssuedSkip(w, h, i)
      else if AllTerminal(h[i].nodes) then Issued(h, i, FinishPass)
      else RunningCount(h[i]) < Parallelism(w) && HasClaim(w, h[i]) ==> IssuedClaim(w, h, i)
  }

  /** Somebody read the run at j or later and finished a pass, or ended the run because of a failure. */
  ghost predicate FollowedUp(w: Workflow, h: seq<Run>, j: nat)
    requires j < |h|
  {
    exists i :: j <= i < |h| && (PassFinished(w, h, i) || Issued(h, i, FinishFailFast))
  }

  /** A job's report has been written from this moment on, and if it changed the run, it has been followed up. */
  ghost predicate Handled(w: Workflow, h: seq<Run>, from: nat, step: Step) {
    exists k :: from <= k < |h| - 1 && h[k + 1] == Write(h[k], h[k], step)
      && (h[k + 1].nodes != h[k].nodes ==> FollowedUp(w, h, k + 1))
  }
}
