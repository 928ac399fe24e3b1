/** A workflow run as a protocol: workers decide from a snapshot of the run document, which may be stale, and
    write with updates whose conditions are checked against the current document. */
module WorkflowProtocol {
  import opened Options
  import opened FiniteSets
  import opened ExecutionGraph

  datatype NodeStatus = Pending | Running | Succeeded | Failed | Skipped | Cancelled

  /** `branch` is the branchId of the node's output, if it has one. */
  datatype NodeState = NodeState(status: NodeStatus, branch: Option<string>, attempt: nat)

  datatype RunStatus = RunRunning | RunSucceeded | RunFailed | RunCancelled

  type Nodes = map<string, NodeState>

  datatype Job = Job(nodeId: string, attempt: nat)

  /** The run document, the jobs handed to the queue so far, and the lease. `leased` says whether the owner's set of
      leases has the run's id. `owed` counts the workers that have won a finalising write and have yet to remove that
      id, `released` those that have removed it. */
  datatype Run = Run(status: RunStatus, nodes: Nodes, queue: seq<Job>, leased: bool, owed: nat, released: nat)

  predicate IsTerminal(s: NodeStatus) {
    s == Succeeded || s == Failed || s == Skipped || s == Cancelled
  }

  predicate Started(s: NodeStatus) {
    s == Running || s == Succeeded || s == Failed
  }

  predicate IsDone(s: NodeStatus) {
    s == Succeeded || s == Skipped
  }

  // ----- decisions taken from a snapshot -----

  /** An incoming edge of n whose source is part of the run and not skipped. */
  predicate Selected(nodes: Nodes, e: WorkflowEdge, n: string) {
    e.target == n && e.source in nodes && nodes[e.source].status != Skipped
  }

  /** An edge without a label, or whose label is the branch that its source chose. */
  predicate ActiveBranch(nodes: Nodes, e: WorkflowEdge) {
    e.branchId.None? || (e.source in nodes && nodes[e.source].branch == e.branchId)
  }

  predicate HasInactiveBranch(w: Workflow, nodes: Nodes, n: string) {
    && (exists e :: e in w.edges && Selected(nodes, e, n))
    && (forall e :: e in w.edges && Selected(nodes, e, n) ==>
      !ActiveBranch(nodes, e) && IsTerminal(nodes[e.source].status))
  }

  predicate HasFailedDependency(w: Workflow, nodes: Nodes, n: string) {
    exists e :: e in w.edges && Selected(nodes, e, n) && ActiveBranch(nodes, e) &&
      (nodes[e.source].status == Failed || nodes[e.source].status == Cancelled)
  }

  predicate ShouldSkip(w: Workflow, nodes: Nodes, n: string) {
    HasInactiveBranch(w, nodes, n) || HasFailedDependency(w, nodes, n)
  }

  predicate Ready(w: Workflow, nodes: Nodes, n: string) {
    forall e :: e in w.edges && Selected(nodes, e, n) && ActiveBranch(nodes, e) ==>
      nodes[e.source].status == Succeeded
  }

  predicate AllTerminal(nodes: Nodes) {
    forall n :: n in nodes ==> IsTerminal(nodes[n].status)
  }

  predicate AllFine(nodes: Nodes) {
    forall n :: n in nodes ==> nodes[n].status == Succeeded || nodes[n].status == Skipped
  }

  predicate AnyFailed(nodes: Nodes) {
    exists n :: n in nodes && nodes[n].status == Failed
  }

  /** The writes of all workers. ReleaseLease is the Redis call after a won finalising write. */
  datatype Step =
    | SkipNode(n: string)
    | ClaimNode(n: string)
    | CompleteNode(n: string, branch: Option<string>)
    | FailNode(n: string)
    | FinishCompleted
    | FinishFailFast
    | FinishPass
    | CancelRun
    | ReleaseLease

  /** A worker that read `seen` may issue this write. Job reports, cancellation and lease releases need no snapshot. */
  predicate Decides(w: Workflow, seen: Run, step: Step) {
    match step
    case SkipNode(n) => seen.status == RunRunning && n in seen.nodes && seen.nodes[n].status == Pending &&
      ShouldSkip(w, seen.nodes, n)
    case ClaimNode(n) => seen.status == RunRunning && n in seen.nodes && seen.nodes[n].status == Pending &&
      Ready(w, seen.nodes, n)
    case CompleteNode(_, _) => true
    case FailNode(_) => true
    case FinishCompleted => AllFine(seen.nodes)
    case FinishFailFast => w.failureStrategy == FailFast && AnyFailed(seen.nodes)
    case FinishPass => seen.status == RunRunning && AllTerminal(seen.nodes)
    case CancelRun => true
    case ReleaseLease => true
  }

  // ----- conditional updates -----

  predicate CanMove(now: Run, n: string, from: NodeStatus) {
    now.status == RunRunning && n in now.nodes && now.nodes[n].status == from
  }

  function SetNode(now: Run, n: string, state: NodeState): Run {
    now.(nodes := now.nodes[n := state])
  }

  function Finalise(now: Run, status: RunStatus): Run {
    now.(status := status, owed := now.owed + 1)
  }

  function CancelNodes(nodes: Nodes): Nodes {
    map n | n in nodes ::
      if nodes[n].status == Pending || nodes[n].status == Running then nodes[n].(status := Cancelled) else nodes[n]
  }

  /** The condition of the update, checked by the database against the current document. */
  predicate Guard(now: Run, step: Step) {
    match step
    case SkipNode(n) => CanMove(now, n, Pending)
    case ClaimNode(n) => CanMove(now, n, Pending)
    case CompleteNode(n, _) => CanMove(now, n, Running)
    case FailNode(n) => CanMove(now, n, Running)
    case FinishCompleted => now.status == RunRunning && AllFine(now.nodes)
    case FinishFailFast => now.status == RunRunning
    case FinishPass => now.status == RunRunning && AllTerminal(now.nodes)
    case CancelRun => now.status == RunRunning
    case ReleaseLease => now.owed > 0
  }

  /** What the update writes. The job id of a claim carries the attempt of the snapshot. */
  function Effect(seen: Run, now: Run, step: Step): Run
    requires Guard(now, step)
  {
    match step
    case SkipNode(n) => SetNode(now, n, now.nodes[n].(status := Skipped))
    case ClaimNode(n) =>
      var attempt := if n in seen.nodes then seen.nodes[n].attempt else 0;
      SetNode(now, n, now.nodes[n].(status := Running)).(queue := now.queue + [Job(n, attempt)])
    case CompleteNode(n, branch) => SetNode(now, n, now.nodes[n].(status := Succeeded, branch := branch))
    case FailNode(n) => SetNode(now, n, now.nodes[n].(status := Failed))
    case FinishCompleted => Finalise(now, RunSucceeded)
    case FinishFailFast => Finalise(now, RunFailed)
    case FinishPass => Finalise(now, if AnyFailed(seen.nodes) then RunFailed else RunSucceeded)
    case CancelRun => Finalise(now, RunCancelled).(nodes := CancelNodes(now.nodes))
    case ReleaseLease => now.(leased := false, owed := now.owed - 1, released := now.released + 1)
  }

  function Write(seen: Run, now: Run, step: Step): Run {
    if Guard(now, step) then Effect(seen, now, step) else now
  }

  /** A fresh run: every node pending or, if it was not selected, skipped. An unknown owner gets no lease. */
  predicate Initial(w: Workflow, targets: set<string>, r: Run) {
    && r.status == RunRunning && r.queue == [] && r.owed == 0 && r.released == 0
    && r.nodes.Keys == (set d | d in w.nodes :: d.id)
    && (forall n :: n in r.nodes ==> r.nodes[n] == NodeState(if n in targets then Pending else Skipped, None, 0))
  }

  // ----- histories -----

  ghost predicate FollowsBy(w: Workflow, h: seq<Run>, k: nat, i: nat, step: Step)
    requires i <= k < |h| - 1
  {
    Decides(w, h[i], step) && h[k + 1] == Write(h[i], h[k], step)
  }

  /** The write that leads from h[k] to h[k + 1] was decided from some state no later than h[k]. */
  ghost predicate Follows(w: Workflow, h: seq<Run>, k: nat)
    requires k < |h| - 1
  {
    exists i: nat, step :: i <= k && FollowsBy(w, h, k, i, step)
  }

  /** Every interleaving of any number of workers, however stale the snapshots they act on. */
  ghost predicate IsHistory(w: Workflow, targets: set<string>, h: seq<Run>) {
    && |h| > 0
    && Initial(w, targets, h[0])
    && forall k :: 0 <= k < |h| - 1 ==> Follows(w, h, k)
  }

  // ----- what every history keeps -----

  /** How a run may change between two moments: nothing terminal ever changes again. */
  ghost predicate Evolves(a: Run, b: Run) {
    && a.nodes.Keys == b.nodes.Keys
    && (a.status != RunRunning ==> b.status == a.status && b.nodes == a.nodes)
    && (forall n :: n in a.nodes ==> NodeEvolves(a.nodes[n], b.nodes[n]))
  }

  ghost predicate NodeEvolves(a: NodeState, b: NodeState) {
    && a.attempt == b.attempt
    && (IsTerminal(a.status) ==> b == a)
    && (a.status == Running ==> b.status != Pending && b.status != Skipped)
  }

  /** The status of the run against the statuses of its nodes. */
  ghost predicate Coherent(r: Run) {
    && (r.status != RunCancelled ==> forall n :: n in r.nodes ==> r.nodes[n].status != Cancelled)
    && (r.status == RunCancelled ==> AllTerminal(r.nodes))
    && (r.status == RunSucceeded ==> AllFine(r.nodes))
    && (r.status == RunFailed ==> AnyFailed(r.nodes))
    && (forall n :: n in r.nodes && r.nodes[n].status != Succeeded ==> r.nodes[n].branch == None)
  }

  /** A started node has every source of its unlabelled incoming edges succeeded or skipped. */
  ghost predicate Ordered(w: Workflow, r: Run) {
    forall e :: e in w.edges && e.branchId.None? && e.source in r.nodes && e.target in r.nodes ==>
      Started(r.nodes[e.target].status) ==> IsDone(r.nodes[e.source].status)
  }

  /** Why a selected node was skipped: a dependency failed, or every source is done and none of them chose it. */
  ghost predicate Explained(w: Workflow, nodes: Nodes, n: string) {
    || (exists e :: e in w.edges && e.target == n && e.source in nodes && nodes[e.source].status == Failed)
    || (&& (exists e :: e in w.edges && Selected(nodes, e, n))
        && (forall e :: e in w.edges && e.target == n && e.source in nodes ==> NotChosen(nodes, e)))
  }

  ghost predicate NotChosen(nodes: Nodes, e: WorkflowEdge)
    requires e.source in nodes
  {
    IsTerminal(nodes[e.source].status) && (nodes[e.source].status != Skipped ==> !ActiveBranch(nodes, e))
  }

  ghost predicate SkipsExplained(w: Workflow, targets: set<string>, r: Run) {
    forall n :: n in targets && n in r.nodes && r.nodes[n].status == Skipped ==> Explained(w, r.nodes, n)
  }

  /** No (node, attempt) was handed to the queue twice, and none that is still to come was handed over already. */
  ghost predicate DispatchedOnce(r: Run) {
    && Distinct(r.queue)
    && (forall j :: j in r.queue ==> j.nodeId in r.nodes && j.attempt <= r.nodes[j.nodeId].attempt)
    && (forall j :: j in r.queue && (r.nodes[j.nodeId].status == Pending || r.nodes[j.nodeId].status == Skipped) ==>
      j.attempt < r.nodes[j.nodeId].attempt)
  }

  ghost predicate Safe(w: Workflow, targets: set<string>, r: Run) {
    Coherent(r) && Ordered(w, r) && SkipsExplained(w, targets, r) && DispatchedOnce(r)
  }

  lemma StepEvolves(w: Workflow, seen: Run, now: Run, step: Step)
    requires Coherent(now)
    ensures Evolves(now, Write(seen, now, step))
  {
  }

  lemma EvolvesTransitive(a: Run, b: Run, c: Run)
    requires Evolves(a, b) && Evolves(b, c)
    ensures Evolves(a, c)
  {
    forall n | n in a.nodes ensures NodeEvolves(a.nodes[n], c.nodes[n]) {
      assert NodeEvolves(a.nodes[n], b.nodes[n]) && NodeEvolves(b.nodes[n], c.nodes[n]);
    }
  }

  lemma StepKeepsCoherent(w: Workflow, seen: Run, now: Run, step: Step)
    requires Coherent(seen) && Coherent(now) && Evolves(seen, now) && Decides(w, seen, step)
    ensures Coherent(Write(seen, now, step))
  {
    if Guard(now, step) {
      match step
      case FinishFailFast =>
        var n :| n in seen.nodes && seen.nodes[n].status == Failed;
        assert NodeEvolves(seen.nodes[n], now.nodes[n]);
      case FinishPass =>
        forall n | n in seen.nodes ensures now.nodes[n] == seen.nodes[n] {
          assert NodeEvolves(seen.nodes[n], now.nodes[n]);
        }
      case _ =>
    }
  }

  /** A node that this step starts was ready when the snapshot was read, and what it needs has stayed done. */
  lemma StartedWhenReady(w: Workflow, seen: Run, now: Run, n: string, e: WorkflowEdge)
    requires Evolves(seen, now) && Decides(w, seen, ClaimNode(n))
    requires e in w.edges && e.branchId.None? && e.target == n && e.source in now.nodes
    ensures IsDone(now.nodes[e.source].status)
  {
    assert NodeEvolves(seen.nodes[e.source], now.nodes[e.source]);
    assert seen.nodes[e.source].status != Skipped ==> Selected(seen.nodes, e, n) && ActiveBranch(seen.nodes, e);
  }

  lemma StepKeepsOrder(w: Workflow, seen: Run, now: Run, step: Step)
    requires Coherent(seen) && Coherent(now) && Evolves(seen, now) && Decides(w, seen, step)
    requires Ordered(w, now)
    ensures Ordered(w, Write(seen, now, step))
  {
    var next := Write(seen, now, step);
    StepEvolves(w, seen, now, step);
    forall e | e in w.edges && e.branchId.None? && e.target in next.nodes && Started(next.nodes[e.target].status) &&
        e.source in next.nodes
      ensures IsDone(next.nodes[e.source].status)
    {
      assert NodeEvolves(now.nodes[e.source], next.nodes[e.source]);
      if !Started(now.nodes[e.target].status) {
        assert step == ClaimNode(e.target);
        StartedWhenReady(w, seen, now, e.target, e);
      }
    }
  }

  lemma ExplainedStays(w: Workflow, a: Run, b: Run, n: string)
    requires Evolves(a, b) && Explained(w, a.nodes, n)
    ensures Explained(w, b.nodes, n)
  {
    forall e | e in w.edges && e.target == n && e.source in a.nodes
      ensures NodeEvolves(a.nodes[e.source], b.nodes[e.source])
    {}
    if e :| e in w.edges && e.target == n && e.source in a.nodes && a.nodes[e.source].status == Failed {
      assert b.nodes[e.source].status == Failed;
    } else {
      var e :| e in w.edges && Selected(a.nodes, e, n);
      assert NotChosen(a.nodes, e);
      assert Selected(b.nodes, e, n);
      forall e | e in w.edges && e.target == n && e.source in b.nodes ensures NotChosen(b.nodes, e) {
        assert NotChosen(a.nodes, e);
      }
    }
  }

  lemma SkipIsExplained(w: Workflow, seen: Run, n: string)
    requires Coherent(seen) && seen.status == RunRunning && ShouldSkip(w, seen.nodes, n)
    ensures Explained(w, seen.nodes, n)
  {
    if HasFailedDependency(w, seen.nodes, n) {
    } else {
      forall e | e in w.edges && e.target == n && e.source in seen.nodes ensures NotChosen(seen.nodes, e) {
        if seen.nodes[e.source].status != Skipped { assert Selected(seen.nodes, e, n); }
      }
    }
  }

  lemma StepKeepsExplanations(w: Workflow, targets: set<string>, seen: Run, now: Run, step: Step)
    requires Coherent(seen) && Coherent(now) && Evolves(seen, now) && Decides(w, seen, step)
    requires SkipsExplained(w, targets, now)
    ensures SkipsExplained(w, targets, Write(seen, now, step))
  {
    var next := Write(seen, now, step);
    StepEvolves(w, seen, now, step);
    EvolvesTransitive(seen, now, next);
    forall n | n in targets && n in next.nodes && next.nodes[n].status == Skipped ensures Explained(w, next.nodes, n) {
      if now.nodes[n].status == Skipped {
        ExplainedStays(w, now, next, n);
      } else {
        assert step == SkipNode(n);
        SkipIsExplained(w, seen, n);
        ExplainedStays(w, seen, next, n);
      }
    }
  }

  lemma StepKeepsDispatch(w: Workflow, seen: Run, now: Run, step: Step)
    requires Evolves(seen, now) && Decides(w, seen, step)
    requires DispatchedOnce(now)
    ensures DispatchedOnce(Write(seen, now, step))
  {
    if Guard(now, step) {
      match step
      case ClaimNode(n) =>
        assert NodeEvolves(seen.nodes[n], now.nodes[n]);
        assert Job(n, seen.nodes[n].attempt) !in now.queue;
      case _ =>
    }
  }

  lemma StepKeepsSafe(w: Workflow, targets: set<string>, seen: Run, now: Run, step: Step)
    requires Safe(w, targets, seen) && Safe(w, targets, now) && Evolves(seen, now) && Decides(w, seen, step)
    ensures Safe(w, targets, Write(seen, now, step))
    ensures Evolves(now, Write(seen, now, step))
  {
    StepEvolves(w, seen, now, step);
    StepKeepsCoherent(w, seen, now, step);
    StepKeepsOrder(w, seen, now, step);
    StepKeepsExplanations(w, targets, seen, now, step);
    StepKeepsDispatch(w, seen, now, step);
  }

  /** Every reachable state is safe, and every later state evolves from it, under any interleaving. */
  lemma {:induction false} HistoriesAreSafe(w: Workflow, targets: set<string>, h: seq<Run>, i: nat, k: nat)
    requires IsHistory(w, targets, h) && i <= k < |h|
    ensures Safe(w, targets, h[i]) && Safe(w, targets, h[k]) && Evolves(h[i], h[k])
    decreases k
  {
    if k == 0 {
      InitialIsSafe(w, targets, h[0]);
    } else {
      assert Follows(w, h, k - 1);
      var j: nat, step :| j <= k - 1 && FollowsBy(w, h, k - 1, j, step);
      HistoriesAreSafe(w, targets, h, j, k - 1);
      StepKeepsSafe(w, targets, h[j], h[k - 1], step);
      if i < k {
        HistoriesAreSafe(w, targets, h, i, k - 1);
        EvolvesTransitive(h[i], h[k - 1], h[k]);
      } else {
        EvolvesReflexive(h[k]);
      }
    }
  }

  lemma EvolvesReflexive(r: Run)
    requires Coherent(r)
    ensures Evolves(r, r)
  {
    forall n | n in r.nodes ensures NodeEvolves(r.nodes[n], r.nodes[n]) {}
  }

  lemma InitialIsSafe(w: Workflow, targets: set<string>, r: Run)
    requires Initial(w, targets, r)
    ensures Safe(w, targets, r) && Evolves(r, r)
  {
    assert Coherent(r);
    EvolvesReflexive(r);
  }

  // ----- the main results, in the words of the design -----

  /** Dependency order: whenever a node runs or has run, what it depends on without a label is done. */
  lemma DependencyOrder(w: Workflow, targets: set<string>, h: seq<Run>, k: nat, e: WorkflowEdge)
    requires IsHistory(w, targets, h) && k < |h|
    requires e in w.edges && e.branchId.None? && e.source in h[k].nodes && e.target in h[k].nodes
    requires Started(h[k].nodes[e.target].status)
    ensures h[k].nodes[e.source].status == Succeeded || h[k].nodes[e.source].status == Skipped
  {
    HistoriesAreSafe(w, targets, h, k, k);
  }

  /** A finalising write: the run stops being active. */
  ghost predicate Finalises(h: seq<Run>, k: nat)
    requires k < |h| - 1
  {
    h[k].status == RunRunning && h[k + 1].status != RunRunning
  }

  /** At most one finalising write wins; after it nothing but the lease changes. The lease stays until the winner
      removes it, which it does once. */
  lemma OneFinalisation(w: Workflow, targets: set<string>, h: seq<Run>, j: nat, k: nat)
    requires IsHistory(w, targets, h) && j < |h| - 1 && Finalises(h, j)
    requires k < |h|
    ensures k < |h| - 1 && Finalises(h, k) ==> k == j
    ensures k > j ==> h[k].status == h[j + 1].status && h[k].nodes == h[j + 1].nodes
    ensures k > j ==> h[k].owed + h[k].released == 1 && h[k].leased == (h[0].leased && h[k].owed == 1)
    ensures k <= j ==> h[k].owed + h[k].released == 0 && h[k].leased == h[0].leased
  {
    OneLease(w, targets, h, k);
    if k > j {
      HistoriesAreSafe(w, targets, h, j + 1, k);
    } else {
      HistoriesAreSafe(w, targets, h, k, j);
      HistoriesAreSafe(w, targets, h, k, k);
      if k < j { HistoriesAreSafe(w, targets, h, k + 1, j); }
    }
  }

  /** In a run without retries the lease is there exactly while no release has happened, and none is owed before the
      run has ended. */
  lemma {:induction false} OneLease(w: Workflow, targets: set<string>, h: seq<Run>, k: nat)
    requires IsHistory(w, targets, h) && k < |h|
    ensures h[k].leased == (h[0].leased && h[k].released == 0)
    ensures h[k].owed + h[k].released == if h[k].status == RunRunning then 0 else 1
    decreases k
  {
    if k == 0 {
    } else {
      assert Follows(w, h, k - 1);
      OneLease(w, targets, h, k - 1);
    }
  }

  /** What the final status says about the nodes. */
  lemma FinalStatusIsRight(w: Workflow, targets: set<string>, h: seq<Run>, k: nat)
    requires IsHistory(w, targets, h) && k < |h|
    ensures h[k].status == RunSucceeded ==> AllFine(h[k].nodes)
    ensures h[k].status == RunFailed ==> AnyFailed(h[k].nodes)
    ensures h[k].status == RunCancelled ==> AllTerminal(h[k].nodes)
    ensures h[k].status == RunRunning ==> forall n :: n in h[k].nodes ==> h[k].nodes[n].status != Cancelled
    ensures forall n :: n in targets && n in h[k].nodes && h[k].nodes[n].status == Skipped ==>
      Explained(w, h[k].nodes, n)
  {
    HistoriesAreSafe(w, targets, h, k, k);
  }

  /** Over the whole run no (node, attempt) is enqueued twice. */
  lemma DispatchAtMostOnce(w: Workflow, targets: set<string>, h: seq<Run>, k: nat)
    requires IsHistory(w, targets, h) && k < |h|
    ensures Distinct(h[k].queue)
  {
    HistoriesAreSafe(w, targets, h, k, k);
  }

  // ----- labelled edges do not hold a node back -----

  /** Every unlabelled edge into n from a node of the run has a source that is done. */
  predicate UnlabelledSourcesDone(w: Workflow, nodes: Nodes, n: string) {
    forall e :: e in w.edges && e.target == n && e.branchId.None? && e.source in nodes ==>
      nodes[e.source].status == Succeeded || nodes[e.source].status == Skipped
  }

  lemma ClaimsIgnoreLabels(w: Workflow, r: Run, n: string)
    requires Coherent(r) && r.status == RunRunning && n in r.nodes && r.nodes[n].status == Pending
    ensures Decides(w, r, ClaimNode(n)) <==> UnlabelledSourcesDone(w, r.nodes, n)
  {
    var nodes := r.nodes;
    if Ready(w, nodes, n) {
      forall e | e in w.edges && e.target == n && e.branchId.None? && e.source in nodes
        ensures nodes[e.source].status == Succeeded || nodes[e.source].status == Skipped
      {
        assert nodes[e.source].status != Skipped ==> Selected(nodes, e, n) && ActiveBranch(nodes, e);
      }
    }
  }

  /** In every state of every run, a pending node may be claimed exactly when its unlabelled sources are done. So a
      branch target starts before the condition that guards it, unless another edge holds it back. */
  lemma LabelledEdgesNeverHoldBack(w: Workflow, targets: set<string>, h: seq<Run>, k: nat, n: string)
    requires IsHistory(w, targets, h) && k < |h|
    requires h[k].status == RunRunning && n in h[k].nodes && h[k].nodes[n].status == Pending
    ensures Decides(w, h[k], ClaimNode(n)) <==> UnlabelledSourcesDone(w, h[k].nodes, n)
  {
    HistoriesAreSafe(w, targets, h, k, k);
    ClaimsIgnoreLabels(w, h[k], n);
  }

  /** So the first pass may claim a selected node exactly when all its edges from selected nodes carry a label. */
  lemma ReadyAtStart(w: Workflow, targets: set<string>, r: Run, n: string)
    requires Initial(w, targets, r) && n in r.nodes && n in targets
    ensures Decides(w, r, ClaimNode(n)) <==>
      forall e :: e in w.edges && e.target == n && e.source in r.nodes && e.source in targets ==> e.branchId.Some?
  {
    LabelledEdgesNeverHoldBack(w, targets, [r], 0, n);
  }

  /** A condition with one labelled edge: its branch is claimed while the condition is still pending. */
  lemma BranchOvertakesItsCondition() returns (w: Workflow, h: seq<Run>)
    ensures IsHistory(w, {"if", "then"}, h) && |h| == 2
    ensures w.edges == [WorkflowEdge("e", "if", "then", Some("yes"))]
    ensures "if" in h[1].nodes && h[1].nodes["if"].status == Pending
    ensures "then" in h[1].nodes && h[1].nodes["then"].status == Running
  {
    var condition := WorkflowNode("if", "condition", false, true, false, false);
    var branch := WorkflowNode("then", "input", false, false, false, false);
    w := Workflow([condition, branch], [WorkflowEdge("e", "if", "then", Some("yes"))], FailFast, 5);
    var untouched := NodeState(Pending, None, 0);
    var start := Run(RunRunning, map["if" := untouched, "then" := untouched], [], true, 0, 0);
    forall n ensures n in start.nodes <==> n in set d | d in w.nodes :: d.id {
      assert condition in w.nodes && branch in w.nodes;
    }
    h := [start, Write(start, start, ClaimNode("then"))];
    assert FollowsBy(w, h, 0, 0, ClaimNode("then"));
  }

  // ----- how long a run can be -----

  ghost function NodesWith(nodes: Nodes, s: NodeStatus): set<string> {
    set n | n in nodes && nodes[n].status == s
  }

  /** Moves left: two for a pending node, one for a running one. */
  ghost function MovesLeft(r: Run): nat {
    2 * |NodesWith(r.nodes, Pending)| + |NodesWith(r.nodes, Running)|
  }

  ghost function Moved(a: Run, b: Run): set<string> {
    set n | n in a.nodes && n in b.nodes && a.nodes[n].status != b.nodes[n].status
  }

  /** The number of times a node changed its status in the first k writes. */
  ghost function Transitions(h: seq<Run>, k: nat): nat
    requires k < |h|
  {
    if k == 0 then 0 else Transitions(h, k - 1) + |Moved(h[k - 1], h[k])|
  }

  /** A step uses up at least one move for every node it changes. */
  lemma StepUsesMoves(a: Run, b: Run)
    requires Evolves(a, b)
    ensures MovesLeft(b) + |Moved(a, b)| <= MovesLeft(a)
  {
    forall n | n in a.nodes ensures NodeEvolves(a.nodes[n], b.nodes[n]) {}
    var p, r, p', r' :=
      NodesWith(a.nodes, Pending), NodesWith(a.nodes, Running),
      NodesWith(b.nodes, Pending), NodesWith(b.nodes, Running);
    CountMoves(p, r, p', r', Moved(a, b));
  }

  lemma CountMoves(p: set<string>, r: set<string>, p': set<string>, r': set<string>, moved: set<string>)
    requires p !! r && p' <= p && moved <= p + r
    requires moved * p == p - p'
    requires r' <= (r - moved) + (p - p')
    ensures 2 * |p'| + |r'| + |moved| <= 2 * |p| + |r|
  {
    var left := p - p';
    Partition(p, p');
    Partition(r, r - moved);
    assert r - (r - moved) == moved - left;
    Partition(moved, left);
    SubsetIsNoLarger(r', (r - moved) + left);
    assert (r - moved) !! left;
  }

  lemma Partition(all: set<string>, part: set<string>)
    requires part <= all
    ensures |all| == |part| + |all - part|
  {
    assert all == part + (all - part);
  }

  /** No run, under any interleaving, makes more than two node transitions per node. */
  lemma {:induction false} TransitionsAreBounded(w: Workflow, targets: set<string>, h: seq<Run>, k: nat)
    requires IsHistory(w, targets, h) && k < |h|
    ensures Transitions(h, k) + MovesLeft(h[k]) <= 2 * |h[0].nodes.Keys|
    decreases k
  {
    if k == 0 {
      assert NodesWith(h[0].nodes, Running) == {};
      SubsetIsNoLarger(NodesWith(h[0].nodes, Pending), h[0].nodes.Keys);
    } else {
      TransitionsAreBounded(w, targets, h, k - 1);
      HistoriesAreSafe(w, targets, h, k - 1, k);
      StepUsesMoves(h[k - 1], h[k]);
    }
  }
}
