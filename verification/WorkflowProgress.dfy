/** Progress under interference: what the passes of many workers leave behind. */
module WorkflowProgress {
  import opened Digraph
  import opened ExecutionGraph
  import opened WorkflowProtocol
  import opened WorkflowPass
  import opened WorkflowEngine

  /** The write after h[j] puts a node to work. */
  ghost predicate StartsANode(h: seq<Run>, j: nat)
    requires j < |h| - 1
  {
    exists n :: n in h[j + 1].nodes && n in h[j].nodes
      && h[j + 1].nodes[n].status == Running && h[j].nodes[n].status != Running
  }

  /** Every worker is done: the first pass, and the pass after each report and each round of skips. */
  ghost predicate WorkersAreDone(w: Workflow, h: seq<Run>) {
    && |h| > 0 && FollowedUp(w, h, 0)
    && forall j :: 0 <= j < |h| - 1 && h[j].nodes != h[j + 1].nodes && !StartsANode(h, j) ==> FollowedUp(w, h, j + 1)
  }

  ghost predicate SameNodesFrom(h: seq<Run>, j: nat) {
    forall k :: j <= k < |h| ==> h[k].nodes == h[|h| - 1].nodes
  }

  lemma {:induction false} LastChange(h: seq<Run>, k: nat) returns (j: nat)
    requires k < |h| && SameNodesFrom(h, k)
    ensures j <= k && SameNodesFrom(h, j) && (j > 0 ==> h[j - 1].nodes != h[j].nodes)
    decreases k
  {
    j := k;
    if k > 0 && h[k - 1].nodes == h[k].nodes { j := LastChange(h, k - 1); }
  }

  /** A write that would still have an effect has not been issued. */
  lemma PossibleWriteIsNotIssued(w: Workflow, targets: set<string>, h: seq<Run>, i: nat, step: Step)
    requires IsHistory(w, targets, h) && i < |h| && SameNodesFrom(h, i) && h[|h| - 1].status == RunRunning
    requires step != ReleaseLease && Guard(h[i], step)
    ensures !Issued(h, i, step)
  {
    forall k | i <= k < |h| - 1 ensures h[k + 1] != Write(h[i], h[k], step) {
      HistoriesAreSafe(w, targets, h, k, |h| - 1);
      HistoriesAreSafe(w, targets, h, k + 1, |h| - 1);
      assert h[k].nodes == h[i].nodes == h[k + 1].nodes && h[k].status == RunRunning;
      var next := Effect(h[i], h[k], step);
      assert next.status != RunRunning || next.nodes != h[k].nodes;
    }
  }

  /** Under any interleaving, once every worker is done, an acyclic run that is still active has a running node. */
  lemma DoneWorkersLeaveARunningNode(w: Workflow, targets: set<string>, h: seq<Run>)
    requires IsHistory(w, targets, h) && Acyclic(Dependencies(w)) && WorkersAreDone(w, h)
    ensures Alive(h[|h| - 1])
  {
    var j := LastChange(h, |h| - 1);
    if j > 0 && StartsANode(h, j - 1) {
      var n :| n in h[j].nodes && h[j].nodes[n].status == Running;
      assert h[|h| - 1].nodes[n].status == Running;
    } else if h[|h| - 1].status == RunRunning && !AnyRunning(h[|h| - 1]) {
      assert FollowedUp(w, h, j) by { if j > 0 { assert h[j - 1].nodes != h[j].nodes; } }
      forall i | j <= i < |h| ensures !PassFinished(w, h, i) && !Issued(h, i, FinishFailFast) {
        NoIdlePass(w, targets, h, i);
      }
    }
  }

  /** On an active run without a running node no pass can have finished. */
  lemma NoIdlePass(w: Workflow, targets: set<string>, h: seq<Run>, i: nat)
    requires IsHistory(w, targets, h) && Acyclic(Dependencies(w)) && i < |h| && SameNodesFrom(h, i)
    requires h[|h| - 1].status == RunRunning && !AnyRunning(h[|h| - 1])
    ensures !PassFinished(w, h, i) && !Issued(h, i, FinishFailFast)
  {
    HistoriesAreSafe(w, targets, h, i, |h| - 1);
    FewerMovesLater(w, targets, h, i, i);
    PossibleWriteIsNotIssued(w, targets, h, i, FinishFailFast);
    if HasSkip(w, h[i]) {
      forall n | Decides(w, h[i], SkipNode(n)) ensures !Issued(h, i, SkipNode(n)) {
        PossibleWriteIsNotIssued(w, targets, h, i, SkipNode(n));
      }
    } else if AllTerminal(h[i].nodes) {
      PossibleWriteIsNotIssued(w, targets, h, i, FinishPass);
    } else {
      ClaimIsPossible(w, h[i]);
      forall n | Decides(w, h[i], ClaimNode(n)) ensures !Issued(h, i, ClaimNode(n)) {
        PossibleWriteIsNotIssued(w, targets, h, i, ClaimNode(n));
      }
    }
  }

  lemma ClaimIsPossible(w: Workflow, r: Run)
    requires Coherent(r) && r.status == RunRunning && r.nodes.Keys == NodeIds(w.nodes) && Acyclic(Dependencies(w))
    requires !HasSkip(w, r) && !AnyRunning(r) && !AllTerminal(r.nodes)
    ensures RunningCount(r) < Parallelism(w) && HasClaim(w, r)
  {
    assert NodesWith(r.nodes, Running) == {};
    forall n | n in r.nodes && r.nodes[n].status == Pending ensures !ShouldSkip(w, r.nodes, n) {
      assert !Decides(w, r, SkipNode(n));
    }
    SomePendingNodeIsReady(w, r);
    var n :| n in r.nodes && r.nodes[n].status == Pending && Ready(w, r.nodes, n);
    assert Decides(w, r, ClaimNode(n));
  }
}
