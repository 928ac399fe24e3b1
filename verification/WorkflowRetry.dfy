/** The retry of a failed run, and runs in which retries and any number of workers take turns. */
module WorkflowRetry {
  import opened Options
  import opened Digraph
  import opened ExecutionGraph
  import opened WorkflowProtocol
  import opened WorkflowSelection

  /** The failed nodes that were asked for, or all of them. */
  function Retryable(run: Run, requested: Option<set<string>>): set<string> {
    set n | n in run.nodes && run.nodes[n].status == Failed && (requested.None? || n in requested.value)
  }

  /** b is a after a retry: retried nodes start a new attempt, skipped nodes downstream of them are pending again,
      everything else is as it was. The lease is added to the owner's set, under the same id, if there is an owner. */
  ghost predicate IsRetryOf(w: Workflow, a: Run, b: Run, retried: set<string>) {
    && a.status == RunFailed && b.status == RunRunning
    && b.queue == a.queue && b.owed == a.owed && b.released == a.released && (a.leased ==> b.leased)
    && b.nodes.Keys == a.nodes.Keys
    && retried != {} && (forall n :: n in retried ==> n in a.nodes && a.nodes[n].status == Failed)
    && (forall n :: n in a.nodes ==> b.nodes[n] == Reopened(w, a.nodes[n], n, retried))
  }

  ghost function Reopened(w: Workflow, state: NodeState, n: string, retried: set<string>): NodeState {
    if n in retried then NodeState(Pending, None, state.attempt + 1)
    else if state.status == Skipped && LedToBy(AllPairs(w.edges), n, retried)
    then NodeState(Pending, None, state.attempt)
    else state
  }

  /** What the owner's lease request answers: an unknown owner gets none, and a full set refuses. */
  datatype LeaseAnswer = Granted | UnknownOwner | Full

  datatype RetryOutcome = Retried(run: Run) | Conflict | WorkflowMissing | NotAllowed | TooManyRuns

  /** Retry taken as one step. workflow is None when the definition is gone; allowed is the answer of the policy. */
  method Retry(workflow: Option<Workflow>, run: Run, requested: Option<set<string>>, allowed: bool, lease: LeaseAnswer)
    returns (r: RetryOutcome)
    ensures r.Conflict? <==> run.status != RunFailed || Retryable(run, requested) == {}
    ensures r.WorkflowMissing? <==> !r.Conflict? && workflow.None?
    ensures r.NotAllowed? <==> !r.Conflict? && workflow.Some? && !allowed
    ensures r.TooManyRuns? <==> !r.Conflict? && workflow.Some? && allowed && lease == Full
    ensures r.Retried? ==> IsRetryOf(workflow.value, run, r.run, Retryable(run, requested))
    ensures r.Retried? ==> r.run.leased == (run.leased || lease == Granted)
    ensures run.status != RunFailed ==> r.Conflict?
    ensures run.status == RunFailed ==>
      (r.Conflict? <==>
        forall n :: n in run.nodes && run.nodes[n].status == Failed ==> requested.Some? && n !in requested.value)
    ensures r.Retried? ==> r.run.nodes.Keys == run.nodes.Keys && forall n :: n in run.nodes ==>
      var before, after := run.nodes[n], r.run.nodes[n];
      if before.status == Failed && (requested.None? || n in requested.value)
      then after == NodeState(Pending, None, before.attempt + 1)
      else after == before || (before.status == Skipped && after == NodeState(Pending, None, before.attempt))
  {
    if run.status != RunFailed { return Conflict; }
    var retryable := Retryable(run, requested);
    assert forall n :: n in run.nodes && n !in retryable && run.nodes[n].status == Failed ==>
      requested.Some? && n !in requested.value;
    if retryable == {} { return Conflict; }
    if workflow.None? { return WorkflowMissing; }
    if !allowed { return NotAllowed; }
    if lease == Full { return TooManyRuns; }
    var downstream := DownstreamIds(workflow.value, retryable);
    var nodes := map n | n in run.nodes ::
      if n in retryable then NodeState(Pending, None, run.nodes[n].attempt + 1)
      else if run.nodes[n].status == Skipped && n in downstream then NodeState(Pending, None, run.nodes[n].attempt)
      else run.nodes[n];
    r := Retried(run.(status := RunRunning, nodes := nodes, leased := run.leased || lease == Granted));
  }

  // ----- histories with retries -----

  /** The step from h[k] is a retry. No write makes a finished run active again. */
  ghost predicate RetriedAt(h: seq<Run>, k: nat)
    requires k < |h| - 1
  {
    h[k].status != RunRunning && h[k + 1].status == RunRunning
  }

  /** Where the stretch without retries that k belongs to begins. */
  ghost function Epoch(h: seq<Run>, k: nat): (i: nat)
    requires k < |h|
    ensures i <= k
  {
    if k == 0 then 0 else if RetriedAt(h, k - 1) then k else Epoch(h, k - 1)
  }

  ghost predicate RetryStep(w: Workflow, h: seq<Run>, k: nat, retried: set<string>)
    requires k < |h| - 1
  {
    IsRetryOf(w, h[k], h[k + 1], retried)
  }

  /** A retry, or a write decided from any earlier state since the last retry. */
  ghost predicate StepsOn(w: Workflow, h: seq<Run>, k: nat)
    requires k < |h| - 1
  {
    || (exists retried :: RetryStep(w, h, k, retried))
    || (exists i: nat, step :: Epoch(h, k) <= i <= k && FollowsBy(w, h, k, i, step))
  }

  /** Workers interleave and act on stale snapshots as they like; only no pass straddles a retry. */
  ghost predicate IsRetriedHistory(w: Workflow, targets: set<string>, h: seq<Run>) {
    && |h| > 0
    && Initial(w, targets, h[0])
    && forall k :: 0 <= k < |h| - 1 ==> StepsOn(w, h, k)
  }

  /** Every attempt before the current one was handed to the queue, and so was the current one of a started node. */
  ghost predicate DispatchedAll(r: Run) {
    && (forall n, a: nat :: n in r.nodes && a < r.nodes[n].attempt ==> Job(n, a) in r.queue)
    && (forall n :: n in r.nodes && Started(r.nodes[n].status) ==> Job(n, r.nodes[n].attempt) in r.queue)
  }

  lemma StepKeepsDispatchedAll(w: Workflow, seen: Run, now: Run, step: Step)
    requires Evolves(seen, now) && Decides(w, seen, step) && DispatchedAll(now)
    ensures DispatchedAll(Write(seen, now, step))
  {
    if Guard(now, step) && step.ClaimNode? {
      assert NodeEvolves(seen.nodes[step.n], now.nodes[step.n]);
      var next := Write(seen, now, step);
      assert Job(step.n, now.nodes[step.n].attempt) in next.queue;
    }
  }

  /** What every state of a history with retries keeps. */
  ghost predicate Accounted(r: Run) {
    Coherent(r) && DispatchedOnce(r) && DispatchedAll(r)
  }

  /** How a retry may change the nodes. */
  ghost predicate Reopens(a: Run, b: Run) {
    && b.status == RunRunning && b.queue == a.queue && b.nodes.Keys == a.nodes.Keys
    && forall n :: n in a.nodes ==> NodeReopens(a.nodes[n], b.nodes[n])
  }

  ghost predicate NodeReopens(a: NodeState, b: NodeState) {
    || b == a
    || (a.status == Failed && b == NodeState(Pending, None, a.attempt + 1))
    || (a.status == Skipped && b == NodeState(Pending, None, a.attempt))
  }

  lemma ReopeningKeepsDispatch(a: Run, b: Run)
    requires DispatchedOnce(a) && DispatchedAll(a) && Reopens(a, b)
    ensures DispatchedOnce(b) && DispatchedAll(b)
  {
    forall n | n in b.nodes ensures NodeReopens(a.nodes[n], b.nodes[n]) {}
  }

  lemma RetryKeepsAccount(w: Workflow, a: Run, b: Run, retried: set<string>)
    requires Accounted(a) && IsRetryOf(w, a, b, retried)
    ensures Accounted(b) && Evolves(b, b)
  {
    ReopeningKeepsDispatch(a, b);
    EvolvesReflexive(b);
  }

  lemma StepKeepsAccount(w: Workflow, seen: Run, now: Run, step: Step)
    requires Coherent(seen) && Accounted(now) && Evolves(seen, now) && Decides(w, seen, step)
    ensures Accounted(Write(seen, now, step)) && Evolves(now, Write(seen, now, step))
  {
    StepEvolves(w, seen, now, step);
    StepKeepsCoherent(w, seen, now, step);
    StepKeepsDispatch(w, seen, now, step);
    StepKeepsDispatchedAll(w, seen, now, step);
  }

  /** From now on to the next state, when it is a write. */
  lemma WriteKeepsAccount(w: Workflow, h: seq<Run>, now: nat, j: nat, step: Step)
    requires now < |h| - 1 && j <= now && FollowsBy(w, h, now, j, step)
    requires Accounted(h[j]) && Accounted(h[now]) && Evolves(h[j], h[now])
    ensures Accounted(h[now + 1]) && Evolves(h[now], h[now + 1]) && Evolves(h[now + 1], h[now + 1])
    ensures Epoch(h, now + 1) == Epoch(h, now)
  {
    StepKeepsAccount(w, h[j], h[now], step);
    EvolvesReflexive(h[now + 1]);
  }

  /** With retries too, and with workers as stale as since the last retry, no (node, attempt) is enqueued twice, and
      none of the attempts that have begun is missing. */
  lemma {:induction false} RetriesDispatchOnce(w: Workflow, targets: set<string>, h: seq<Run>, i: nat, k: nat)
    requires IsRetriedHistory(w, targets, h) && k < |h| && Epoch(h, k) <= i <= k
    ensures Accounted(h[i]) && Accounted(h[k]) && Evolves(h[i], h[k])
    decreases k, i
  {
    if k == 0 {
    } else {
      var now := k - 1;
      assert StepsOn(w, h, now);
      RetriesDispatchOnce(w, targets, h, now, now);
      if retried :| RetryStep(w, h, now, retried) {
        RetryKeepsAccount(w, h[now], h[k], retried);
        assert h[now].status == RunFailed;
        assert RetriedAt(h, now) && i == k;
      } else {
        var j: nat, step :| Epoch(h, now) <= j <= now && FollowsBy(w, h, now, j, step);
        RetriesDispatchOnce(w, targets, h, j, now);
        WriteKeepsAccount(w, h, now, j, step);
        if i < k {
          RetriesDispatchOnce(w, targets, h, i, now);
          EvolvesTransitive(h[i], h[now], h[k]);
        }
      }
    }
  }

  lemma StepKeepsAttempts(w: Workflow, h: seq<Run>, now: nat, n: string)
    requires now < |h| - 1 && StepsOn(w, h, now) && Coherent(h[now]) && n in h[now].nodes
    ensures n in h[now + 1].nodes && h[now].nodes[n].attempt <= h[now + 1].nodes[n].attempt
  {
    if retried :| RetryStep(w, h, now, retried) {
      assert h[now + 1].nodes[n] == Reopened(w, h[now].nodes[n], n, retried);
    } else {
      var j: nat, step :| Epoch(h, now) <= j <= now && FollowsBy(w, h, now, j, step);
      StepEvolves(w, h[j], h[now], step);
      assert NodeEvolves(h[now].nodes[n], h[now + 1].nodes[n]);
    }
  }

  /** The attempts of the nodes do not go back, across retries either. */
  lemma {:induction false} AttemptsGrow(w: Workflow, targets: set<string>, h: seq<Run>, i: nat, k: nat, n: string)
    requires IsRetriedHistory(w, targets, h) && i <= k < |h| && n in h[i].nodes
    ensures n in h[k].nodes && h[i].nodes[n].attempt <= h[k].nodes[n].attempt
    decreases k
  {
    if i == k {
    } else {
      var now := k - 1;
      AttemptsGrow(w, targets, h, i, now, n);
      assert StepsOn(w, h, now);
      RetriesDispatchOnce(w, targets, h, now, now);
      StepKeepsAttempts(w, h, now, n);
    }
  }

  /** A claim that was decided from any earlier state, also one before a retry, repeats a job exactly when the node
      has been retried since: when its attempt is no longer the one in the snapshot. */
  lemma ClaimRepeatsExactlyWhenRetriedSince(w: Workflow, targets: set<string>, h: seq<Run>, i: nat, k: nat, n: string)
    requires IsRetriedHistory(w, targets, h) && i <= k < |h|
    requires Decides(w, h[i], ClaimNode(n)) && Guard(h[k], ClaimNode(n))
    ensures DispatchedOnce(Write(h[i], h[k], ClaimNode(n))) <==> h[i].nodes[n].attempt == h[k].nodes[n].attempt
    ensures Distinct(Write(h[i], h[k], ClaimNode(n)).queue) <==> h[i].nodes[n].attempt == h[k].nodes[n].attempt
  {
    RetriesDispatchOnce(w, targets, h, k, k);
    AttemptsGrow(w, targets, h, i, k, n);
    var job, queue := Job(n, h[i].nodes[n].attempt), h[k].queue;
    assert Write(h[i], h[k], ClaimNode(n)).queue == queue + [job];
    if job in queue {
      var j :| 0 <= j < |queue| && queue[j] == job;
      assert (queue + [job])[j] == (queue + [job])[|queue|];
    }
  }

  // ----- dependency order across retries -----

  /** An unlabelled edge whose skipped source a retry opens again, while its target has started and is not retried. */
  ghost predicate IsOvertaken(w: Workflow, a: Run, retried: set<string>, e: WorkflowEdge) {
    && e in w.edges && e.branchId.None? && e.source in a.nodes && e.target in a.nodes
    && a.nodes[e.source].status == Skipped && LedToBy(AllPairs(w.edges), e.source, retried)
    && Started(a.nodes[e.target].status) && e.target !in retried
  }

  /** A retry keeps the dependency order exactly when no node has started behind a skipped one that it opens again. */
  lemma RetryKeepsOrderExactlyWhenNoneIsOvertaken(w: Workflow, a: Run, b: Run, retried: set<string>)
    requires Ordered(w, a) && IsRetryOf(w, a, b, retried)
    ensures Ordered(w, b) <==> forall e :: !IsOvertaken(w, a, retried, e)
  {
    forall n | n in a.nodes ensures b.nodes[n] == Reopened(w, a.nodes[n], n, retried) {}
    if e :| IsOvertaken(w, a, retried, e) {
      assert b.nodes[e.source].status == Pending && b.nodes[e.target] == a.nodes[e.target];
    } else {
      forall e | e in w.edges && e.branchId.None? && e.source in b.nodes && e.target in b.nodes &&
          Started(b.nodes[e.target].status)
        ensures b.nodes[e.source].status == Succeeded || b.nodes[e.source].status == Skipped
      {
        assert !IsOvertaken(w, a, retried, e);
        assert b.nodes[e.target] == a.nodes[e.target];
      }
    }
  }

  /** Over whole runs with retries the dependency order holds as long as no retry overtakes. */
  lemma {:induction false} OrderSurvivesRetries(w: Workflow, targets: set<string>, h: seq<Run>, k: nat)
    requires IsRetriedHistory(w, targets, h) && k < |h|
    requires forall j: nat, retried, e :: j < k && RetryStep(w, h, j, retried) ==> !IsOvertaken(w, h[j], retried, e)
    ensures Ordered(w, h[k])
    decreases k
  {
    if k == 0 {
      InitialIsSafe(w, targets, h[0]);
    } else {
      var now := k - 1;
      OrderSurvivesRetries(w, targets, h, now);
      assert StepsOn(w, h, now);
      if retried :| RetryStep(w, h, now, retried) {
        RetryKeepsOrderExactlyWhenNoneIsOvertaken(w, h[now], h[k], retried);
      } else {
        var j: nat, step :| Epoch(h, now) <= j <= now && FollowsBy(w, h, now, j, step);
        RetriesDispatchOnce(w, targets, h, j, now);
        StepKeepsOrder(w, h[j], h[now], step);
      }
    }
  }

  // ----- the lease across retries -----

  ghost predicate RunningSince(h: seq<Run>, r: nat, k: nat)
    requires r <= k < |h|
  {
    forall j :: r <= j <= k ==> h[j].status == RunRunning
  }

  /** While a run stays active its lease goes exactly with the first of the releases that were owed before. */
  lemma {:induction false} LeaseWhileRunning(w: Workflow, targets: set<string>, h: seq<Run>, r: nat, k: nat)
    requires IsRetriedHistory(w, targets, h) && r <= k < |h| && RunningSince(h, r, k)
    ensures h[k].owed + h[k].released == h[r].owed + h[r].released && h[k].released >= h[r].released
    ensures h[k].leased == (h[r].leased && h[k].released == h[r].released)
    decreases k
  {
    if r == k {
    } else {
      assert StepsOn(w, h, k - 1) && h[k - 1].status == RunRunning && h[k].status == RunRunning;
      LeaseWhileRunning(w, targets, h, r, k - 1);
      var j: nat, step :| Epoch(h, k - 1) <= j <= k - 1 && FollowsBy(w, h, k - 1, j, step);
    }
  }

  ghost predicate Continues(h: seq<Run>, longer: seq<Run>) {
    |h| <= |longer| && longer[..|h|] == h
  }

  lemma {:induction false} SameEpoch(h: seq<Run>, longer: seq<Run>, k: nat)
    requires Continues(h, longer) && k < |h|
    ensures Epoch(longer, k) == Epoch(h, k)
    decreases k
  {
    assert longer[k] == h[k];
    if k > 0 {
      assert longer[k - 1] == h[k - 1];
      SameEpoch(h, longer, k - 1);
    }
  }

  /** The steps of a history are steps of any longer one. */
  lemma PrefixSteps(w: Workflow, h: seq<Run>, longer: seq<Run>)
    requires Continues(h, longer)
    ensures forall k :: 0 <= k < |h| - 1 && StepsOn(w, h, k) ==> StepsOn(w, longer, k)
  {
    forall k | 0 <= k < |h| - 1 && StepsOn(w, h, k) ensures StepsOn(w, longer, k) {
      assert longer[k] == h[k] && longer[k + 1] == h[k + 1];
      SameEpoch(h, longer, k);
      if retried :| RetryStep(w, h, k, retried) {
        assert RetryStep(w, longer, k, retried);
      } else {
        var i: nat, step :| Epoch(h, k) <= i <= k && FollowsBy(w, h, k, i, step);
        assert longer[i] == h[i];
        assert FollowsBy(w, longer, k, i, step);
      }
    }
  }

  lemma RetriedHistoryExtends(w: Workflow, targets: set<string>, h: seq<Run>, next: Run)
    requires IsRetriedHistory(w, targets, h) && StepsOn(w, h + [next], |h| - 1)
    ensures IsRetriedHistory(w, targets, h + [next]) && Continues(h, h + [next])
  {
    var longer := h + [next];
    PrefixSteps(w, h, longer);
    forall k | 0 <= k < |longer| - 1 ensures StepsOn(w, longer, k) {
      if k < |h| - 1 { assert StepsOn(w, h, k); }
    }
  }

  lemma RetriedHistoryGrows(w: Workflow, targets: set<string>, h: seq<Run>, at: nat, step: Step)
    requires IsRetriedHistory(w, targets, h) && Epoch(h, |h| - 1) <= at < |h| && Decides(w, h[at], step)
    ensures IsRetriedHistory(w, targets, h + [Write(h[at], h[|h| - 1], step)])
    ensures Continues(h, h + [Write(h[at], h[|h| - 1], step)])
  {
    var next := Write(h[at], h[|h| - 1], step);
    SameEpoch(h, h + [next], |h| - 1);
    assert FollowsBy(w, h + [next], |h| - 1, at, step);
    RetriedHistoryExtends(w, targets, h, next);
  }

  lemma RetriedHistoryRetries(w: Workflow, targets: set<string>, h: seq<Run>, next: Run, retried: set<string>)
    requires IsRetriedHistory(w, targets, h) && IsRetryOf(w, h[|h| - 1], next, retried)
    ensures IsRetriedHistory(w, targets, h + [next]) && Continues(h, h + [next])
    ensures Epoch(h + [next], |h|) == |h|
  {
    assert RetryStep(w, h + [next], |h| - 1, retried);
    RetriedHistoryExtends(w, targets, h, next);
  }

  /** As long as the run stays active from the end of h on, it holds its lease. */
  ghost predicate HoldsOn(h: seq<Run>, longer: seq<Run>)
    requires |h| > 0
  {
    Continues(h, longer) && RunningSince(longer, |h| - 1, |longer| - 1) ==> longer[|longer| - 1].leased
  }

  /** An active run with a lease, such as one just retried, keeps it in every continuation while it stays active
      exactly when no worker still owes a release from before. */
  lemma LeaseSurvivesExactlyWhenNoneIsOwed(w: Workflow, targets: set<string>, h: seq<Run>)
    requires IsRetriedHistory(w, targets, h) && h[|h| - 1].status == RunRunning && h[|h| - 1].leased
    ensures h[|h| - 1].owed == 0 <==>
      forall longer :: IsRetriedHistory(w, targets, longer) ==> HoldsOn(h, longer)
  {
    var last := |h| - 1;
    if h[last].owed == 0 {
      forall longer | IsRetriedHistory(w, targets, longer) ensures HoldsOn(h, longer) {
        if Continues(h, longer) && RunningSince(longer, last, |longer| - 1) {
          assert longer[last] == h[last];
          LeaseWhileRunning(w, targets, longer, last, |longer| - 1);
        }
      }
    } else {
      RetriedHistoryGrows(w, targets, h, last, ReleaseLease);
      var longer := h + [Write(h[last], h[last], ReleaseLease)];
      assert !HoldsOn(h, longer);
    }
  }

  /** The account of a patient run, whose lease was granted or not when it last became active. */
  ghost predicate Balanced(r: Run, granted: bool) {
    && (r.owed == 0 || (r.owed == 1 && r.status != RunRunning))
    && (r.status == RunRunning || r.owed == 1 ==> r.leased == granted)
    && (r.status != RunRunning && r.owed == 0 ==> !r.leased)
  }

  lemma WriteKeepsBalance(seen: Run, now: Run, step: Step, granted: bool)
    requires Balanced(now, granted)
    ensures Balanced(Write(seen, now, step), granted)
  {
  }

  /** When every retry waits until the release of the run before it is done, the account is what it should be: an
      active run has no release to come and keeps the lease that its last start got, a finished one has at most one
      release to come, and has lost the lease when there is none. */
  lemma {:induction false} PatientRetriesKeepTheLease(w: Workflow, targets: set<string>, h: seq<Run>, k: nat)
    requires IsRetriedHistory(w, targets, h) && k < |h|
    requires forall j :: 0 <= j < |h| - 1 && RetriedAt(h, j) ==> h[j].owed == 0
    ensures Balanced(h[k], h[Epoch(h, k)].leased)
    decreases k
  {
    if k == 0 {
    } else {
      var now := k - 1;
      PatientRetriesKeepTheLease(w, targets, h, now);
      assert StepsOn(w, h, now);
      if RetriedAt(h, now) {
        assert h[now].owed == 0 && h[k].owed == 0;
      } else {
        var j: nat, step :| Epoch(h, now) <= j <= now && FollowsBy(w, h, now, j, step);
        WriteKeepsBalance(h[j], h[now], step, h[Epoch(h, now)].leased);
      }
    }
  }

  // ----- one run that shows both -----

  /** One node, started and failed. */
  lemma StartedAndFailed() returns (w: Workflow, h: seq<Run>)
    ensures IsRetriedHistory(w, {"a"}, h) && |h| == 3 && Epoch(h, 2) == 0 && w.failureStrategy == FailFast
    ensures Decides(w, h[0], ClaimNode("a")) && "a" in h[0].nodes && h[0].nodes["a"].attempt == 0
    ensures h[2] == Run(RunRunning, map["a" := NodeState(Failed, None, 0)], [Job("a", 0)], true, 0, 0)
  {
    w := Workflow([WorkflowNode("a", "input", false, false, false, false)], [], FailFast, 5);
    var start := Run(RunRunning, map["a" := NodeState(Pending, None, 0)], [], true, 0, 0);
    forall n ensures n in start.nodes <==> n in set d | d in w.nodes :: d.id {
      assert w.nodes[0] in w.nodes;
    }
    h := [start];
    var claimed := Run(RunRunning, map["a" := NodeState(Running, None, 0)], [Job("a", 0)], true, 0, 0);
    assert Write(start, start, ClaimNode("a")) == claimed;
    RetriedHistoryGrows(w, {"a"}, h, 0, ClaimNode("a"));
    h := h + [claimed];
    var failed := Run(RunRunning, map["a" := NodeState(Failed, None, 0)], [Job("a", 0)], true, 0, 0);
    assert Write(claimed, claimed, FailNode("a")) == failed;
    RetriedHistoryGrows(w, {"a"}, h, 1, FailNode("a"));
    h := h + [failed];
    assert Epoch(h, 1) == 0;
  }

  /** Then finalised; the winner has yet to remove the lease. */
  lemma FailedBeforeItsRelease() returns (w: Workflow, h: seq<Run>)
    ensures IsRetriedHistory(w, {"a"}, h) && |h| == 4 && Epoch(h, 3) == 0
    ensures Decides(w, h[0], ClaimNode("a")) && "a" in h[0].nodes && h[0].nodes["a"].attempt == 0
    ensures h[3] == Run(RunFailed, map["a" := NodeState(Failed, None, 0)], [Job("a", 0)], true, 1, 0)
  {
    w, h := StartedAndFailed();
    var failed := h[2];
    assert AnyFailed(failed.nodes) by { assert failed.nodes["a"].status == Failed; }
    RetriedHistoryGrows(w, {"a"}, h, 2, FinishFailFast);
    SameEpoch(h, h + [Write(failed, failed, FinishFailFast)], 2);
    h := h + [Write(failed, failed, FinishFailFast)];
  }

  /** The node is retried before the release: the release then takes the new lease, and the run goes on without. */
  lemma EarlyRetryLosesItsLease() returns (w: Workflow, h: seq<Run>)
    ensures IsRetriedHistory(w, {"a"}, h) && |h| == 6 && RetriedAt(h, 3)
    ensures h[4].leased && h[4].owed == 1
    ensures h[5].status == RunRunning && !h[5].leased
  {
    w, h := FailedBeforeItsRelease();
    var again := h[3].(status := RunRunning, nodes := map["a" := NodeState(Pending, None, 1)]);
    assert IsRetryOf(w, h[3], again, {"a"});
    RetriedHistoryRetries(w, {"a"}, h, again, {"a"});
    h := h + [again];
    RetriedHistoryGrows(w, {"a"}, h, 4, ReleaseLease);
    h := h + [Write(again, again, ReleaseLease)];
  }

  /** A pass that read the run at its start claims the node after the retry: the old attempt is queued again. */
  lemma StaleClaimAfterRetryRepeatsAJob() returns (w: Workflow, h: seq<Run>)
    ensures IsRetriedHistory(w, {"a"}, h) && |h| == 5 && RetriedAt(h, 3)
    ensures Decides(w, h[0], ClaimNode("a")) && Guard(h[4], ClaimNode("a"))
    ensures Write(h[0], h[4], ClaimNode("a")).queue == [Job("a", 0), Job("a", 0)]
  {
    w, h := FailedBeforeItsRelease();
    var again := h[3].(status := RunRunning, nodes := map["a" := NodeState(Pending, None, 1)]);
    assert IsRetryOf(w, h[3], again, {"a"});
    RetriedHistoryRetries(w, {"a"}, h, again, {"a"});
    h := h + [again];
  }

  // ----- a run in which a retry overtakes -----

  const CHAIN: Workflow := Workflow(
    [WorkflowNode("a", "input", false, false, false, false), WorkflowNode("s", "input", false, false, false, false),
     WorkflowNode("b", "input", false, false, false, false)],
    [WorkflowEdge("as", "a", "s", None), WorkflowEdge("sb", "s", "b", None)], Continue, 5)

  const ALL: set<string> := {"a", "s", "b"}

  /** One state of the chain of a, s and b. */
  function Chain(a: NodeStatus, s: NodeStatus, b: NodeStatus, queue: seq<Job>): Run {
    Run(RunRunning, map["a" := NodeState(a, None, 0), "s" := NodeState(s, None, 0), "b" := NodeState(b, None, 0)],
        queue, true, 0, 0)
  }

  ghost predicate Leads(w: Workflow, a: Run, step: Step, b: Run) {
    Decides(w, a, step) && b == Write(a, a, step)
  }

  /** A run in which every write is decided from the state it is applied to. */
  lemma StraightRun(w: Workflow, targets: set<string>, h: seq<Run>, steps: seq<Step>)
    requires |h| == |steps| + 1 && Initial(w, targets, h[0])
    requires forall k :: 0 <= k < |steps| ==> Leads(w, h[k], steps[k], h[k + 1])
    ensures IsRetriedHistory(w, targets, h)
  {
    forall k | 0 <= k < |h| - 1 ensures StepsOn(w, h, k) {
      assert Leads(w, h[k], steps[k], h[k + 1]);
      assert FollowsBy(w, h, k, k, steps[k]);
    }
  }

  lemma StartOfChain()
    ensures Initial(CHAIN, ALL, C0)
  {
    var start := C0;
    forall n ensures n in start.nodes <==> n in set d | d in CHAIN.nodes :: d.id {
      assert CHAIN.nodes[0] in CHAIN.nodes && CHAIN.nodes[1] in CHAIN.nodes && CHAIN.nodes[2] in CHAIN.nodes;
    }
  }

  const C0: Run := Chain(Pending, Pending, Pending, [])
  const C1: Run := Chain(Running, Pending, Pending, [Job("a", 0)])
  const C2: Run := Chain(Failed, Pending, Pending, [Job("a", 0)])
  const C3: Run := Chain(Failed, Skipped, Pending, [Job("a", 0)])
  const C4: Run := Chain(Failed, Skipped, Running, [Job("a", 0), Job("b", 0)])
  const C5: Run := Chain(Failed, Skipped, Succeeded, [Job("a", 0), Job("b", 0)])
  const C6: Run := C5.(status := RunFailed, owed := 1)
  const C7: Run := C5.(status := RunFailed, leased := false, released := 1)
  const C8: Run :=
    C5.(nodes := C5.nodes["a" := NodeState(Pending, None, 1)]["s" := NodeState(Pending, None, 0)], released := 1)

  lemma FirstWritesOfChain()
    ensures Leads(CHAIN, C0, ClaimNode("a"), C1)
    ensures Leads(CHAIN, C1, FailNode("a"), C2)
  {
  }

  lemma SIsSkipped()
    ensures Leads(CHAIN, C2, SkipNode("s"), C3)
  {
    assert CHAIN.edges[0] in CHAIN.edges && Selected(C2.nodes, CHAIN.edges[0], "s");
    assert HasFailedDependency(CHAIN, C2.nodes, "s");
  }

  lemma BRuns()
    ensures Leads(CHAIN, C3, ClaimNode("b"), C4)
    ensures Leads(CHAIN, C4, CompleteNode("b", None), C5)
  {
  }

  lemma ChainEnds()
    ensures Leads(CHAIN, C5, FinishPass, C6)
    ensures Leads(CHAIN, C6, ReleaseLease, C7)
  {
    assert AnyFailed(C5.nodes) by { assert C5.nodes["a"].status == Failed; }
  }

  lemma ChainIsRetried()
    ensures IsRetryOf(CHAIN, C7, C8, {"a"}) && !Ordered(CHAIN, C8)
  {
    var edges := AllPairs(CHAIN.edges);
    assert CHAIN.edges[0] in CHAIN.edges && CHAIN.edges[1] in CHAIN.edges;
    assert IsWalkBetween(edges, "a", "s", ["a", "s"]);
    assert LedToBy(edges, "s", {"a"});
  }

  /** The writes of the chain one after the other. */
  lemma Assemble(w: Workflow, targets: set<string>, c0: Run, c1: Run, c2: Run, c3: Run, c4: Run, c5: Run, c6: Run,
      c7: Run)
    requires Initial(w, targets, c0) && Leads(w, c0, ClaimNode("a"), c1) && Leads(w, c1, FailNode("a"), c2)
    requires Leads(w, c2, SkipNode("s"), c3) && Leads(w, c3, ClaimNode("b"), c4)
    requires Leads(w, c4, CompleteNode("b", None), c5) && Leads(w, c5, FinishPass, c6) && Leads(w, c6, ReleaseLease, c7)
    ensures IsRetriedHistory(w, targets, [c0, c1, c2, c3, c4, c5, c6, c7])
  {
    var h := [c0, c1, c2, c3, c4, c5, c6, c7];
    var steps :=
      [ClaimNode("a"), FailNode("a"), SkipNode("s"), ClaimNode("b"), CompleteNode("b", None), FinishPass, ReleaseLease];
    forall k | 0 <= k < |steps| ensures Leads(w, h[k], steps[k], h[k + 1]) {}
    StraightRun(w, targets, h, steps);
  }

  /** a fails, so s is skipped, and b, which waits for nothing any more, runs and succeeds. The run fails and a is
      retried: s is pending again, behind a b that has succeeded. */
  lemma ARetryOvertakes() returns (h: seq<Run>)
    ensures h == [C0, C1, C2, C3, C4, C5, C6, C7, C8] && IsRetriedHistory(CHAIN, ALL, h)
    ensures IsRetryOf(CHAIN, h[7], h[8], {"a"})
    ensures C8.nodes["s"].status == Pending && C8.nodes["b"].status == Succeeded && !Ordered(CHAIN, C8)
  {
    StartOfChain();
    FirstWritesOfChain();
    SIsSkipped();
    BRuns();
    ChainEnds();
    ChainIsRetried();
    Assemble(CHAIN, ALL, C0, C1, C2, C3, C4, C5, C6, C7);
    h := [C0, C1, C2, C3, C4, C5, C6, C7];
    RetriedHistoryRetries(CHAIN, ALL, h, C8, {"a"});
    h := h + [C8];
  }

  // ----- finishing writes decided before a retry -----

  /** Of the writes that finish a run, whoever decided them and when, only that of a failure under fail-fast ends an
      active run in which a node is still pending or running. */
  lemma OnlyFailFastEndsUnfinishedRuns(seen: Run, now: Run, n: string, step: Step)
    requires now.status == RunRunning && n in now.nodes
    requires now.nodes[n].status == Pending || now.nodes[n].status == Running
    requires step == FinishCompleted || step == FinishFailFast || step == FinishPass
    ensures Write(seen, now, step).status != RunRunning <==> step == FinishFailFast
    ensures step != FinishFailFast ==> Write(seen, now, step) == now
  {
  }

  const TWINS: Workflow := Workflow(
    [WorkflowNode("a", "input", false, false, false, false), WorkflowNode("b", "input", false, false, false, false)],
    [], FailFast, 5)

  function Twins(a: NodeStatus, b: NodeStatus, queue: seq<Job>): Run {
    Run(RunRunning, map["a" := NodeState(a, None, 0), "b" := NodeState(b, None, 0)], queue, true, 0, 0)
  }

  const T0: Run := Twins(Pending, Pending, [])
  const T1: Run := Twins(Running, Pending, [Job("a", 0)])
  const T2: Run := Twins(Running, Running, [Job("a", 0), Job("b", 0)])
  const T3: Run := Twins(Failed, Running, [Job("a", 0), Job("b", 0)])
  const T4: Run := Twins(Failed, Failed, [Job("a", 0), Job("b", 0)])
  const T5: Run := T4.(status := RunFailed, owed := 1)
  const T6: Run := T4.(status := RunFailed, leased := false, released := 1)

  lemma StartOfTwins()
    ensures Initial(TWINS, {"a", "b"}, T0)
  {
    forall n ensures n in T0.nodes <==> n in set d | d in TWINS.nodes :: d.id {
      assert TWINS.nodes[0] in TWINS.nodes && TWINS.nodes[1] in TWINS.nodes;
    }
  }

  lemma TwinsRun()
    ensures Leads(TWINS, T0, ClaimNode("a"), T1)
    ensures Leads(TWINS, T1, ClaimNode("b"), T2)
  {
  }

  lemma TwinsFail()
    ensures Leads(TWINS, T2, FailNode("a"), T3)
    ensures Leads(TWINS, T3, FailNode("b"), T4)
  {
  }

  lemma TwinsEnd()
    ensures Leads(TWINS, T4, FinishFailFast, T5)
    ensures Leads(TWINS, T5, ReleaseLease, T6)
  {
    assert AnyFailed(T4.nodes) by { assert T4.nodes["a"].status == Failed; }
  }

  lemma SixWrites(w: Workflow, targets: set<string>, r0: Run, r1: Run, r2: Run, r3: Run, r4: Run, r5: Run, r6: Run)
    requires Initial(w, targets, r0) && Leads(w, r0, ClaimNode("a"), r1) && Leads(w, r1, ClaimNode("b"), r2)
    requires Leads(w, r2, FailNode("a"), r3) && Leads(w, r3, FailNode("b"), r4)
    requires Leads(w, r4, FinishFailFast, r5) && Leads(w, r5, ReleaseLease, r6)
    ensures IsRetriedHistory(w, targets, [r0, r1, r2, r3, r4, r5, r6])
  {
    var h := [r0, r1, r2, r3, r4, r5, r6];
    var steps := [ClaimNode("a"), ClaimNode("b"), FailNode("a"), FailNode("b"), FinishFailFast, ReleaseLease];
    forall k | 0 <= k < |steps| ensures Leads(w, h[k], steps[k], h[k + 1]) {}
    StraightRun(w, targets, h, steps);
  }

  /** Both nodes fail, one after the other, before the worker of the first failure ends the run and removes the
      lease. */
  lemma BothFail() returns (h: seq<Run>)
    ensures h == [T0, T1, T2, T3, T4, T5, T6] && IsRetriedHistory(TWINS, {"a", "b"}, h)
  {
    StartOfTwins();
    TwinsRun();
    TwinsFail();
    TwinsEnd();
    SixWrites(TWINS, {"a", "b"}, T0, T1, T2, T3, T4, T5, T6);
    h := [T0, T1, T2, T3, T4, T5, T6];
  }

  /** Then the run is retried, with a new lease, and now the worker of the second failure writes: the run has failed
      again before either node has been tried. */
  lemma ALateFailureEndsTheRetriedRun() returns (h: seq<Run>)
    ensures IsRetriedHistory(TWINS, {"a", "b"}, h) && |h| == 8 && RetriedAt(h, 6)
    ensures h[7].leased && h[7].nodes == map["a" := NodeState(Pending, None, 1), "b" := NodeState(Pending, None, 1)]
    ensures Decides(TWINS, h[4], FinishFailFast) && Write(h[4], h[7], FinishFailFast).status == RunFailed
  {
    h := BothFail();
    var untried := map["a" := NodeState(Pending, None, 1), "b" := NodeState(Pending, None, 1)];
    var again := h[6].(status := RunRunning, leased := true, nodes := untried);
    assert IsRetryOf(TWINS, h[6], again, {"a", "b"});
    RetriedHistoryRetries(TWINS, {"a", "b"}, h, again, {"a", "b"});
    assert AnyFailed(h[4].nodes) by { assert h[4].nodes["a"].status == Failed; }
    h := h + [again];
  }
}
