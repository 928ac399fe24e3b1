/** Which nodes an undisturbed pass skips, and which it leaves waiting: on the edges, statuses and branches alone. */
module WorkflowBranches {
  import opened Options
  import opened FiniteSets
  import opened ExecutionGraph
  import opened WorkflowProtocol
  import opened WorkflowPass

  // ----- the reasons to skip -----

  /** An edge into n that counts: its source failed or was cancelled. */
  ghost predicate FailedSource(w: Workflow, nodes: Nodes, n: string) {
    exists e :: e in w.edges && e.target == n && e.source in nodes
      && (nodes[e.source].status == Failed || nodes[e.source].status == Cancelled)
      && (e.branchId.None? || nodes[e.source].branch == e.branchId)
  }

  /** The source of the edge has ended, and with another branch than the label of the edge. */
  ghost predicate ChoseAnother(nodes: Nodes, e: WorkflowEdge)
    requires e.source in nodes
  {
    && (nodes[e.source].status == Succeeded || nodes[e.source].status == Failed || nodes[e.source].status == Cancelled)
    && e.branchId.Some? && nodes[e.source].branch != e.branchId
  }

  /** Some edge comes from a node of the run that was not skipped, and all those chose another branch. */
  ghost predicate NoSourceChoseIt(w: Workflow, nodes: Nodes, n: string) {
    && (exists e :: e in w.edges && e.target == n && e.source in nodes && nodes[e.source].status != Skipped)
    && (forall e :: e in w.edges && e.target == n && e.source in nodes && nodes[e.source].status != Skipped ==>
      ChoseAnother(nodes, e))
  }

  ghost predicate HasReason(w: Workflow, nodes: Nodes, n: string) {
    FailedSource(w, nodes, n) || NoSourceChoseIt(w, nodes, n)
  }

  lemma SkipsForTheseReasons(w: Workflow, nodes: Nodes, n: string)
    ensures ShouldSkip(w, nodes, n) <==> HasReason(w, nodes, n)
  {
    forall e | e in w.edges && e.target == n && e.source in nodes && nodes[e.source].status != Skipped
      ensures ChoseAnother(nodes, e) <==> !ActiveBranch(nodes, e) && IsTerminal(nodes[e.source].status)
      ensures Selected(nodes, e, n)
    {}
    if HasFailedDependency(w, nodes, n) {
      var e :| e in w.edges && Selected(nodes, e, n) && ActiveBranch(nodes, e) &&
        (nodes[e.source].status == Failed || nodes[e.source].status == Cancelled);
    } else {
      assert !FailedSource(w, nodes, n);
      if HasInactiveBranch(w, nodes, n) {
        var e :| e in w.edges && Selected(nodes, e, n);
      }
    }
  }

  // ----- what a pass does to the nodes -----

  /** What has started or ended stays as it is. */
  ghost predicate Keeps(a: Nodes, b: Nodes) {
    a.Keys == b.Keys && forall n :: n in a && a[n].status != Pending ==> b[n] == a[n]
  }

  lemma ReasonStays(w: Workflow, a: Nodes, b: Nodes, n: string)
    requires Keeps(a, b) && HasReason(w, a, n)
    ensures HasReason(w, b, n)
  {
    if FailedSource(w, a, n) {
      var e :| e in w.edges && e.target == n && e.source in a && (a[e.source].status == Failed ||
        a[e.source].status == Cancelled) && (e.branchId.None? || a[e.source].branch == e.branchId);
      assert b[e.source] == a[e.source];
    } else {
      var e :| e in w.edges && e.target == n && e.source in a && a[e.source].status != Skipped;
      assert ChoseAnother(a, e) && b[e.source] == a[e.source];
      forall e | e in w.edges && e.target == n && e.source in b && b[e.source].status != Skipped
        ensures ChoseAnother(b, e)
      {
        assert ChoseAnother(a, e);
      }
    }
  }

  /** And what is skipped is skipped for a reason. */
  ghost predicate Leads(w: Workflow, a: Run, b: Run) {
    && Keeps(a.nodes, b.nodes)
    && (a.status != RunRunning ==> b.status != RunRunning && b.nodes == a.nodes)
    && (forall n :: n in a.nodes && a.nodes[n].status == Pending && b.nodes[n].status == Skipped ==>
      HasReason(w, b.nodes, n))
  }

  lemma LeadsOn(w: Workflow, a: Run, b: Run, c: Run)
    requires Leads(w, a, b) && Leads(w, b, c)
    ensures Leads(w, a, c)
  {
    forall n | n in a.nodes && a.nodes[n].status == Pending && c.nodes[n].status == Skipped
      ensures HasReason(w, c.nodes, n)
    {
      if b.nodes[n].status == Skipped { ReasonStays(w, b.nodes, c.nodes, n); }
    }
  }

  lemma RoundLeads(w: Workflow, r: Run)
    requires r.status == RunRunning
    ensures Leads(w, r, AfterSkipping(r, SkippableNodes(w, r)))
  {
    var later := AfterSkipping(r, SkippableNodes(w, r));
    forall n | n in r.nodes && r.nodes[n].status == Pending && later.nodes[n].status == Skipped
      ensures HasReason(w, later.nodes, n)
    {
      SkipsForTheseReasons(w, r.nodes, n);
      ReasonStays(w, r.nodes, later.nodes, n);
    }
  }

  lemma SkipAllUnfolds(w: Workflow, r: Run)
    ensures if r.status == RunRunning && exists n :: Skippable(w, r, n)
      then (exists n :: Skippable(w, r, n)) && MovesLeft(AfterSkipping(r, SkippableNodes(w, r))) < MovesLeft(r)
        && SkipAll(w, r) == SkipAll(w, AfterSkipping(r, SkippableNodes(w, r)))
      else SkipAll(w, r) == r
  {
    if n :| Skippable(w, r, n) { SkippingUsesMoves(w, r, n); }
  }

  /** The skip loop leaves nothing to skip. */
  lemma {:induction false} SkipAllLeads(w: Workflow, r: Run)
    ensures Leads(w, r, SkipAll(w, r))
    ensures SkipAll(w, r).status == RunRunning ==> AtSkipFixpoint(w, SkipAll(w, r))
    decreases MovesLeft(r)
  {
    SkipAllUnfolds(w, r);
    if r.status == RunRunning && exists n :: Skippable(w, r, n) {
      var later := AfterSkipping(r, SkippableNodes(w, r));
      RoundLeads(w, r);
      SkipAllLeads(w, later);
      LeadsOn(w, r, later, SkipAll(w, later));
    } else {
      forall n | n in r.nodes && r.nodes[n].status == Pending && r.status == RunRunning
        ensures !ShouldSkip(w, r.nodes, n)
      {
        assert !Skippable(w, r, n);
      }
    }
  }

  // ----- what it leaves behind -----

  /** No slot is free, or no pending node can be claimed; the run has the nodes of the definition. */
  ghost predicate Busy(w: Workflow, r: Run) {
    r.nodes.Keys == NodeIds(w.nodes) ==> RunningCount(r) >= Parallelism(w) || forall n :: !Claimable(w, r, n)
  }

  ghost predicate WorkedOff(w: Workflow, r: Run) {
    r.status == RunRunning ==> AtSkipFixpoint(w, r) && Busy(w, r)
  }

  lemma ClaimGivesNoReason(w: Workflow, seen: Run, now: Run, n: string, m: string)
    requires Guard(now, ClaimNode(n)) && m in now.nodes && HasReason(w, Effect(seen, now, ClaimNode(n)).nodes, m)
    ensures HasReason(w, now.nodes, m)
  {
    var claimed := Effect(seen, now, ClaimNode(n)).nodes;
    if FailedSource(w, claimed, m) {
      var e :| e in w.edges && e.target == m && e.source in claimed && (claimed[e.source].status == Failed ||
        claimed[e.source].status == Cancelled) && (e.branchId.None? || claimed[e.source].branch == e.branchId);
      assert now.nodes[e.source] == claimed[e.source];
    } else {
      forall e | e in w.edges && e.target == m && e.source in now.nodes && now.nodes[e.source].status != Skipped
        ensures ChoseAnother(now.nodes, e)
      {
        assert ChoseAnother(claimed, e);
      }
    }
  }

  lemma ClaimMakesNoneReady(w: Workflow, seen: Run, now: Run, n: string, m: string)
    requires Guard(now, ClaimNode(n)) && Claimable(w, Effect(seen, now, ClaimNode(n)), m)
    ensures Claimable(w, now, m) && m != n
  {
    var claimed := Effect(seen, now, ClaimNode(n)).nodes;
    forall e | e in w.edges && Selected(now.nodes, e, m) && ActiveBranch(now.nodes, e)
      ensures now.nodes[e.source].status == Succeeded
    {
      assert Selected(claimed, e, m) && ActiveBranch(claimed, e);
    }
  }

  /** A claim gives no node a reason to be skipped and makes none ready. */
  lemma ClaimLeads(w: Workflow, seen: Run, now: Run, n: string)
    requires Guard(now, ClaimNode(n))
    ensures var claimed := Effect(seen, now, ClaimNode(n));
      && Leads(w, now, claimed) && claimed.status == RunRunning
      && RunningCount(claimed) == RunningCount(now) + 1
      && (AtSkipFixpoint(w, now) ==> AtSkipFixpoint(w, claimed))
      && (forall m :: Claimable(w, claimed, m) ==> Claimable(w, now, m) && m != n)
  {
    var claimed := Effect(seen, now, ClaimNode(n));
    assert NodesWith(claimed.nodes, Running) == NodesWith(now.nodes, Running) + {n};
    forall m | m in claimed.nodes && claimed.nodes[m].status == Pending && ShouldSkip(w, claimed.nodes, m)
      ensures ShouldSkip(w, now.nodes, m)
    {
      SkipsForTheseReasons(w, claimed.nodes, m);
      ClaimGivesNoReason(w, seen, now, n, m);
      SkipsForTheseReasons(w, now.nodes, m);
    }
    forall m | Claimable(w, claimed, m) ensures Claimable(w, now, m) && m != n {
      ClaimMakesNoneReady(w, seen, now, n, m);
    }
  }

  /** A claimed node whose job is refused has gone from pending to failed. */
  lemma RefusalLeads(w: Workflow, seen: Run, now: Run, n: string)
    requires Guard(now, ClaimNode(n))
    ensures var claimed := Effect(seen, now, ClaimNode(n));
      Guard(claimed, FailNode(n)) && Leads(w, now, Effect(claimed, claimed, FailNode(n)))
  {
  }

  /** Where a pass may stop: it has led on from r and worked off what it found. */
  ghost predicate Ends(w: Workflow, r: Run, later: Run) {
    Leads(w, r, later) && WorkedOff(w, later)
  }

  lemma EndedRunStays(w: Workflow, accepts: Job -> bool, r: Run)
    requires r.status != RunRunning
    ensures Proceed(w, accepts, r) == r && Ends(w, r, r)
  {
  }

  lemma FinalisingEnds(w: Workflow, r: Run, step: Step)
    requires r.status == RunRunning && Guard(r, step) && (step == FinishPass || step == FinishFailFast)
    ensures Ends(w, r, Released(Write(r, r, step)))
  {
  }

  lemma LastPassEnds(w: Workflow, accepts: Job -> bool, r: Run)
    requires r.status == RunRunning && AllTerminal(r.nodes)
    ensures Ends(w, r, Proceed(w, accepts, r))
  {
    FinalisingEnds(w, r, FinishPass);
    assert Proceed(w, accepts, r) == Released(Write(r, r, FinishPass));
  }

  lemma {:induction false} PassEnds(w: Workflow, accepts: Job -> bool, r: Run, later: Run)
    requires later == Pass(w, accepts, r)
    ensures Ends(w, r, later)
    decreases MovesLeft(r), 3, 0
  {
    var seen := SkipAll(w, r);
    SkipAllLeads(w, r);
    ProceedEnds(w, accepts, seen, later);
    LeadsOn(w, r, seen, later);
  }

  lemma {:induction false} ProceedEnds(w: Workflow, accepts: Job -> bool, seen: Run, later: Run)
    requires later == Proceed(w, accepts, seen) && (seen.status == RunRunning ==> AtSkipFixpoint(w, seen))
    ensures Ends(w, seen, later)
    decreases MovesLeft(seen), 2, 0
  {
    if seen.status != RunRunning {
      EndedRunStays(w, accepts, seen);
    } else if AllTerminal(seen.nodes) {
      LastPassEnds(w, accepts, seen);
    } else {
      ProceedUnfolds(w, accepts, seen);
      FromHereEnds(w, accepts, seen, Parallelism(w) - RunningCount(seen), later);
    }
  }

  lemma {:induction false} FromHereEnds(w: Workflow, accepts: Job -> bool, seen: Run, slots: int, later: Run)
    requires seen.status == RunRunning && AtSkipFixpoint(w, seen) && slots == Parallelism(w) - RunningCount(seen)
    requires later == Dispatch(w, accepts, seen, seen, slots, 0)
    ensures Ends(w, seen, later)
    decreases MovesLeft(seen), 1, |w.nodes| + 1
  {
    AllAreAhead(w, seen);
    DispatchEnds(w, accepts, seen, seen, slots, 0, later);
  }

  lemma AllAreAhead(w: Workflow, seen: Run)
    requires seen.status == RunRunning && AtSkipFixpoint(w, seen)
    ensures CanFill(w, seen, seen, Parallelism(w) - RunningCount(seen), 0)
  {
    if seen.nodes.Keys == NodeIds(w.nodes) {
      forall n | Claimable(w, seen, n) ensures IsAhead(w, seen, n, 0) {
        var d :| d in w.nodes && d.id == n;
        var j :| 0 <= j < |w.nodes| && w.nodes[j] == d;
      }
    }
  }

  /** n can be claimed by the snapshot and has its place at i or behind. */
  ghost predicate IsAhead(w: Workflow, seen: Run, n: string, i: nat) {
    Claimable(w, seen, n) && exists j :: i <= j < |w.nodes| && w.nodes[j].id == n
  }

  /** What is left of a pass is enough to take the free slots. */
  ghost predicate CanFill(w: Workflow, seen: Run, now: Run, slots: int, i: nat) {
    now.status == RunRunning ==>
      && AtSkipFixpoint(w, now)
      && (|| Busy(w, now)
          || (&& RunningCount(now) + slots >= Parallelism(w)
              && forall n :: Claimable(w, now, n) ==> IsAhead(w, seen, n, i)))
  }

  lemma {:induction false} DispatchEnds(w: Workflow, accepts: Job -> bool, seen: Run, now: Run, slots: int, i: nat,
      later: Run)
    requires i <= |w.nodes| && CanFill(w, seen, now, slots, i)
    requires later == Dispatch(w, accepts, seen, now, slots, i)
    ensures Ends(w, now, later)
    decreases MovesLeft(now), 1, |w.nodes| - i
  {
    if i == |w.nodes| {
    } else if slots <= 0 {
      NoSlotsNoDispatch(w, accepts, seen, now, slots, i);
    } else if !Claimable(w, seen, w.nodes[i].id) || !Guard(now, ClaimNode(w.nodes[i].id)) {
      NothingAhead(w, seen, now, slots, i);
      DispatchEnds(w, accepts, seen, now, slots, i + 1, later);
    } else {
      DispatchOneEnds(w, accepts, seen, now, slots, i, later);
    }
  }

  lemma NothingAhead(w: Workflow, seen: Run, now: Run, slots: int, i: nat)
    requires i < |w.nodes| && CanFill(w, seen, now, slots, i)
    requires !Claimable(w, seen, w.nodes[i].id) || !Guard(now, ClaimNode(w.nodes[i].id))
    ensures CanFill(w, seen, now, slots, i + 1)
  {
    if now.status == RunRunning && !Busy(w, now) {
      forall n | Claimable(w, now, n) ensures IsAhead(w, seen, n, i + 1) {
        assert IsAhead(w, seen, n, i);
      }
    }
  }

  lemma {:induction false} DispatchOneEnds(w: Workflow, accepts: Job -> bool, seen: Run, now: Run, slots: int, i: nat,
      later: Run)
    requires i < |w.nodes| && CanFill(w, seen, now, slots, i) && slots > 0
    requires Claimable(w, seen, w.nodes[i].id) && Guard(now, ClaimNode(w.nodes[i].id))
    requires later == Dispatch(w, accepts, seen, now, slots, i)
    ensures Ends(w, now, later)
    decreases MovesLeft(now), 1, |w.nodes| - i, 0
  {
    var n := w.nodes[i].id;
    var claimed := Effect(seen, now, ClaimNode(n));
    NodeWriteUsesAMove(seen, now, ClaimNode(n));
    DispatchUnfolds(w, accepts, seen, now, slots, i);
    if accepts(Job(n, seen.nodes[n].attempt)) {
      ClaimCanFill(w, seen, now, slots, i);
      DispatchEnds(w, accepts, seen, claimed, slots - 1, i + 1, later);
      LeadsOn(w, now, claimed, later);
    } else {
      var failed := AfterFailed(w, accepts, claimed, n);
      RefusedEnds(w, accepts, seen, now, n, failed);
      DispatchEnds(w, accepts, seen, failed, slots, i + 1, later);
      LeadsOn(w, now, failed, later);
    }
  }

  lemma ClaimCanFill(w: Workflow, seen: Run, now: Run, slots: int, i: nat)
    requires i < |w.nodes| && CanFill(w, seen, now, slots, i) && Guard(now, ClaimNode(w.nodes[i].id))
    ensures Leads(w, now, Effect(seen, now, ClaimNode(w.nodes[i].id)))
    ensures CanFill(w, seen, Effect(seen, now, ClaimNode(w.nodes[i].id)), slots - 1, i + 1)
  {
    var n := w.nodes[i].id;
    ClaimLeads(w, seen, now, n);
    var claimed := Effect(seen, now, ClaimNode(n));
    if !Busy(w, now) {
      forall m | Claimable(w, claimed, m) ensures IsAhead(w, seen, m, i + 1) {
        assert IsAhead(w, seen, m, i);
      }
    }
  }

  lemma {:induction false} RefusedEnds(w: Workflow, accepts: Job -> bool, seen: Run, now: Run, n: string, later: Run)
    requires Guard(now, ClaimNode(n)) && later == AfterFailed(w, accepts, Effect(seen, now, ClaimNode(n)), n)
    ensures Ends(w, now, later)
    decreases MovesLeft(now), 0, 0
  {
    var claimed := Effect(seen, now, ClaimNode(n));
    NodeWriteUsesAMove(seen, now, ClaimNode(n));
    RefusalLeads(w, seen, now, n);
    var failed := Effect(claimed, claimed, FailNode(n));
    NodeWriteUsesAMove(claimed, claimed, FailNode(n));
    if w.failureStrategy == FailFast {
      FinalisingEnds(w, failed, FinishFailFast);
    } else {
      PassEnds(w, accepts, failed, later);
    }
    LeadsOn(w, now, failed, later);
  }

  // ----- the main results -----

  /** A pass skips a pending node behind an edge that counts, if the source of the edge failed or was cancelled. */
  lemma BehindAFailureIsSkipped(w: Workflow, accepts: Job -> bool, r: Run, n: string, e: WorkflowEdge)
    requires r.status == RunRunning && n in r.nodes && r.nodes[n].status == Pending
    requires e in w.edges && e.target == n && e.source in r.nodes
    requires r.nodes[e.source].status == Failed || r.nodes[e.source].status == Cancelled
    requires e.branchId == None || e.branchId == r.nodes[e.source].branch
    ensures Pass(w, accepts, r).nodes.Keys == r.nodes.Keys && Pass(w, accepts, r).nodes[n].status == Skipped
  {
    assert FailedSource(w, r.nodes, n);
    ReasonIsSkipped(w, accepts, r, n);
  }

  /** A pass skips a pending node that no branch has chosen: it has an edge from a node of the run that was not
      skipped, and every such edge has a label, and its source ended with another branch. */
  lemma UnchosenIsSkipped(w: Workflow, accepts: Job -> bool, r: Run, n: string)
    requires r.status == RunRunning && n in r.nodes && r.nodes[n].status == Pending
    requires exists e :: e in w.edges && e.target == n && e.source in r.nodes && r.nodes[e.source].status != Skipped
    requires forall e :: e in w.edges && e.target == n && e.source in r.nodes && r.nodes[e.source].status != Skipped ==>
      && e.branchId != None && e.branchId != r.nodes[e.source].branch
      && r.nodes[e.source].status != Pending && r.nodes[e.source].status != Running
    ensures Pass(w, accepts, r).nodes.Keys == r.nodes.Keys && Pass(w, accepts, r).nodes[n].status == Skipped
  {
    assert NoSourceChoseIt(w, r.nodes, n);
    ReasonIsSkipped(w, accepts, r, n);
  }

  lemma ReasonIsSkipped(w: Workflow, accepts: Job -> bool, r: Run, n: string)
    requires r.status == RunRunning && n in r.nodes && r.nodes[n].status == Pending && HasReason(w, r.nodes, n)
    ensures Pass(w, accepts, r).nodes.Keys == r.nodes.Keys && Pass(w, accepts, r).nodes[n].status == Skipped
  {
    SkipsForTheseReasons(w, r.nodes, n);
    var later := AfterSkipping(r, SkippableNodes(w, r));
    assert Skippable(w, r, n);
    SkipAllUnfolds(w, r);
    SkipAllLeads(w, later);
    SkipAllLeads(w, r);
    ProceedEnds(w, accepts, SkipAll(w, r), Pass(w, accepts, r));
  }

  /** It skips nothing else, and leaves nothing of the kind pending: on an active run, a node that the pass has left
      pending or skipped is skipped exactly for one of these reasons. */
  lemma PassSkipsExactly(w: Workflow, accepts: Job -> bool, r: Run, n: string)
    requires n in r.nodes && r.nodes[n].status == Pending
    ensures var s := Pass(w, accepts, r);
      var failed := exists e ::
        && e in w.edges && e.target == n && e.source in s.nodes
        && (s.nodes[e.source].status == Failed || s.nodes[e.source].status == Cancelled)
        && (e.branchId == None || e.branchId == s.nodes[e.source].branch);
      var reached := exists e ::
        e in w.edges && e.target == n && e.source in s.nodes && s.nodes[e.source].status != Skipped;
      var unchosen := forall e ::
        e in w.edges && e.target == n && e.source in s.nodes && s.nodes[e.source].status != Skipped ==>
          && e.branchId != None && e.branchId != s.nodes[e.source].branch
          && s.nodes[e.source].status != Pending && s.nodes[e.source].status != Running;
      && s.nodes.Keys == r.nodes.Keys
      && (s.nodes[n].status == Skipped ==> failed || (reached && unchosen))
      && (s.status == RunRunning && s.nodes[n].status == Pending ==> !failed && !(reached && unchosen))
  {
    PassEnds(w, accepts, r, Pass(w, accepts, r));
    var s := Pass(w, accepts, r);
    SkipsForTheseReasons(w, s.nodes, n);
    ReasonWrittenOut(w, s.nodes, n);
  }

  lemma ReasonWrittenOut(w: Workflow, nodes: Nodes, n: string)
    ensures var failed := exists e ::
        && e in w.edges && e.target == n && e.source in nodes
        && (nodes[e.source].status == Failed || nodes[e.source].status == Cancelled)
        && (e.branchId == None || e.branchId == nodes[e.source].branch);
      var reached := exists e ::
        e in w.edges && e.target == n && e.source in nodes && nodes[e.source].status != Skipped;
      var unchosen := forall e ::
        e in w.edges && e.target == n && e.source in nodes && nodes[e.source].status != Skipped ==>
          && e.branchId != None && e.branchId != nodes[e.source].branch
          && nodes[e.source].status != Pending && nodes[e.source].status != Running;
      HasReason(w, nodes, n) <==> failed || (reached && unchosen)
  {
  }

  /** The report of a condition stores its branch, and skips a pending node whose edges all come from the condition
      with another label, or from sources that ended with another branch. */
  lemma ReportSkipsTheUnchosen(w: Workflow, accepts: Job -> bool, r: Run, c: string, branch: Option<string>, n: string)
    requires r.status == RunRunning && c in r.nodes && r.nodes[c].status == Running
    requires n in r.nodes && r.nodes[n].status == Pending
    requires exists e :: e in w.edges && e.source == c && e.target == n
    requires forall e :: e in w.edges && e.target == n && e.source in r.nodes && r.nodes[e.source].status != Skipped ==>
      e.branchId != None && if e.source == c then e.branchId != branch else
        && e.branchId != r.nodes[e.source].branch
        && r.nodes[e.source].status != Pending && r.nodes[e.source].status != Running
    ensures var s := AfterCompleted(w, accepts, r, c, branch);
      && s.nodes.Keys == r.nodes.Keys && s.nodes[n].status == Skipped
      && s.nodes[c].status == Succeeded && s.nodes[c].branch == branch
  {
    ReportLeads(w, accepts, r, c, branch, n);
    var done := Effect(r, r, CompleteNode(c, branch));
    var e :| e in w.edges && e.source == c && e.target == n;
    assert done.nodes[e.source].status != Skipped;
    forall e | e in w.edges && e.target == n && e.source in done.nodes && done.nodes[e.source].status != Skipped
      ensures ChoseAnother(done.nodes, e)
    {
      assert r.nodes[e.source].status != Skipped;
    }
    assert NoSourceChoseIt(w, done.nodes, n);
    ReasonIsSkipped(w, accepts, done, n);
  }

  /** A pending node behind an edge of the condition that has this label, or none, is skipped only because of another
      source, which failed or was cancelled behind an edge that counts. */
  lemma ReportKeepsTheChosen(w: Workflow, accepts: Job -> bool, r: Run, c: string, branch: Option<string>, n: string,
      e: WorkflowEdge)
    requires r.status == RunRunning && c in r.nodes && r.nodes[c].status == Running
    requires n in r.nodes && r.nodes[n].status == Pending
    requires e in w.edges && e.source == c && e.target == n && (e.branchId == None || e.branchId == branch)
    ensures var s := AfterCompleted(w, accepts, r, c, branch);
      && s.nodes.Keys == r.nodes.Keys
      && (s.nodes[n].status == Skipped ==>
        exists f :: f in w.edges && f.target == n && f.source in s.nodes && f.source != c
          && (s.nodes[f.source].status == Failed || s.nodes[f.source].status == Cancelled)
          && (f.branchId == None || f.branchId == s.nodes[f.source].branch))
  {
    ReportLeads(w, accepts, r, c, branch, n);
    var s := AfterCompleted(w, accepts, r, c, branch);
    if s.nodes[n].status == Skipped {
      assert !ChoseAnother(s.nodes, e);
      var f :| f in w.edges && f.target == n && f.source in s.nodes && (s.nodes[f.source].status == Failed ||
        s.nodes[f.source].status == Cancelled) && (f.branchId.None? || s.nodes[f.source].branch == f.branchId);
    }
  }

  lemma ReportLeads(w: Workflow, accepts: Job -> bool, r: Run, c: string, branch: Option<string>, n: string)
    requires r.status == RunRunning && c in r.nodes && r.nodes[c].status == Running
    requires n in r.nodes && r.nodes[n].status == Pending
    ensures var done := Effect(r, r, CompleteNode(c, branch));
      var s := AfterCompleted(w, accepts, r, c, branch);
      s == Pass(w, accepts, done) && Leads(w, done, s)
  {
    var done := Effect(r, r, CompleteNode(c, branch));
    assert done.nodes[n].status == Pending;
    PassEnds(w, accepts, done, Pass(w, accepts, done));
  }

  // ----- slots -----

  /** Unless it ends the run, a pass leaves no slot free that it could use: max(1, maxParallelism) nodes run after it,
      or each pending node has an edge that counts, from a node of the run that has neither succeeded nor been
      skipped. */
  lemma PassUsesTheSlots(w: Workflow, accepts: Job -> bool, r: Run)
    requires r.nodes.Keys == set d | d in w.nodes :: d.id
    ensures var s := Pass(w, accepts, r);
      var running := |set n | n in s.nodes && s.nodes[n].status == Running|;
      var waits := forall n :: n in s.nodes && s.nodes[n].status == Pending ==>
        exists e ::
          && e in w.edges && e.target == n && e.source in s.nodes
          && s.nodes[e.source].status != Succeeded && s.nodes[e.source].status != Skipped
          && (e.branchId == None || e.branchId == s.nodes[e.source].branch);
      s.status == RunRunning ==> (running >= 1 && running >= w.maxParallelism) || waits
  {
    PassEnds(w, accepts, r, Pass(w, accepts, r));
    var s := Pass(w, accepts, r);
    assert NodesWith(s.nodes, Running) == set n | n in s.nodes && s.nodes[n].status == Running;
    if s.status == RunRunning && RunningCount(s) < Parallelism(w) {
      forall n | n in s.nodes && s.nodes[n].status == Pending
        ensures exists e ::
          && e in w.edges && e.target == n && e.source in s.nodes
          && s.nodes[e.source].status != Succeeded && s.nodes[e.source].status != Skipped
          && (e.branchId == None || e.branchId == s.nodes[e.source].branch)
      {
        assert !Claimable(w, s, n);
      }
    }
  }

  /** And it takes no more, if it found no more taken: when no job is refused, or a refused one ends the run. */
  lemma PassKeepsToTheSlots(w: Workflow, accepts: Job -> bool, r: Run)
    requires (forall job :: accepts(job)) || w.failureStrategy == FailFast
    requires var running := |set n | n in r.nodes && r.nodes[n].status == Running|;
      running <= 1 || running <= w.maxParallelism
    ensures var s := Pass(w, accepts, r);
      var running := |set n | n in s.nodes && s.nodes[n].status == Running|;
      running <= 1 || running <= w.maxParallelism
  {
    var seen := SkipAll(w, r);
    assert NodesWith(r.nodes, Running) == set n | n in r.nodes && r.nodes[n].status == Running;
    SkipAllKeepsRunning(w, r);
    ProceedKeepsToTheSlots(w, accepts, seen);
    var s := Proceed(w, accepts, seen);
    assert NodesWith(s.nodes, Running) == set n | n in s.nodes && s.nodes[n].status == Running;
  }

  lemma {:induction false} SkipAllKeepsRunning(w: Workflow, r: Run)
    ensures RunningCount(SkipAll(w, r)) == RunningCount(r)
    decreases MovesLeft(r)
  {
    SkipAllUnfolds(w, r);
    if r.status == RunRunning && exists n :: Skippable(w, r, n) {
      var later := AfterSkipping(r, SkippableNodes(w, r));
      assert NodesWith(later.nodes, Running) == NodesWith(r.nodes, Running);
      SkipAllKeepsRunning(w, later);
    }
  }

  lemma ProceedKeepsToTheSlots(w: Workflow, accepts: Job -> bool, seen: Run)
    requires (forall job :: accepts(job)) || w.failureStrategy == FailFast
    requires RunningCount(seen) <= Parallelism(w)
    ensures RunningCount(Proceed(w, accepts, seen)) <= Parallelism(w)
  {
    if seen.status == RunRunning {
      if !AllTerminal(seen.nodes) {
        ProceedUnfolds(w, accepts, seen);
        DispatchKeepsToTheSlots(w, accepts, seen, seen, Parallelism(w) - RunningCount(seen), 0);
      }
    }
  }

  lemma {:induction false} DispatchKeepsToTheSlots(w: Workflow, accepts: Job -> bool, seen: Run, now: Run, slots: nat,
      i: nat)
    requires (forall job :: accepts(job)) || w.failureStrategy == FailFast
    requires i <= |w.nodes| && RunningCount(now) + slots <= Parallelism(w)
    ensures RunningCount(Dispatch(w, accepts, seen, now, slots, i)) <= Parallelism(w)
    decreases |w.nodes| - i
  {
    if i == |w.nodes| {
    } else if slots == 0 {
      NoSlotsNoDispatch(w, accepts, seen, now, slots, i);
    } else if !Claimable(w, seen, w.nodes[i].id) || !Guard(now, ClaimNode(w.nodes[i].id)) {
      DispatchKeepsToTheSlots(w, accepts, seen, now, slots, i + 1);
    } else {
      var n := w.nodes[i].id;
      var claimed := Effect(seen, now, ClaimNode(n));
      DispatchUnfolds(w, accepts, seen, now, slots, i);
      ClaimLeads(w, seen, now, n);
      if accepts(Job(n, seen.nodes[n].attempt)) {
        DispatchKeepsToTheSlots(w, accepts, seen, claimed, slots - 1, i + 1);
      } else {
        RefusalFreesTheSlot(w, accepts, seen, now, n);
        DispatchKeepsToTheSlots(w, accepts, seen, AfterFailed(w, accepts, claimed, n), slots, i + 1);
      }
    }
  }

  lemma RefusalFreesTheSlot(w: Workflow, accepts: Job -> bool, seen: Run, now: Run, n: string)
    requires w.failureStrategy == FailFast && Guard(now, ClaimNode(n))
    ensures RunningCount(AfterFailed(w, accepts, Effect(seen, now, ClaimNode(n)), n)) == RunningCount(now)
  {
    var later := AfterFailed(w, accepts, Effect(seen, now, ClaimNode(n)), n);
    assert NodesWith(later.nodes, Running) == NodesWith(now.nodes, Running);
  }
}
