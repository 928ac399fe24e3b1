/** The scheduler that drives a run. Between any two database calls of this worker the writes of other workers may
    come in; `others` holds them, one batch for each call. */
module WorkflowEngine {
  import opened Options
  import opened FiniteSets
  import opened Digraph
  import opened ExecutionGraph
  import opened WorkflowProtocol
  import opened WorkflowPass

  /** A write of another worker, decided from the state at position `seen` of the history. */
  datatype Move = Move(seen: nat, step: Step)

  ghost predicate AnyRunning(r: Run) {
    exists n :: n in r.nodes && r.nodes[n].status == Running
  }

  /** A run that is still active has a job under way, so some report will move it on. */
  ghost predicate Alive(r: Run) {
    r.status != RunRunning || AnyRunning(r)
  }

  /** When the skip loop has nothing left to skip and nothing is running, some pending node is ready. */
  lemma SomePendingNodeIsReady(w: Workflow, r: Run)
    requires Coherent(r) && r.status == RunRunning
    requires r.nodes.Keys == NodeIds(w.nodes) && Acyclic(Dependencies(w))
    requires AtSkipFixpoint(w, r) && !AnyRunning(r) && !AllTerminal(r.nodes)
    ensures exists n :: n in r.nodes && r.nodes[n].status == Pending && Ready(w, r.nodes, n)
  {
    var pending := NodesWith(r.nodes, Pending);
    var m :| m in r.nodes && !IsTerminal(r.nodes[m].status);
    assert m in pending;
    var n := LeastElement(Dependencies(w), r.nodes.Keys, pending);
    forall e | e in w.edges && Selected(r.nodes, e, n) && ActiveBranch(r.nodes, e)
      ensures r.nodes[e.source].status == Succeeded
    {
      assert (e.source, n) in Dependencies(w);
      assert e.source !in pending;
      assert !HasFailedDependency(w, r.nodes, n);
    }
    assert Ready(w, r.nodes, n);
  }

  lemma FewerMovesLater(w: Workflow, targets: set<string>, h: seq<Run>, i: nat, k: nat)
    requires IsHistory(w, targets, h) && i <= k < |h|
    ensures MovesLeft(h[k]) <= MovesLeft(h[i])
    ensures h[k].nodes.Keys == h[0].nodes.Keys == NodeIds(w.nodes)
  {
    HistoriesAreSafe(w, targets, h, i, k);
    HistoriesAreSafe(w, targets, h, 0, k);
    StepUsesMoves(h[i], h[k]);
  }

  lemma HistoryGrows(w: Workflow, targets: set<string>, h: seq<Run>, at: nat, step: Step)
    requires IsHistory(w, targets, h) && at < |h| && Decides(w, h[at], step)
    ensures IsHistory(w, targets, h + [Write(h[at], h[|h| - 1], step)])
  {
    var longer := h + [Write(h[at], h[|h| - 1], step)];
    forall k | 0 <= k < |longer| - 1 ensures Follows(w, longer, k) {
      if k < |h| - 1 {
        assert Follows(w, h, k);
        var i: nat, s :| i <= k && FollowsBy(w, h, k, i, s);
        assert FollowsBy(w, longer, k, i, s);
      } else {
        assert FollowsBy(w, longer, k, at, step);
      }
    }
  }

  lemma WriteUsesMoves(w: Workflow, targets: set<string>, h: seq<Run>, at: nat, step: Step)
    requires IsHistory(w, targets, h) && at < |h| && Decides(w, h[at], step)
    ensures MovesLeft(Write(h[at], h[|h| - 1], step)) <= MovesLeft(h[|h| - 1])
    ensures MovesANode(step) && Guard(h[|h| - 1], step) ==>
      MovesLeft(Write(h[at], h[|h| - 1], step)) < MovesLeft(h[|h| - 1])
  {
    var now := h[|h| - 1];
    HistoriesAreSafe(w, targets, h, at, |h| - 1);
    StepEvolves(w, h[at], now, step);
    StepUsesMoves(now, Write(h[at], now, step));
    if MovesANode(step) && Guard(now, step) { NodeWriteUsesAMove(h[at], now, step); }
  }

  /** What was issued stays issued. */
  lemma IssuedStays(w: Workflow, h: seq<Run>, longer: seq<Run>, i: nat, step: Step)
    requires h <= longer && i < |h| && Issued(h, i, step)
    ensures Issued(longer, i, step)
  {
    var k :| i <= k < |h| - 1 && h[k + 1] == Write(h[i], h[k], step);
    assert longer[k + 1] == Write(longer[i], longer[k], step);
  }

  lemma IssuedSkipStays(w: Workflow, h: seq<Run>, longer: seq<Run>, i: nat)
    requires h <= longer && i < |h| && IssuedSkip(w, h, i)
    ensures IssuedSkip(w, longer, i)
  {
    var n :| Decides(w, h[i], SkipNode(n)) && Issued(h, i, SkipNode(n));
    IssuedStays(w, h, longer, i, SkipNode(n));
  }

  lemma IssuedClaimStays(w: Workflow, h: seq<Run>, longer: seq<Run>, i: nat)
    requires h <= longer && i < |h| && IssuedClaim(w, h, i)
    ensures IssuedClaim(w, longer, i)
  {
    var n :| Decides(w, h[i], ClaimNode(n)) && Issued(h, i, ClaimNode(n));
    IssuedStays(w, h, longer, i, ClaimNode(n));
  }

  lemma IsHandled(w: Workflow, h: seq<Run>, from: nat, k: nat, step: Step)
    requires from <= k < |h| - 1 && h[k + 1] == Write(h[k], h[k], step)
    requires h[k + 1].nodes != h[k].nodes ==> exists j :: k < j < |h| && FollowedUp(w, h, j)
    ensures Handled(w, h, from, step)
  {
    if h[k + 1].nodes != h[k].nodes {
      var j :| k < j < |h| && FollowedUp(w, h, j);
      assert FollowedUp(w, h, k + 1);
    }
  }

  lemma FailureStays(w: Workflow, targets: set<string>, h: seq<Run>, i: nat, k: nat, n: string)
    requires IsHistory(w, targets, h) && i <= k < |h| && n in h[i].nodes && h[i].nodes[n].status == Failed
    ensures AnyFailed(h[k].nodes)
  {
    HistoriesAreSafe(w, targets, h, i, k);
    assert NodeEvolves(h[i].nodes[n], h[k].nodes[n]);
  }

  lemma BusyRunsSomething(w: Workflow, r: Run)
    requires RunningCount(r) >= Parallelism(w)
    ensures AnyRunning(r)
  {
    var n :| n in NodesWith(r.nodes, Running);
  }

  ghost predicate CanSkipAll(w: Workflow, seen: Run, ids: seq<string>) {
    forall n :: n in ids ==> Decides(w, seen, SkipNode(n))
  }

  lemma OneMoreId(ids: seq<string>, i: nat)
    requires i < |ids|
    ensures ids[i] in ids && SetOf(ids[..i + 1]) == SetOf(ids[..i]) + {ids[i]}
    ensures i == 0 ==> ids[i] !in SetOf(ids[..i])
  {
    assert ids[..i + 1] == ids[..i] + [ids[i]];
  }

  ghost predicate SkipsIssued(w: Workflow, h: seq<Run>, at: nat)
    requires at < |h|
  {
    HasSkip(w, h[at]) ==> IssuedSkip(w, h, at)
  }

  /** now is what rounds of skipping have made of before. */
  ghost predicate SkippedFrom(w: Workflow, before: Run, now: Run, skippedAny: bool) {
    && RunningCount(now) == RunningCount(before) && SkipAll(w, now) == SkipAll(w, before)
    && (!skippedAny ==> AtSkipFixpoint(w, now))
  }

  lemma SkipsAreDone(w: Workflow, r: Run)
    ensures r.status != RunRunning || AtSkipFixpoint(w, r) ==> SkipAll(w, r) == r
  {
    if AtSkipFixpoint(w, r) { forall n ensures !Skippable(w, r, n) {} }
  }

  /** What a pass does after its skips. */
  ghost predicate Proceeded(w: Workflow, h: seq<Run>, at: nat)
    requires at < |h|
  {
    if AllTerminal(h[at].nodes) then Issued(h, at, FinishPass)
    else RunningCount(h[at]) < Parallelism(w) && HasClaim(w, h[at]) ==> IssuedClaim(w, h, at)
  }

  lemma IsFollowedUp(w: Workflow, skipped: seq<Run>, h: seq<Run>, from: nat, at: nat)
    requires skipped <= h && from <= at < |skipped|
    requires h[at].status == RunRunning ==> SkipsIssued(w, skipped, at) && Proceeded(w, h, at)
    ensures FollowedUp(w, h, from)
  {
    if h[at].status == RunRunning && HasSkip(w, h[at]) { IssuedSkipStays(w, skipped, h, at); }
    assert PassFinished(w, h, at);
  }

  /** None of the first i nodes of the definition can be claimed. */
  ghost predicate NoneClaimable(w: Workflow, seen: Run, i: nat)
    requires i <= |w.nodes|
  {
    forall j :: 0 <= j < i ==> !Claimable(w, seen, w.nodes[j].id)
  }

  lemma SkipOneMore(r: Run, ids: set<string>, n: string)
    requires r.status == RunRunning && n in r.nodes && r.nodes[n].status == Pending
    ensures Write(r, AfterSkipping(r, ids), SkipNode(n)) == AfterSkipping(r, ids + {n})
  {
    var next := Write(r, AfterSkipping(r, ids), SkipNode(n));
    assert next.nodes == AfterSkipping(r, ids + {n}).nodes;
  }

  lemma SkippingKeepsRunning(r: Run, ids: set<string>)
    ensures RunningCount(AfterSkipping(r, ids)) == RunningCount(r)
    ensures AfterSkipping(r, {}) == r
  {
    assert NodesWith(AfterSkipping(r, ids).nodes, Running) == NodesWith(r.nodes, Running);
    assert AfterSkipping(r, {}).nodes == r.nodes;
  }

  class WorkflowExecution {
    const w: Workflow
    const queueAccepts: Job -> bool
    ghost const targets: set<string>
    var run: Run
    var history: seq<Run>
    var others: seq<seq<Move>>

    ghost predicate Valid()
      reads this
    {
      IsHistory(w, targets, history) && run == history[|history| - 1]
    }

    /** No other worker interferes from here on. */
    ghost predicate Quiet()
      reads this
    {
      others == []
    }

    constructor (w: Workflow, targets: set<string>, leased: bool, queueAccepts: Job -> bool, others: seq<seq<Move>>)
      ensures Valid() && this.w == w && this.targets == targets && this.queueAccepts == queueAccepts
      ensures this.others == others && history == [run] && Initial(w, targets, run) && run.leased == leased
    {
      this.w, this.targets, this.queueAccepts, this.others := w, targets, queueAccepts, others;
      var nodes := map d | d in (set n | n in w.nodes :: n.id) ::
        NodeState(if d in targets then Pending else Skipped, None, 0);
      run := Run(RunRunning, nodes, [], leased, 0, 0);
      history := [Run(RunRunning, nodes, [], leased, 0, 0)];
    }

    method Append(at: nat, step: Step)
      requires Valid() && at < |history| && Decides(w, history[at], step)
      modifies this`run, this`history
      ensures Valid() && history == old(history) + [run]
      ensures run == Write(old(history)[at], old(run), step)
      ensures Issued(history, at, step)
    {
      HistoryGrows(w, targets, history, at, step);
      run := Write(history[at], run, step);
      history := history + [run];
      assert history[|history| - 1] == Write(history[at], history[|history| - 2], step);
    }

    /** Lets the next batch of writes by other workers happen. Moves that no worker could decide are ignored. */
    method Interleave()
      requires Valid()
      modifies this
      ensures Valid() && old(history) <= history
      ensures old(Quiet()) ==> Quiet() && run == old(run) && history == old(history)
      ensures MovesLeft(run) <= old(MovesLeft(run))
    {
      if others != [] {
        var batch := others[0];
        others := others[1..];
        for i := 0 to |batch|
          invariant Valid() && old(history) <= history
        {
          var move := batch[i];
          if move.seen < |history| && Decides(w, history[move.seen], move.step) {
            Append(move.seen, move.step);
          }
        }
        FewerMovesLater(w, targets, history, |old(history)| - 1, |history| - 1);
      }
    }

    /** findOne: a snapshot, named by its position in the history. */
    method Read() returns (at: nat)
      requires Valid()
      modifies this
      ensures Valid() && old(history) <= history && at == |history| - 1
      ensures old(Quiet()) ==> Quiet() && run == old(run) && history == old(history)
      ensures MovesLeft(run) <= old(MovesLeft(run))
    {
      Interleave();
      at := |history| - 1;
    }

    /** updateOne: the condition is checked against the document as it is by then. A lost write leaves a trace in the
        history too, without any change. */
    method UpdateOne(at: nat, step: Step) returns (modified: bool)
      requires Valid() && at < |history| && Decides(w, history[at], step)
      modifies this
      ensures Valid() && old(history) < history && |history| >= 2
      ensures Issued(history, at, step)
      ensures modified == Guard(history[|history| - 2], step)
      ensures run == Write(history[at], history[|history| - 2], step)
      ensures modified && MovesANode(step) ==> MovesLeft(run) < old(MovesLeft(run))
      ensures MovesLeft(run) <= old(MovesLeft(run))
      ensures old(Quiet()) ==> Quiet() && history[|history| - 2] == old(run)
    {
      Interleave();
      modified := Guard(run, step);
      WriteUsesMoves(w, targets, history, at, step);
      Append(at, step);
    }

    /** The pending nodes to skip, by the snapshot. */
    method NodesToSkip(snapshot: Run) returns (skipNodeIds: seq<string>)
      ensures forall n :: n in skipNodeIds <==> n in NodeIds(w.nodes) && Skippable(w, snapshot, n)
    {
      skipNodeIds := [];
      for i := 0 to |w.nodes|
        invariant forall n :: n in skipNodeIds <==> n in NodeIds(w.nodes[..i]) && Skippable(w, snapshot, n)
      {
        var id := w.nodes[i].id;
        assert w.nodes[..i + 1] == w.nodes[..i] + [w.nodes[i]];
        if Skippable(w, snapshot, id) {
          skipNodeIds := skipNodeIds + [id];
        }
      }
      assert w.nodes[..|w.nodes|] == w.nodes;
    }

    method SkipNodes(at: nat, skipNodeIds: seq<string>) returns (skippedAny: bool)
      requires Valid() && at < |history| && CanSkipAll(w, history[at], skipNodeIds)
      modifies this
      ensures Valid() && old(history) <= history
      ensures MovesLeft(run) <= old(MovesLeft(run))
      ensures skippedAny ==> MovesLeft(run) < old(MovesLeft(run))
      ensures skipNodeIds != [] ==> IssuedSkip(w, history, at)
      ensures old(Quiet()) ==> Quiet()
      ensures old(Quiet()) && old(run) == history[at] ==>
        run == AfterSkipping(old(run), SetOf(skipNodeIds)) && skippedAny == (skipNodeIds != [])
    {
      skippedAny := false;
      SkippingKeepsRunning(run, {});
      for i := 0 to |skipNodeIds|
        invariant Valid() && old(history) <= history
        invariant MovesLeft(run) <= old(MovesLeft(run))
        invariant skippedAny ==> MovesLeft(run) < old(MovesLeft(run))
        invariant i > 0 ==> IssuedSkip(w, history, at)
        invariant old(Quiet()) ==> Quiet()
        invariant old(Quiet()) && old(run) == history[at] ==>
          run == AfterSkipping(old(run), SetOf(skipNodeIds[..i])) && skippedAny == (i > 0)
      {
        OneMoreId(skipNodeIds, i);
        var modified := SkipOne(at, skipNodeIds[i], SetOf(skipNodeIds[..i]));
        if modified { skippedAny := true; }
      }
      assert skipNodeIds[..|skipNodeIds|] == skipNodeIds;
    }

    /** done are the nodes that were skipped before. */
    method SkipOne(at: nat, n: string, ghost done: set<string>) returns (modified: bool)
      requires Valid() && at < |history| && Decides(w, history[at], SkipNode(n))
      modifies this
      ensures Valid() && old(history) <= history && IssuedSkip(w, history, at)
      ensures MovesLeft(run) <= old(MovesLeft(run))
      ensures modified ==> MovesLeft(run) < old(MovesLeft(run))
      ensures old(Quiet()) ==> Quiet()
      ensures old(Quiet()) && old(run) == AfterSkipping(history[at], done) ==>
        run == AfterSkipping(history[at], done + {n}) && modified == (n !in done)
    {
      modified := UpdateOne(at, SkipNode(n));
      SkipOneMore(history[at], done, n);
    }

    /** Skips nodes until a round skips none, reading a new snapshot after every round that did. */
    method SkipToFixpoint() returns (at: nat, active: bool)
      requires Valid()
      modifies this
      ensures Valid() && old(history) <= history && |old(history)| - 1 <= at < |history|
      ensures MovesLeft(run) <= old(MovesLeft(run))
      ensures active == (history[at].status == RunRunning)
      ensures active ==> SkipsIssued(w, history, at)
      ensures old(Quiet()) ==> Quiet() && run == history[at] == SkipAll(w, old(run))
      ensures old(Quiet()) && active ==> AtSkipFixpoint(w, run)
      ensures old(Quiet()) ==> RunningCount(run) == old(RunningCount(run))
    {
      at := Read();
      active := history[at].status == RunRunning;
      var skippedAny := true;
      while active && skippedAny
        invariant Valid() && old(history) <= history && |old(history)| - 1 <= at < |history|
        invariant MovesLeft(run) <= old(MovesLeft(run))
        invariant active == (history[at].status == RunRunning)
        invariant active && !skippedAny ==> SkipsIssued(w, history, at)
        invariant old(Quiet()) ==> Quiet() && run == history[at] && SkippedFrom(w, old(run), run, skippedAny)
        decreases MovesLeft(run), skippedAny
      {
        at, active, skippedAny := SkipAndRead(at);
      }
      SkipsAreDone(w, run);
    }

    /** One round, and a new snapshot if it skipped something. */
    method SkipAndRead(at: nat) returns (next: nat, active: bool, skippedAny: bool)
      requires Valid() && at < |history| && history[at].status == RunRunning
      modifies this
      ensures Valid() && old(history) <= history && at <= next < |history|
      ensures MovesLeft(run) <= old(MovesLeft(run))
      ensures active == (history[next].status == RunRunning)
      ensures if skippedAny then MovesLeft(run) < old(MovesLeft(run)) else SkipsIssued(w, history, next)
      ensures old(Quiet()) ==> Quiet()
      ensures old(Quiet()) && old(run) == history[at] ==>
        run == history[next] && SkippedFrom(w, old(run), run, skippedAny)
    {
      skippedAny := SkipRound(at);
      next, active := at, true;
      if skippedAny {
        next := Read();
        active := history[next].status == RunRunning;
      }
    }

    method SkipRound(at: nat) returns (skippedAny: bool)
      requires Valid() && at < |history| && history[at].status == RunRunning
      modifies this
      ensures Valid() && old(history) <= history
      ensures MovesLeft(run) <= old(MovesLeft(run))
      ensures skippedAny ==> MovesLeft(run) < old(MovesLeft(run))
      ensures SkipsIssued(w, history, at)
      ensures old(Quiet()) ==> Quiet()
      ensures old(Quiet()) && old(run) == history[at] ==>
        SkippedFrom(w, old(run), run, skippedAny) && (!skippedAny ==> run == old(run))
    {
      var skipNodeIds := NodesToSkip(history[at]);
      FewerMovesLater(w, targets, history, at, at);
      skippedAny := SkipNodes(at, skipNodeIds);
      ghost var ids := SetOf(skipNodeIds);
      if old(Quiet()) && old(run) == history[at] {
        assert ids == SkippableNodes(w, old(run));
        SkippingKeepsRunning(old(run), ids);
        if skipNodeIds == [] { assert ids == {}; } else { assert Skippable(w, old(run), skipNodeIds[0]); }
      }
    }

    /** One scheduling pass. */
    method ScheduleReadyNodes()
      requires Valid()
      modifies this
      ensures Valid() && old(history) <= history
      ensures MovesLeft(run) <= old(MovesLeft(run))
      ensures FollowedUp(w, history, |old(history)| - 1)
      ensures old(Quiet()) ==> Quiet() && run == Pass(w, queueAccepts, old(run))
      ensures old(Quiet()) && Acyclic(Dependencies(w)) ==> Alive(run)
      ensures old(Quiet()) && SlotsAreSafe() && old(RunningCount(run)) <= Parallelism(w)
        ==> RunningCount(run) <= Parallelism(w)
      decreases MovesLeft(run), 4
    {
      var at, active := SkipToFixpoint();
      ghost var skipped := history;
      if active { ScheduleFrom(at); }
      IsFollowedUp(w, skipped, history, |old(history)| - 1, at);
    }

    /** The pass from its last snapshot. */
    method ScheduleFrom(at: nat)
      requires Valid() && at < |history| && history[at].status == RunRunning
      modifies this
      ensures Valid() && old(history) <= history
      ensures MovesLeft(run) <= old(MovesLeft(run))
      ensures Proceeded(w, history, at)
      ensures old(Quiet()) ==> Quiet()
      ensures old(Quiet()) && old(run) == history[at] ==> run == Proceed(w, queueAccepts, old(run))
      ensures old(Quiet()) && old(run) == history[at] && Acyclic(Dependencies(w)) && AtSkipFixpoint(w, old(run)) ==>
        Alive(run)
      ensures old(Quiet()) && SlotsAreSafe() && old(run) == history[at] && old(RunningCount(run)) <= Parallelism(w)
        ==> RunningCount(run) <= Parallelism(w)
      decreases MovesLeft(run), 3
    {
      if AllTerminal(history[at].nodes) {
        var finalized := UpdateOne(at, FinishPass);
        ghost var issued := history;
        if finalized { ReleaseRun(at); }
        IssuedStays(w, issued, history, at, FinishPass);
      } else {
        DispatchReadyNodes(at);
      }
    }

    /** A refused job cannot take slots twice: there is none, or it ends the run. */
    ghost predicate SlotsAreSafe() {
      (forall j :: queueAccepts(j)) || w.failureStrategy == FailFast
    }

    method ReleaseRun(at: nat)
      requires Valid() && at < |history|
      modifies this
      ensures Valid() && old(history) <= history
      ensures MovesLeft(run) <= old(MovesLeft(run))
      ensures old(Quiet()) ==> Quiet() && run == Released(old(run))
      ensures old(run.status) != RunRunning ==> run.status == old(run.status)
    {
      ghost var before := |history| - 1;
      var released := UpdateOne(at, ReleaseLease);
      HistoriesAreSafe(w, targets, history, before, |history| - 1);
    }

    /** Claims ready nodes of the snapshot, in the order of the definition, while there are free slots. */
    method DispatchReadyNodes(at: nat)
      requires Valid() && at < |history| && history[at].status == RunRunning
      modifies this
      ensures Valid() && old(history) <= history
      ensures MovesLeft(run) <= old(MovesLeft(run))
      ensures RunningCount(history[at]) < Parallelism(w) && HasClaim(w, history[at]) ==> IssuedClaim(w, history, at)
      ensures old(Quiet()) ==> Quiet()
      ensures old(Quiet()) && old(run) == history[at] ==>
        run == Dispatch(w, queueAccepts, old(run), old(run), Parallelism(w) - old(RunningCount(run)), 0)
      ensures old(Quiet()) && Acyclic(Dependencies(w)) && old(run) == history[at] ==>
        AtSkipFixpoint(w, history[at]) && !AllTerminal(history[at].nodes) ==> Alive(run)
      ensures old(Quiet()) && SlotsAreSafe() && old(run) == history[at] && old(RunningCount(run)) <= Parallelism(w)
        ==> RunningCount(run) <= Parallelism(w)
      decreases MovesLeft(run), 2
    {
      var snapshot := history[at];
      var running := CountRunning(snapshot);
      var availableSlots := Parallelism(w) - running;
      if availableSlots <= 0 {
        NoSlotsNoDispatch(w, queueAccepts, snapshot, snapshot, availableSlots, 0);
        BusyRunsSomething(w, snapshot);
        return;
      }
      for i := 0 to |w.nodes|
        invariant Valid() && old(history) <= history
        invariant MovesLeft(run) <= old(MovesLeft(run))
        invariant IssuedClaim(w, history, at) || (availableSlots > 0 && NoneClaimable(w, snapshot, i))
        invariant old(Quiet()) ==> Quiet()
        invariant old(Quiet()) && old(run) == snapshot ==> OnTrack(snapshot, run, availableSlots, i)
      {
        ghost var before := history;
        availableSlots := TryNode(at, i, availableSlots);
        if IssuedClaim(w, before, at) { IssuedClaimStays(w, before, history, at); }
      }
      NobodyIsLeft(at);
    }

    /** Where an undisturbed pass over the snapshot is after the first i nodes. */
    ghost predicate OnTrack(seen: Run, now: Run, slots: int, i: nat) {
      && i <= |w.nodes|
      && Dispatch(w, queueAccepts, seen, now, slots, i) ==
         Dispatch(w, queueAccepts, seen, seen, Parallelism(w) - RunningCount(seen), 0)
      && (Acyclic(Dependencies(w)) ==> Alive(now) || (now == seen && slots > 0 && NoneClaimable(w, seen, i)))
      && (SlotsAreSafe() && RunningCount(seen) <= Parallelism(w) ==>
          RunningCount(now) + slots <= Parallelism(w) && slots >= 0)
    }

    /** Claims the node at position i of the definition, if it is ready in the snapshot and there is a slot. */
    method TryNode(at: nat, i: nat, slots: int) returns (left: int)
      requires Valid() && at < |history| && history[at].status == RunRunning && i < |w.nodes|
      modifies this
      ensures Valid() && old(history) <= history
      ensures MovesLeft(run) <= old(MovesLeft(run))
      ensures if slots > 0 && Claimable(w, history[at], w.nodes[i].id) then IssuedClaim(w, history, at)
        else left == slots
      ensures old(Quiet()) ==> Quiet()
      ensures old(Quiet()) && OnTrack(history[at], old(run), slots, i) ==> OnTrack(history[at], run, left, i + 1)
      decreases MovesLeft(run), 1
    {
      left := slots;
      if slots > 0 && Claimable(w, history[at], w.nodes[i].id) {
        var enqueued := EnqueueNode(at, w.nodes[i].id);
        if enqueued { left := slots - 1; }
      }
    }

    /** After the last position no claimable node is left untried. */
    lemma NobodyIsLeft(at: nat)
      requires Valid() && at < |history| && history[at].status == RunRunning
      ensures NoneClaimable(w, history[at], |w.nodes|) ==> !HasClaim(w, history[at])
      ensures NoneClaimable(w, history[at], |w.nodes|) && Acyclic(Dependencies(w)) && AtSkipFixpoint(w, history[at]) ==>
        AnyRunning(history[at]) || AllTerminal(history[at].nodes)
    {
      var seen := history[at];
      HistoriesAreSafe(w, targets, history, at, at);
      FewerMovesLater(w, targets, history, at, at);
      if NoneClaimable(w, seen, |w.nodes|) {
        forall n ensures !Claimable(w, seen, n) {
          if n in seen.nodes { var d :| d in w.nodes && d.id == n; }
        }
        if Acyclic(Dependencies(w)) && AtSkipFixpoint(w, seen) && !AnyRunning(seen) && !AllTerminal(seen.nodes) {
          SomePendingNodeIsReady(w, seen);
        }
      }
    }

    method CountRunning(snapshot: Run) returns (count: nat)
      ensures count == RunningCount(snapshot)
    {
      var running := set n | n in snapshot.nodes && snapshot.nodes[n].status == Running;
      assert running == NodesWith(snapshot.nodes, Running);
      count := |running|;
    }

    /** Claims a node and hands its job to the queue; a queue that refuses the job fails the node. */
    method EnqueueNode(at: nat, n: string) returns (enqueued: bool)
      requires Valid() && at < |history| && Decides(w, history[at], ClaimNode(n))
      modifies this
      ensures Valid() && old(history) <= history
      ensures MovesLeft(run) <= old(MovesLeft(run))
      ensures IssuedClaim(w, history, at)
      ensures old(Quiet()) ==> Quiet() && (run, enqueued) == Enqueue(w, queueAccepts, history[at], old(run), n)
      ensures old(Quiet()) && Acyclic(Dependencies(w)) && Guard(old(run), ClaimNode(n)) ==> Alive(run)
      ensures old(Quiet()) && !Guard(old(run), ClaimNode(n)) ==> !enqueued && run == old(run)
      ensures old(Quiet()) && SlotsAreSafe() ==>
        RunningCount(run) <= old(RunningCount(run)) + if enqueued then 1 else 0
      decreases MovesLeft(run), 0
    {
      ghost var before := run;
      var claimed := UpdateOne(at, ClaimNode(n));
      if !claimed { return false; }
      if old(Quiet()) {
        assert NodesWith(run.nodes, Running) == NodesWith(before.nodes, Running) + {n};
        assert run.nodes[n].status == Running;
      }
      if queueAccepts(Job(n, history[at].nodes[n].attempt)) {
        return true;
      }
      ghost var issued := history;
      OnNodeFailed(n);
      IssuedClaimStays(w, issued, history, at);
      return false;
    }

    /** A job reports success. */
    method OnNodeComplete(n: string, branch: Option<string>)
      requires Valid()
      modifies this
      ensures Valid() && old(history) <= history
      ensures MovesLeft(run) <= old(MovesLeft(run))
      ensures Handled(w, history, |old(history)| - 1, CompleteNode(n, branch))
      ensures old(Quiet()) ==> Quiet() && run == AfterCompleted(w, queueAccepts, old(run), n, branch)
      ensures old(Quiet()) && Acyclic(Dependencies(w)) && CanMove(old(run), n, Running) ==>
        Alive(run) && MovesLeft(run) < old(MovesLeft(run))
      ensures old(Quiet()) && SlotsAreSafe() && old(RunningCount(run)) <= Parallelism(w)
        ==> RunningCount(run) <= Parallelism(w)
      decreases MovesLeft(run), 6
    {
      var claimed := Report(CompleteNode(n, branch));
      ghost var reported := |history| - 2;
      if claimed { Advance(); }
      IsHandled(w, history, |old(history)| - 1, reported, CompleteNode(n, branch));
    }

    /** A job reports failure, or its node could not be queued. */
    method OnNodeFailed(n: string)
      requires Valid()
      modifies this
      ensures Valid() && old(history) <= history
      ensures MovesLeft(run) <= old(MovesLeft(run))
      ensures Handled(w, history, |old(history)| - 1, FailNode(n))
      ensures old(Quiet()) ==> Quiet() && run == AfterFailed(w, queueAccepts, old(run), n)
      ensures old(Quiet()) && Acyclic(Dependencies(w)) && CanMove(old(run), n, Running) ==>
        Alive(run) && MovesLeft(run) < old(MovesLeft(run))
      ensures old(Quiet()) && SlotsAreSafe() && old(RunningCount(run)) <= Parallelism(w)
        ==> RunningCount(run) <= Parallelism(w)
      ensures old(Quiet()) && w.failureStrategy == FailFast && CanMove(old(run), n, Running) ==>
        RunningCount(run) < old(RunningCount(run))
      decreases MovesLeft(run), 6
    {
      ghost var before := run;
      var claimed := Report(FailNode(n));
      ghost var reported := |history| - 2;
      if old(Quiet()) && claimed {
        assert NodesWith(run.nodes, Running) == NodesWith(before.nodes, Running) - {n};
      }
      if claimed {
        if w.failureStrategy == FailFast {
          FailRun(n);
        } else {
          var _ := Read();
          ScheduleReadyNodes();
        }
      }
      IsHandled(w, history, |old(history)| - 1, reported, FailNode(n));
    }

    /** The conditional write of a job's report. */
    method Report(step: Step) returns (claimed: bool)
      requires Valid() && (step.CompleteNode? || step.FailNode?)
      modifies this
      ensures Valid() && old(history) < history && |history| >= 2
      ensures claimed == Guard(history[|history| - 2], step)
      ensures run == Write(history[|history| - 2], history[|history| - 2], step)
      ensures MovesLeft(run) <= old(MovesLeft(run)) && (claimed ==> MovesLeft(run) < old(MovesLeft(run)))
      ensures old(Quiet()) ==>
        Quiet() && history[|history| - 2] == old(run) && RunningCount(run) <= old(RunningCount(run))
    {
      claimed := UpdateOne(|history| - 1, step);
      RunningShrinks(history[|history| - 2], run);
    }

    /** After a success: the run is completed, or there is another pass. */
    method Advance()
      requires Valid()
      modifies this
      ensures Valid() && old(history) <= history
      ensures MovesLeft(run) <= old(MovesLeft(run))
      ensures FollowedUp(w, history, |old(history)| - 1)
      ensures old(Quiet()) ==> Quiet()
      ensures old(Quiet()) && old(run.status) == RunRunning ==>
        run == if AllFine(old(run.nodes)) then Released(Write(old(run), old(run), FinishCompleted))
               else Pass(w, queueAccepts, old(run))
      ensures old(Quiet()) && Acyclic(Dependencies(w)) ==> Alive(run)
      ensures old(Quiet()) && SlotsAreSafe() && old(RunningCount(run)) <= Parallelism(w)
        ==> RunningCount(run) <= Parallelism(w)
      decreases MovesLeft(run), 5
    {
      var at := Read();
      if AllFine(history[at].nodes) {
        var finalized := UpdateOne(at, FinishCompleted);
        if finalized {
          ReleaseRun(at);
          assert PassFinished(w, history, |history| - 1);
          return;
        }
      }
      ScheduleReadyNodes();
    }

    /** With the fail-fast strategy the first failure ends the run. */
    method FailRun(n: string)
      requires Valid() && w.failureStrategy == FailFast
      requires n in run.nodes && run.nodes[n].status == Failed
      modifies this
      ensures Valid() && old(history) <= history
      ensures MovesLeft(run) <= old(MovesLeft(run))
      ensures FollowedUp(w, history, |old(history)| - 1)
      ensures old(Quiet()) ==> Quiet() && run.status != RunRunning && run.nodes == old(run.nodes)
      ensures old(Quiet()) && old(run.status) == RunRunning ==>
        run == Released(Write(old(run), old(run), FinishFailFast))
    {
      ghost var failedAt := |history| - 1;
      var _ := Read();
      var at := Read();
      FailureStays(w, targets, history, failedAt, at, n);
      var finalized := UpdateOne(at, FinishFailFast);
      ghost var issued := history;
      if finalized { ReleaseRun(at); }
      IssuedStays(w, issued, history, at, FinishFailFast);
    }

    lemma RunningShrinks(a: Run, b: Run)
      requires forall n :: n in b.nodes && b.nodes[n].status == Running ==> n in a.nodes && a.nodes[n].status == Running
      ensures RunningCount(b) <= RunningCount(a)
    {
      SubsetIsNoLarger(NodesWith(b.nodes, Running), NodesWith(a.nodes, Running));
    }

    /** Cancels an active run; false is the conflict answer for a run that is no longer active. */
    method Cancel() returns (cancelled: bool)
      requires Valid()
      modifies this
      ensures Valid() && old(history) <= history
      ensures cancelled ==> run.status == RunCancelled && AllTerminal(run.nodes)
      ensures !cancelled ==> run.status != RunRunning
    {
      cancelled := UpdateOne(|history| - 1, CancelRun);
      if cancelled {
        ReleaseRun(0);
        HistoriesAreSafe(w, targets, history, 0, |history| - 1);
      }
    }
  }

  /** Runs a workflow to its end, whichever running job reports next and whatever it reports. Every report moves a
      node on, so there are at most twice as many reports as nodes. */
  method RunToEnd(w: Workflow, targets: set<string>, leased: bool, queueAccepts: Job -> bool,
      report: nat -> Option<Option<string>>)
    returns (execution: WorkflowExecution, reports: nat)
    requires Acyclic(Dependencies(w))
    ensures execution.Valid() && execution.w == w && execution.targets == targets
    ensures execution.run.status != RunRunning
    ensures reports <= 2 * |NodeIds(w.nodes)|
  {
    execution := new WorkflowExecution(w, targets, leased, queueAccepts, []);
    TransitionsAreBounded(w, targets, execution.history, 0);
    reports := 0;
    execution.ScheduleReadyNodes();
    while execution.run.status == RunRunning
      invariant execution.Valid() && execution.Quiet() && Alive(execution.run)
      invariant reports + MovesLeft(execution.run) <= 2 * |NodeIds(w.nodes)|
      decreases MovesLeft(execution.run)
    {
      var n :| n in execution.run.nodes && execution.run.nodes[n].status == Running;
      match report(reports) {
        case Some(branch) => execution.OnNodeComplete(n, branch);
        case None => execution.OnNodeFailed(n);
      }
      reports := reports + 1;
    }
  }
}
