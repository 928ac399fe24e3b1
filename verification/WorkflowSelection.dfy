/** Which nodes a run selects and a retry reopens: closures over the edges of the definition. */
module WorkflowSelection {
  import opened Options
  import opened FiniteSets
  import opened Digraph
  import opened ExecutionGraph

  /** All edges, also those with an unknown end. */
  ghost function AllPairs(edges: seq<WorkflowEdge>): Edges {
    set e | e in edges :: (e.source, e.target)
  }

  ghost function Endpoints(edges: seq<WorkflowEdge>): set<string> {
    (set e | e in edges :: e.source) + (set e | e in edges :: e.target)
  }

  /** v is one of the given nodes or has a path to one of them. */
  ghost predicate LeadsInto(edges: Edges, v: string, goals: set<string>) {
    v in goals || exists g :: g in goals && Reaches(edges, v, g)
  }

  /** v is one of the given nodes or can be reached from one of them. */
  ghost predicate LedToBy(edges: Edges, v: string, starts: set<string>) {
    v in starts || exists s :: s in starts && Reaches(edges, s, v)
  }

  lemma StepBack(edges: Edges, u: string, v: string, goals: set<string>)
    requires (u, v) in edges && LeadsInto(edges, v, goals)
    ensures LeadsInto(edges, u, goals)
  {
    if v in goals {
      assert IsWalkBetween(edges, u, v, [u, v]);
    } else {
      var g :| g in goals && Reaches(edges, v, g);
      var p :| IsWalkBetween(edges, v, g, p);
      assert IsWalkBetween(edges, u, g, [u] + p);
    }
  }

  lemma StepOn(edges: Edges, u: string, v: string, starts: set<string>)
    requires (u, v) in edges && LedToBy(edges, u, starts)
    ensures LedToBy(edges, v, starts)
  {
    if u in starts {
      assert IsWalkBetween(edges, u, v, [u, v]);
    } else {
      var s :| s in starts && Reaches(edges, s, u);
      var p :| IsWalkBetween(edges, s, u, p);
      assert IsWalkBetween(edges, s, v, p + [v]);
    }
  }

  lemma {:induction false} ClosedBackwards(edges: Edges, selected: set<string>, p: seq<string>)
    requires IsWalk(edges, p) && p[|p| - 1] in selected
    requires forall e :: e in edges && e.1 in selected ==> e.0 in selected
    ensures p[0] in selected
    decreases |p|
  {
    if |p| > 1 {
      assert (p[|p| - 2], p[|p| - 1]) in edges;
      ClosedBackwards(edges, selected, p[..|p| - 1]);
    }
  }

  lemma {:induction false} ClosedForwards(edges: Edges, selected: set<string>, p: seq<string>)
    requires IsWalk(edges, p) && p[0] in selected
    requires forall e :: e in edges && e.0 in selected ==> e.1 in selected
    ensures p[|p| - 1] in selected
    decreases |p|
  {
    if |p| > 1 {
      assert (p[0], p[1]) in edges;
      ClosedForwards(edges, selected, p[1..]);
    }
  }

  /** The requested nodes and everything they depend on; None when a requested node does not exist. */
  method ResolveTargetNodeIds(w: Workflow, requested: seq<string>) returns (r: Option<set<string>>)
    ensures r.None? <==> exists id :: id in requested && id !in NodeIds(w.nodes)
    ensures r.Some? && requested == [] ==> r.value == NodeIds(w.nodes)
    ensures r.Some? && requested != [] ==>
      forall v :: v in r.value <==> LeadsInto(AllPairs(w.edges), v, SetOf(requested))
  {
    var knownIds := set d | d in w.nodes :: d.id;
    if requested == [] { return Some(knownIds); }
    for i := 0 to |requested|
      invariant forall id :: id in requested[..i] ==> id in knownIds
    {
      assert requested[i] in requested;
      if requested[i] !in knownIds { return None; }
      assert requested[..i + 1] == requested[..i] + [requested[i]];
    }
    assert requested[..|requested|] == requested;
    var selected := set id | id in requested;
    ghost var universe := selected + Endpoints(w.edges);
    var changed := true;
    while changed
      invariant SetOf(requested) <= selected <= universe
      invariant forall v :: v in selected ==> LeadsInto(AllPairs(w.edges), v, SetOf(requested))
      invariant !changed ==> forall e :: e in w.edges && e.target in selected ==> e.source in selected
      decreases |universe - selected|, changed
    {
      selected, changed := AddSources(w.edges, selected, universe, SetOf(requested));
    }
    forall v | LeadsInto(AllPairs(w.edges), v, SetOf(requested)) ensures v in selected {
      if v !in SetOf(requested) {
        var g :| g in SetOf(requested) && Reaches(AllPairs(w.edges), v, g);
        var p :| IsWalkBetween(AllPairs(w.edges), v, g, p);
        ClosedBackwards(AllPairs(w.edges), selected, p);
      }
    }
    r := Some(selected);
  }

  method AddSources(edges: seq<WorkflowEdge>, selected0: set<string>, ghost universe: set<string>,
      ghost goals: set<string>) returns (selected: set<string>, changed: bool)
    requires selected0 <= universe && Endpoints(edges) <= universe
    requires forall v :: v in selected0 ==> LeadsInto(AllPairs(edges), v, goals)
    ensures selected0 <= selected <= universe
    ensures forall v :: v in selected ==> LeadsInto(AllPairs(edges), v, goals)
    ensures changed ==> |universe - selected| < |universe - selected0|
    ensures !changed ==> selected == selected0
    ensures !changed ==> forall e :: e in edges && e.target in selected ==> e.source in selected
  {
    selected, changed := selected0, false;
    for i := 0 to |edges|
      invariant selected0 <= selected <= universe
      invariant forall v :: v in selected ==> LeadsInto(AllPairs(edges), v, goals)
      invariant changed ==> selected0 < selected
      invariant !changed ==> selected == selected0
      invariant !changed ==> forall e :: e in edges[..i] && e.target in selected ==> e.source in selected
    {
      var edge := edges[i];
      assert edges[..i + 1] == edges[..i] + [edge];
      if edge.target in selected && edge.source !in selected {
        StepBack(AllPairs(edges), edge.source, edge.target, goals);
        assert edge.source in Endpoints(edges);
        selected, changed := selected + {edge.source}, true;
      }
    }
    assert edges[..|edges|] == edges;
    if changed { ProperSubsetIsSmaller(universe - selected, universe - selected0); }
  }

  /** The retried nodes and everything downstream of them. */
  method DownstreamIds(w: Workflow, retried: set<string>) returns (downstream: set<string>)
    ensures forall v :: v in downstream <==> LedToBy(AllPairs(w.edges), v, retried)
  {
    downstream := retried;
    ghost var universe := retried + Endpoints(w.edges);
    var addedDownstream := true;
    while addedDownstream
      invariant retried <= downstream <= universe
      invariant forall v :: v in downstream ==> LedToBy(AllPairs(w.edges), v, retried)
      invariant !addedDownstream ==> forall e :: e in w.edges && e.source in downstream ==> e.target in downstream
      decreases |universe - downstream|, addedDownstream
    {
      downstream, addedDownstream := AddTargets(w.edges, downstream, universe, retried);
    }
    forall v | LedToBy(AllPairs(w.edges), v, retried) ensures v in downstream {
      if v !in retried {
        var s :| s in retried && Reaches(AllPairs(w.edges), s, v);
        var p :| IsWalkBetween(AllPairs(w.edges), s, v, p);
        ClosedForwards(AllPairs(w.edges), downstream, p);
      }
    }
  }

  method AddTargets(edges: seq<WorkflowEdge>, downstream0: set<string>, ghost universe: set<string>,
      ghost starts: set<string>) returns (downstream: set<string>, added: bool)
    requires downstream0 <= universe && Endpoints(edges) <= universe
    requires forall v :: v in downstream0 ==> LedToBy(AllPairs(edges), v, starts)
    ensures downstream0 <= downstream <= universe
    ensures forall v :: v in downstream ==> LedToBy(AllPairs(edges), v, starts)
    ensures added ==> |universe - downstream| < |universe - downstream0|
    ensures !added ==> downstream == downstream0
    ensures !added ==> forall e :: e in edges && e.source in downstream ==> e.target in downstream
  {
    downstream, added := downstream0, false;
    for i := 0 to |edges|
      invariant downstream0 <= downstream <= universe
      invariant forall v :: v in downstream ==> LedToBy(AllPairs(edges), v, starts)
      invariant added ==> downstream0 < downstream
      invariant !added ==> downstream == downstream0
      invariant !added ==> forall e :: e in edges[..i] && e.source in downstream ==> e.target in downstream
    {
      var edge := edges[i];
      assert edges[..i + 1] == edges[..i] + [edge];
      if edge.source in downstream && edge.target !in downstream {
        StepOn(AllPairs(edges), edge.source, edge.target, starts);
        assert edge.target in Endpoints(edges);
        downstream, added := downstream + {edge.target}, true;
      }
    }
    assert edges[..|edges|] == edges;
    if added { ProperSubsetIsSmaller(universe - downstream, universe - downstream0); }
  }
}
