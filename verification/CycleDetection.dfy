/** Three-colour depth-first search for a cycle in an execution graph, and workflow validation. */
module CycleDetection {
  import opened Options
  import opened Digraph
  import opened ExecutionGraph

  datatype Color = White | Gray | Black

  type Colors = map<string, Color>
  type Parents = map<string, Option<string>>

  ghost predicate OnPath(stack: seq<string>, edges: Edges, parent: Parents) {
    && Distinct(stack)
    && (forall i :: 0 <= i < |stack| - 1 ==> (stack[i], stack[i + 1]) in edges)
    && (forall i :: 0 <= i < |stack| ==> LinkedAt(stack, parent, i))
  }

  /** The parent of the node at position i of the path is the node before it. */
  ghost predicate LinkedAt(stack: seq<string>, parent: Parents, i: nat)
    requires i < |stack|
  {
    ParentIs(parent, stack[i], Last(stack[..i]))
  }

  predicate ParentIs(parent: Parents, v: string, p: Option<string>) {
    v in parent && parent[v] == p
  }

  ghost function Last(stack: seq<string>): Option<string> {
    if stack == [] then None else Some(stack[|stack| - 1])
  }

  /** Finished nodes are listed after everything they lead to. */
  ghost predicate FinishOrder(finished: seq<string>, edges: Edges) {
    && Distinct(finished)
    && (forall i, e :: 0 <= i < |finished| && e in edges && e.0 == finished[i] ==> e.1 in finished[..i])
  }

  /** Gray nodes are the current search path; black nodes are finished. */
  ghost predicate Painted(color: Colors, stack: seq<string>, finished: seq<string>) {
    && (forall v :: v in stack <==> v in color && color[v] == Gray)
    && (forall v :: v in finished <==> v in color && color[v] == Black)
  }

  ghost predicate Searching(color: Colors, parent: Parents, edges: Edges, stack: seq<string>, finished: seq<string>) {
    OnPath(stack, edges, parent) && FinishOrder(finished, edges) && Painted(color, stack, finished)
  }

  ghost function Unvisited(color: Colors): set<string> {
    set v | v in color && color[v] == White
  }

  /** The report r comes from the search path and the edge from its end back to path[d]. The walk along the parents
      goes back to position m: to the start of the cycle, or up to a node whose parent is the empty id or missing. */
  ghost predicate ReportsBackEdge(edges: Edges, path: seq<string>, d: nat, m: nat, r: seq<string>) {
    && d < |path| && m < |path|
    && Distinct(path) && IsWalk(edges, path) && (path[|path| - 1], path[d]) in edges
    && r == path[m..] + [path[d]]
    && "" !in path[m..|path| - 1]
    && (if d == |path| - 1 then m == 0 || path[m - 1] == "" else d <= m && (m == d || path[m - 1] == ""))
    && (ClosesUp(r) <==> d == |path| - 1 || "" !in path[d..|path| - 1])
  }

  /** The report: a walk along the edges that ends in the back edge of a search path which begins with `start`. If
      no node has the empty string as its id, it closes up. */
  ghost predicate IsReport(edges: Edges, vertices: set<string>, start: seq<string>, r: seq<string>) {
    && |r| >= 2
    && IsWalk(edges, r)
    && !Acyclic(edges)
    && ("" !in vertices ==> ClosesUp(r))
    && exists path, d: nat, m: nat :: start <= path && ReportsBackEdge(edges, path, d, m, r)
  }

  /** Closed, or ending in the self-loop that was found. */
  ghost predicate ClosesUp(r: seq<string>) {
    |r| >= 2 && (r[0] == r[|r| - 1] || r[|r| - 2] == r[|r| - 1])
  }

  lemma StartsEarlier(edges: Edges, vertices: set<string>, start: seq<string>, later: seq<string>, r: seq<string>)
    requires start <= later && IsReport(edges, vertices, later, r)
    ensures IsReport(edges, vertices, start, r)
  {
    var path, d: nat, m: nat :| later <= path && ReportsBackEdge(edges, path, d, m, r);
    assert start <= path;
  }

  lemma Enter(color: Colors, parent: Parents, edges: Edges, stack: seq<string>, finished: seq<string>, n: string)
    requires Searching(color, parent, edges, stack, finished)
    requires n in color && color[n] == White
    requires ParentIs(parent, n, Last(stack))
    requires stack != [] ==> (stack[|stack| - 1], n) in edges
    ensures Searching(color[n := Gray], parent, edges, stack + [n], finished)
    ensures Unvisited(color[n := Gray]) < Unvisited(color)
  {
    assert n !in stack;
    var longer := stack + [n];
    forall i | 0 <= i < |longer| ensures LinkedAt(longer, parent, i) {
      assert longer[..i] == stack[..i];
      if i < |stack| { assert LinkedAt(stack, parent, i); }
    }
    assert n in Unvisited(color);
  }

  lemma Leave(color: Colors, parent: Parents, edges: Edges, stack: seq<string>, finished: seq<string>, n: string)
    requires Searching(color, parent, edges, stack + [n], finished)
    requires forall v :: (n, v) in edges ==> v in finished
    ensures Searching(color[n := Black], parent, edges, stack, finished + [n])
  {
    assert (stack + [n])[|stack|] == n;
    assert n in color && color[n] == Gray;
    assert n !in finished;
    PathPrefix(stack, edges, parent, n);
    FinishOne(finished, edges, n);
    forall v ensures v in stack <==> v in color[n := Black] && color[n := Black][v] == Gray {
      assert v in stack + [n] <==> v in stack || v == n;
    }
  }

  lemma PathPrefix(stack: seq<string>, edges: Edges, parent: Parents, n: string)
    requires OnPath(stack + [n], edges, parent)
    ensures OnPath(stack, edges, parent) && n !in stack
  {
    var longer := stack + [n];
    forall i | 0 <= i < |stack| ensures stack[i] == longer[i] && stack[i] != n {
      assert longer[|stack|] == n;
    }
    forall i | 0 <= i < |stack| - 1 ensures (stack[i], stack[i + 1]) in edges {
      assert (longer[i], longer[i + 1]) in edges;
    }
    forall i | 0 <= i < |stack| ensures LinkedAt(stack, parent, i) {
      assert LinkedAt(longer, parent, i);
      assert longer[..i] == stack[..i];
    }
  }

  lemma FinishOne(finished: seq<string>, edges: Edges, n: string)
    requires FinishOrder(finished, edges) && n !in finished
    requires forall v :: (n, v) in edges ==> v in finished
    ensures FinishOrder(finished + [n], edges)
  {
    var longer := finished + [n];
    forall i, e | 0 <= i < |longer| && e in edges && e.0 == longer[i] ensures e.1 in longer[..i] {
      if i == |finished| {
        assert (n, e.1) in edges;
        assert longer[..i] == finished;
      } else {
        assert longer[..i] == finished[..i];
      }
    }
  }

  lemma SetParent(color: Colors, parent: Parents, edges: Edges, stack: seq<string>, finished: seq<string>,
      n: string, p: Option<string>)
    requires Searching(color, parent, edges, stack, finished)
    requires n in color && color[n] == White
    ensures Searching(color, parent[n := p], edges, stack, finished)
  {
    assert n !in stack;
    var linked := parent[n := p];
    forall i | 0 <= i < |stack| ensures LinkedAt(stack, linked, i) {
      assert LinkedAt(stack, parent, i) && stack[i] in stack;
    }
  }

  lemma BackEdgeClosesACycle(edges: Edges, stack: seq<string>, d: nat)
    requires d < |stack|
    requires forall i :: 0 <= i < |stack| - 1 ==> (stack[i], stack[i + 1]) in edges
    requires (stack[|stack| - 1], stack[d]) in edges
    ensures !Acyclic(edges)
  {
    assert IsClosedWalk(edges, stack[d..] + [stack[d]]);
  }

  lemma ReportIsRight(edges: Edges, vertices: set<string>, stack: seq<string>, d: nat, m: nat)
    requires Distinct(stack) && m < |stack| && d < |stack|
    requires IsWalk(edges, stack) && (stack[|stack| - 1], stack[d]) in edges
    requires forall v :: v in stack ==> v in vertices
    requires "" !in stack[m..|stack| - 1]
    requires if d == |stack| - 1 then m == 0 || stack[m - 1] == "" else d <= m && (m == d || stack[m - 1] == "")
    ensures ReportsBackEdge(edges, stack, d, m, stack[m..] + [stack[d]])
    ensures IsReport(edges, vertices, stack, stack[m..] + [stack[d]])
  {
    var r := stack[m..] + [stack[d]];
    BackEdgeClosesACycle(edges, stack, d);
    if m > 0 { assert stack[m - 1] in stack; }
    assert stack <= stack && ReportsBackEdge(edges, stack, d, m, r);
  }

  /** What a finished node leads to is finished. */
  lemma FinishedIsClosed(edges: Edges, finished: seq<string>, u: string, v: string)
    requires FinishOrder(finished, edges) && u in finished && Reaches(edges, u, v)
    ensures v in finished
  {
    var p :| IsWalkBetween(edges, u, v, p);
    WalkStaysFinished(edges, finished, p, |p| - 1);
  }

  lemma {:induction false} WalkStaysFinished(edges: Edges, finished: seq<string>, p: seq<string>, k: nat)
    requires FinishOrder(finished, edges) && IsWalk(edges, p) && k < |p| && p[0] in finished
    ensures p[k] in finished
    decreases k
  {
    if k == 0 {
    } else {
      WalkStaysFinished(edges, finished, p, k - 1);
      var i :| 0 <= i < |finished| && finished[i] == p[k - 1];
      assert (p[k - 1], p[k]) in edges;
      assert p[k] in finished[..i];
    }
  }

  lemma NotLedTo(edges: Edges, finished: seq<string>, earlier: seq<string>, v: string)
    requires FinishOrder(finished, edges) && v !in finished && forall u :: u in earlier ==> u in finished
    ensures forall u :: u in earlier ==> !Reaches(edges, u, v)
  {
    forall u | u in earlier ensures !Reaches(edges, u, v) {
      if Reaches(edges, u, v) { FinishedIsClosed(edges, finished, u, v); }
    }
  }

  /** The lists of dependents hold exactly the edges. */
  ghost predicate LeadsTo(nodes: map<string, GraphNode>, edges: Edges) {
    && (forall u, v :: u in nodes && v in nodes[u].dependents ==> (u, v) in edges)
    && (forall u, v :: (u, v) in edges ==> u in nodes && v in nodes && v in nodes[u].dependents)
  }

  lemma OneStepBack(stack: seq<string>, m: nat)
    requires 0 < m < |stack|
    ensures stack[m - 1..] == [stack[m - 1]] + stack[m..]
    ensures stack[m - 1..|stack| - 1] == [stack[m - 1]] + stack[m..|stack| - 1]
  {
  }

  class CycleDetector {
    const g: Graph
    var color: Colors
    var parent: Parents
    ghost var finished: seq<string>

    constructor (g: Graph)
      ensures this.g == g
      ensures color == map v | v in g.nodes :: White
      ensures parent == map[] && finished == []
    {
      this.g := g;
      color := map v | v in g.nodes :: White;
      parent, finished := map[], [];
    }

    ghost predicate Valid(edges: Edges, stack: seq<string>)
      reads this
    {
      color.Keys == g.nodes.Keys && Searching(color, parent, edges, stack, finished)
    }

    /** Follows the parent links from the end of the search path back to the gray node it points to. The walk
        stops early at a node whose id is the empty string, so the report closes up exactly when no such node
        lies on the cycle before its last node, or the cycle is a self-loop. It ends in the edge that was found. */
    method BuildCycle(dependentId: string, nodeId: string, ghost edges: Edges, ghost vertices: set<string>,
        ghost stack: seq<string>, ghost d: nat) returns (cycle: seq<string>)
      requires OnPath(stack, edges, parent)
      requires stack != [] && nodeId == stack[|stack| - 1]
      requires d < |stack| && dependentId == stack[d] && (nodeId, dependentId) in edges
      requires forall v :: v in stack ==> v in vertices
      ensures IsReport(edges, vertices, stack, cycle)
      ensures cycle[|cycle| - 2] == nodeId && cycle[|cycle| - 1] == dependentId
      ensures ClosesUp(cycle) <==> d == |stack| - 1 || "" !in stack[d..|stack| - 1]
    {
      cycle := [nodeId, dependentId];
      var current := nodeId;
      ghost var m := |stack| - 1;
      var closed := false;
      while !closed && Truthy(parent, current)
        invariant 0 <= m < |stack| && current == stack[m]
        invariant cycle == stack[m..] + [dependentId]
        invariant closed ==> m == d && d < |stack| - 1
        invariant !closed && d < |stack| - 1 ==> d < m
        invariant "" !in stack[m..|stack| - 1]
        decreases m, !closed
      {
        assert LinkedAt(stack, parent, m);
        var p := parent[current].value;
        assert m > 0 && p == stack[m - 1];
        OneStepBack(stack, m);
        cycle := [p] + cycle;
        m := m - 1;
        current := p;
        if p == dependentId { closed := true; }
      }
      assert LinkedAt(stack, parent, m);
      ReportIsRight(edges, vertices, stack, d, m);
    }

    /** Visits a white node. Without a report the node ends up black, and so does everything it leads to. */
    method Dfs(nodeId: string, ghost vertices: set<string>, ghost edges: Edges, ghost stack: seq<string>)
      returns (report: Option<seq<string>>)
      requires LeadsTo(g.nodes, edges) && vertices == g.nodes.Keys
      requires Valid(edges, stack)
      requires nodeId in color && color[nodeId] == White
      requires ParentIs(parent, nodeId, Last(stack))
      requires stack != [] ==> (stack[|stack| - 1], nodeId) in edges
      modifies this
      ensures report.None? ==> Valid(edges, stack) && nodeId in finished
      ensures report.None? ==> forall v :: v in old(finished) ==> v in finished
      ensures report.None? ==> Unvisited(color) <= old(Unvisited(color))
      ensures report.Some? ==> IsReport(edges, vertices, stack + [nodeId], report.value)
      decreases Unvisited(color), 0
    {
      Enter(color, parent, edges, stack, finished, nodeId);
      color := color[nodeId := Gray];
      report := VisitDependents(nodeId, vertices, edges, stack + [nodeId]);
      if report.None? {
        Leave(color, parent, edges, stack, finished, nodeId);
        color := color[nodeId := Black];
        finished := finished + [nodeId];
      }
    }

    method VisitDependents(nodeId: string, ghost vertices: set<string>, ghost edges: Edges, ghost path: seq<string>)
      returns (report: Option<seq<string>>)
      requires LeadsTo(g.nodes, edges) && vertices == g.nodes.Keys
      requires Valid(edges, path)
      requires path != [] && nodeId == path[|path| - 1] && nodeId in g.nodes
      modifies this
      ensures report.None? ==> Valid(edges, path) && forall v :: (nodeId, v) in edges ==> v in finished
      ensures report.None? ==> forall v :: v in old(finished) ==> v in finished
      ensures report.None? ==> Unvisited(color) <= old(Unvisited(color))
      ensures report.Some? ==> IsReport(edges, vertices, path, report.value)
      decreases Unvisited(color), 2
    {
      var dependents := g.nodes[nodeId].dependents;
      for i := 0 to |dependents|
        invariant Valid(edges, path)
        invariant forall v :: v in dependents[..i] ==> v in finished
        invariant forall v :: v in old(finished) ==> v in finished
        invariant Unvisited(color) <= old(Unvisited(color))
      {
        assert dependents[i] in dependents;
        var found := VisitDependent(nodeId, dependents[i], vertices, edges, path);
        if found.Some? { return found; }
        assert dependents[..i + 1] == dependents[..i] + [dependents[i]];
      }
      assert dependents[..|dependents|] == dependents;
      report := None;
    }

    /** A gray dependent closes a cycle, a white one is searched, a black one is done. */
    method VisitDependent(nodeId: string, dependentId: string, ghost vertices: set<string>, ghost edges: Edges,
        ghost path: seq<string>) returns (report: Option<seq<string>>)
      requires LeadsTo(g.nodes, edges) && vertices == g.nodes.Keys
      requires Valid(edges, path)
      requires path != [] && nodeId == path[|path| - 1]
      requires nodeId in g.nodes && dependentId in g.nodes[nodeId].dependents
      modifies this
      ensures report.None? ==> Valid(edges, path) && dependentId in finished
      ensures report.None? ==> forall v :: v in old(finished) ==> v in finished
      ensures report.None? ==> Unvisited(color) <= old(Unvisited(color))
      ensures report.Some? ==> IsReport(edges, vertices, path, report.value)
      decreases Unvisited(color), 1
    {
      report := None;
      if color[dependentId] == Gray {
        ghost var d :| 0 <= d < |path| && path[d] == dependentId;
        var cycle := BuildCycle(dependentId, nodeId, edges, vertices, path, d);
        report := Some(cycle);
      } else if color[dependentId] == White {
        SetParent(color, parent, edges, path, finished, dependentId, Some(nodeId));
        parent := parent[dependentId := Some(nodeId)];
        report := Dfs(dependentId, vertices, edges, path);
        if report.Some? { StartsEarlier(edges, vertices, path, path + [dependentId], report.value); }
      }
    }

    /** Searches from every root that an earlier search has not finished. A report comes from a root that none of
        the roots before it leads to. */
    method SearchRoots(roots: seq<string>, ghost vertices: set<string>, ghost edges: Edges)
      returns (report: Option<seq<string>>, ghost at: nat)
      requires LeadsTo(g.nodes, edges) && vertices == g.nodes.Keys
      requires Valid(edges, [])
      requires forall v :: v in roots ==> v in vertices
      modifies this
      ensures report.None? ==> FinishOrder(finished, edges) && forall v :: v in roots ==> v in finished
      ensures report.Some? ==> at < |roots| && IsReport(edges, vertices, [roots[at]], report.value)
      ensures report.Some? ==> forall v :: v in roots[..at] ==> !Reaches(edges, v, roots[at])
    {
      at := 0;
      for i := 0 to |roots|
        invariant Valid(edges, [])
        invariant forall v :: v in roots[..i] ==> v in finished
      {
        ghost var done := finished;
        var found := SearchRoot(roots[i], vertices, edges);
        if found.Some? {
          NotLedTo(edges, done, roots[..i], roots[i]);
          return found, i;
        }
        assert roots[..i + 1] == roots[..i] + [roots[i]];
      }
      assert roots[..|roots|] == roots;
      report := None;
    }

    method SearchRoot(nodeId: string, ghost vertices: set<string>, ghost edges: Edges)
      returns (report: Option<seq<string>>)
      requires LeadsTo(g.nodes, edges) && vertices == g.nodes.Keys
      requires Valid(edges, [])
      requires nodeId in vertices
      modifies this
      ensures report.None? ==> Valid(edges, []) && nodeId in finished
      ensures report.None? ==> forall v :: v in old(finished) ==> v in finished
      ensures report.Some? ==> IsReport(edges, vertices, [nodeId], report.value) && nodeId !in old(finished)
    {
      report := None;
      if color[nodeId] == White {
        SetParent(color, parent, edges, [], finished, nodeId, None);
        parent := parent[nodeId := None];
        report := Dfs(nodeId, vertices, edges, []);
        assert [] + [nodeId] == [nodeId];
      }
    }
  }

  /** An entry node, or a node that no entry node leads to. */
  ghost predicate IsSearchRoot(g: Graph, edges: Edges, v: string) {
    v in g.entryNodes || forall e :: e in g.entryNodes ==> !Reaches(edges, e, v)
  }

  /** Null exactly when the graph has no directed cycle, self-loops included. A report says which back edge was found
      on which path from a root, and closes up exactly when the empty id does not cut it short. */
  method DetectCycle(g: Graph, ghost vertices: set<string>, ghost edges: Edges) returns (report: Option<seq<string>>)
    requires Represents(g, vertices, edges)
    ensures report.None? <==> Acyclic(edges)
    ensures report.Some? ==>
      exists root :: IsSearchRoot(g, edges, root) && IsReport(edges, vertices, [root], report.value)
  {
    var detector := new CycleDetector(g);
    var others := Excluding(g.order, g.entryNodes);
    var roots := g.entryNodes + others;
    assert LeadsTo(g.nodes, edges);
    ghost var at;
    report, at := detector.SearchRoots(roots, vertices, edges);
    if report.None? {
      forall e | e in edges ensures e.0 in detector.finished {
        assert e.0 in roots;
      }
      FinishOrderRulesOutCycles(edges, detector.finished);
    } else {
      ReportedRoot(g, edges, others, at);
      assert IsSearchRoot(g, edges, roots[at]) && IsReport(edges, vertices, [roots[at]], report.value);
    }
  }

  lemma ReportedRoot(g: Graph, edges: Edges, others: seq<string>, at: nat)
    requires var roots := g.entryNodes + others;
      at < |roots| && forall v :: v in roots[..at] ==> !Reaches(edges, v, roots[at])
    ensures IsSearchRoot(g, edges, (g.entryNodes + others)[at])
  {
    var roots := g.entryNodes + others;
    if at >= |g.entryNodes| {
      forall e | e in g.entryNodes ensures !Reaches(edges, e, roots[at]) {
        var i :| 0 <= i < |g.entryNodes| && g.entryNodes[i] == e;
        assert roots[..at][i] == e;
      }
    }
  }

  // ----- a report that stays open -----

  const OPEN_NODES: seq<string> := ["start", "", "a", "b"]

  const OPEN_EDGES: Edges := {("start", ""), ("", "a"), ("a", "b"), ("b", "")}

  /** The only back edge of the only search path. */
  lemma OnlyPath(path: seq<string>, d: nat)
    requires |path| > 0 && path[0] == "start" && Distinct(path) && IsWalk(OPEN_EDGES, path)
    requires d < |path| && (path[|path| - 1], path[d]) in OPEN_EDGES
    ensures path == OPEN_NODES && d == 1
  {
    if |path| > 1 { assert (path[0], path[1]) in OPEN_EDGES; }
    if |path| > 2 { assert (path[1], path[2]) in OPEN_EDGES; }
    if |path| > 3 { assert (path[2], path[3]) in OPEN_EDGES; }
    if |path| > 3 { AfterB(path); }
  }

  lemma AfterB(path: seq<string>)
    requires |path| > 3 && path[3] == "b" && IsWalk(OPEN_EDGES, path)
    ensures |path| > 4 ==> path[4] == ""
  {
    if |path| > 4 { assert (path[3], path[4]) in OPEN_EDGES; }
  }

  lemma OnlyRoot(g: Graph, root: string, r: seq<string>)
    requires Represents(g, SetOf(OPEN_NODES), OPEN_EDGES) && IsSearchRoot(g, OPEN_EDGES, root)
    requires IsReport(OPEN_EDGES, SetOf(OPEN_NODES), [root], r)
    ensures r == ["a", "b", ""]
  {
    var path, d: nat, m: nat :| [root] <= path && ReportsBackEdge(OPEN_EDGES, path, d, m, r);
    StartIsTheEntry(g);
    OthersAreReached(root, path, d);
    OnlyPath(path, d);
    OnlyCut(m, r);
  }

  lemma EmptyIdIsInside()
    ensures "" in OPEN_NODES[1..3]
  {
    assert OPEN_NODES[1..3][0] == "";
  }

  lemma OnlyCut(m: nat, r: seq<string>)
    requires m < 4 && r == OPEN_NODES[m..] + [""] && "" !in OPEN_NODES[m..3]
    requires 1 <= m && (m == 1 || OPEN_NODES[m - 1] == "")
    ensures r == ["a", "b", ""]
  {
    EmptyIdIsInside();
    assert OPEN_NODES[2..] + [""] == ["a", "b", ""];
  }

  lemma FirstIsMember(s: seq<string>)
    ensures s != [] ==> s[0] in s
  {
  }

  lemma StartIsTheEntry(g: Graph)
    requires Represents(g, SetOf(OPEN_NODES), OPEN_EDGES)
    ensures forall v :: v in g.entryNodes <==> v == "start"
  {
    assert OPEN_NODES[0] in OPEN_NODES && OPEN_NODES[1] in OPEN_NODES;
    assert OPEN_NODES[2] in OPEN_NODES && OPEN_NODES[3] in OPEN_NODES;
    forall v | v in g.entryNodes ensures v == "start" {
      assert v in OPEN_NODES;
      assert "start" !in g.nodes[v].dependencies && "" !in g.nodes[v].dependencies;
      assert "a" !in g.nodes[v].dependencies && "b" !in g.nodes[v].dependencies;
    }
    forall u ensures u !in g.nodes["start"].dependencies {
      assert (u, "start") !in OPEN_EDGES;
    }
    var none := g.nodes["start"].dependencies;
    FirstIsMember(none);
  }

  /** Every node with an edge out of it is the entry or reached from it. */
  lemma OthersAreReached(root: string, path: seq<string>, d: nat)
    requires |path| > 0 && root == path[0] && IsWalk(OPEN_EDGES, path)
    requires d < |path| && (path[|path| - 1], path[d]) in OPEN_EDGES
    requires root == "start" || !Reaches(OPEN_EDGES, "start", root)
    ensures root == "start"
  {
    if |path| > 1 { assert (path[0], path[1]) in OPEN_EDGES; }
    assert IsWalkBetween(OPEN_EDGES, "start", "", ["start", ""]);
    assert IsWalkBetween(OPEN_EDGES, "start", "a", ["start", "", "a"]);
    assert IsWalkBetween(OPEN_EDGES, "start", "b", ["start", "", "a", "b"]);
  }

  lemma OpenEdgesHaveACycle()
    ensures !Acyclic(OPEN_EDGES)
  {
    BackEdgeClosesACycle(OPEN_EDGES, OPEN_NODES, 1);
  }

  /** A definition whose cycle goes through a node with an empty id: its report is cut short. */
  method AnOpenReport() returns (w: Workflow, report: Option<seq<string>>)
    ensures report == Some(["a", "b", ""]) && !ClosesUp(report.value)
    ensures !Acyclic(Dependencies(w)) && Dependencies(w) == OPEN_EDGES
  {
    w := OpenWorkflow();
    var g := Resolve(w);
    report := DetectCycle(g, SetOf(OPEN_NODES), OPEN_EDGES);
    OpenEdgesHaveACycle();
    ghost var root :|
      IsSearchRoot(g, OPEN_EDGES, root) && IsReport(OPEN_EDGES, SetOf(OPEN_NODES), [root], report.value);
    OnlyRoot(g, root, report.value);
  }

  method OpenWorkflow() returns (w: Workflow)
    ensures NodeIds(w.nodes) == SetOf(OPEN_NODES) && Dependencies(w) == OPEN_EDGES
  {
    var start, empty := WorkflowNode("start", "input", false, false, false, false),
      WorkflowNode("", "input", false, false, false, false);
    var a, b := WorkflowNode("a", "input", false, false, false, false),
      WorkflowNode("b", "input", false, false, false, false);
    w := Workflow([start, empty, a, b],
      [WorkflowEdge("1", "start", "", None), WorkflowEdge("2", "", "a", None), WorkflowEdge("3", "a", "b", None),
       WorkflowEdge("4", "b", "", None)], FailFast, 5);
    assert w.nodes[0] in w.nodes && w.nodes[1] in w.nodes && w.nodes[2] in w.nodes && w.nodes[3] in w.nodes;
    assert w.edges[0] in w.edges && w.edges[1] in w.edges && w.edges[2] in w.edges && w.edges[3] in w.edges;
  }

  method Excluding(order: seq<string>, excluded: seq<string>) returns (rest: seq<string>)
    ensures forall v :: v in rest <==> v in order && v !in excluded
  {
    rest := [];
    for i := 0 to |order|
      invariant forall v :: v in rest <==> v in order[..i] && v !in excluded
    {
      if order[i] !in excluded { rest := rest + [order[i]]; }
      assert order[..i + 1] == order[..i] + [order[i]];
    }
    assert order[..|order|] == order;
  }

  // ----- validation -----

  const LOCAL_TYPES: set<string> := {"condition", "loop", "input", "output", "transform"}

  predicate CompleteNode(n: WorkflowNode) {
    && (n.nodeType !in LOCAL_TYPES ==> n.hasModelId)
    && (n.nodeType == "condition" ==> n.hasConditions)
    && (n.nodeType == "loop" ==> n.hasLoopConfig)
    && (n.nodeType == "transform" ==> n.hasExpression)
  }

  /** What a definition needs besides having no cycle. */
  ghost predicate WellFormed(w: Workflow) {
    GoodNodes(w.nodes) && GoodEdges(w.edges, NodeIds(w.nodes))
  }

  /** A definition is accepted exactly when it is well formed and acyclic; an acyclic one comes with its layers. */
  method Validate(w: Workflow) returns (valid: bool, executionOrder: Option<seq<seq<string>>>)
    ensures valid <==> WellFormed(w) && Acyclic(Dependencies(w))
    ensures executionOrder.Some? <==> Acyclic(Dependencies(w))
    ensures executionOrder.Some? ==> forall k :: 0 <= k < |executionOrder.value| ==>
      IsLayer(NodeIds(w.nodes), Dependencies(w), k, executionOrder.value[k])
    ensures executionOrder.Some? ==> forall v :: v in NodeIds(w.nodes) ==>
      exists k :: 0 <= k < |executionOrder.value| && v in executionOrder.value[k]
  {
    var wellFormed := CheckNodesAndEdges(w);
    var g := Resolve(w);
    ghost var vertices, edges := NodeIds(w.nodes), Dependencies(w);
    var cycle := DetectCycle(g, vertices, edges);
    if cycle.Some? {
      return false, None;
    }
    var layers := TopologicalSort(g, vertices, edges);
    return wellFormed, Some(layers);
  }

  /** Unique ids, ends that are nodes, and for each node what its type needs; a type that is not local needs a model. */
  lemma WellFormedWrittenOut(w: Workflow)
    ensures WellFormed(w) <==>
      && (forall i, j :: 0 <= i < j < |w.nodes| ==> w.nodes[i].id != w.nodes[j].id)
      && (forall n :: n in w.nodes ==>
        if n.nodeType == "condition" then n.hasConditions
        else if n.nodeType == "loop" then n.hasLoopConfig
        else if n.nodeType == "transform" then n.hasExpression
        else n.nodeType == "input" || n.nodeType == "output" || n.hasModelId)
      && (forall i, j :: 0 <= i < j < |w.edges| ==> w.edges[i].id != w.edges[j].id)
      && (forall e :: e in w.edges ==>
        e.source in (set n | n in w.nodes :: n.id) && e.target in (set n | n in w.nodes :: n.id))
  {
    forall n | n in w.nodes
      ensures CompleteNode(n) <==>
        if n.nodeType == "condition" then n.hasConditions
        else if n.nodeType == "loop" then n.hasLoopConfig
        else if n.nodeType == "transform" then n.hasExpression
        else n.nodeType == "input" || n.nodeType == "output" || n.hasModelId
    {}
  }

  method CheckNodesAndEdges(w: Workflow) returns (ok: bool)
    ensures ok <==> WellFormed(w)
  {
    var nodesOk, nodeIds := CheckNodes(w.nodes);
    var edgesOk := CheckEdges(w.edges, nodeIds);
    ok := nodesOk && edgesOk;
  }

  ghost predicate GoodNodes(nodes: seq<WorkflowNode>) {
    && (forall n :: n in nodes ==> CompleteNode(n))
    && (forall i, j :: 0 <= i < j < |nodes| ==> nodes[i].id != nodes[j].id)
  }

  ghost predicate GoodEdges(edges: seq<WorkflowEdge>, nodeIds: set<string>) {
    && (forall i, j :: 0 <= i < j < |edges| ==> edges[i].id != edges[j].id)
    && (forall e :: e in edges ==> e.source in nodeIds && e.target in nodeIds)
  }

  method CheckNodes(nodes: seq<WorkflowNode>) returns (ok: bool, nodeIds: set<string>)
    ensures nodeIds == NodeIds(nodes)
    ensures ok <==> GoodNodes(nodes)
  {
    ok, nodeIds := true, {};
    for i := 0 to |nodes|
      invariant nodeIds == NodeIds(nodes[..i])
      invariant ok <==> GoodNodes(nodes[..i])
    {
      var earlier, node := nodes[..i], nodes[i];
      assert nodes[..i + 1] == earlier + [node];
      if node.id in nodeIds {
        assert exists j :: 0 <= j < |earlier| && earlier[j].id == (earlier + [node])[i].id;
      }
      assert node in earlier + [node];
      if node.id in nodeIds || !CompleteNode(node) { ok := false; }
      nodeIds := nodeIds + {node.id};
    }
    assert nodes[..|nodes|] == nodes;
  }

  method CheckEdges(edges: seq<WorkflowEdge>, nodeIds: set<string>) returns (ok: bool)
    ensures ok <==> GoodEdges(edges, nodeIds)
  {
    ok := true;
    var edgeIds: set<string> := {};
    for i := 0 to |edges|
      invariant edgeIds == set e | e in edges[..i] :: e.id
      invariant ok <==> GoodEdges(edges[..i], nodeIds)
    {
      var earlier, edge := edges[..i], edges[i];
      assert edges[..i + 1] == earlier + [edge];
      if edge.id in edgeIds {
        assert exists j :: 0 <= j < |earlier| && earlier[j].id == (earlier + [edge])[i].id;
      }
      assert edge in earlier + [edge];
      if edge.id in edgeIds || edge.source !in nodeIds || edge.target !in nodeIds { ok := false; }
      edgeIds := edgeIds + {edge.id};
    }
    assert edges[..|edges|] == edges;
  }

  /** JavaScript truthiness of `parent.get(v)`: missing, null and the empty string all end the walk. */
  predicate Truthy(parent: Parents, v: string) {
    v in parent && parent[v].Some? && parent[v].value != ""
  }
}
