/** Walks, cycles and chain lengths in a finite directed graph whose vertices are ids. */
module Digraph {
  import opened FiniteSets

  type Edges = set<(string, string)>

  ghost predicate IsWalk(edges: Edges, p: seq<string>) {
    && |p| > 0
    && forall i :: 0 <= i < |p| - 1 ==> (p[i], p[i + 1]) in edges
  }

  /** A closed walk needs at least one edge; a self-loop is one. */
  ghost predicate IsClosedWalk(edges: Edges, p: seq<string>) {
    IsWalk(edges, p) && |p| >= 2 && p[0] == p[|p| - 1]
  }

  ghost predicate Acyclic(edges: Edges) {
    forall p :: !IsClosedWalk(edges, p)
  }

  ghost predicate Within(edges: Edges, vertices: set<string>) {
    forall e :: e in edges ==> e.0 in vertices && e.1 in vertices
  }

  ghost predicate IsWalkOf(edges: Edges, v: string, k: nat, p: seq<string>) {
    IsWalk(edges, p) && |p| == k + 1 && p[k] == v
  }

  /** Some chain of exactly k edges ends in v. */
  ghost predicate ChainInto(edges: Edges, v: string, k: nat) {
    exists p :: IsWalkOf(edges, v, k, p)
  }

  /** The longest chain of dependencies into v has k edges. */
  ghost predicate LongestChain(edges: Edges, v: string, k: nat) {
    ChainInto(edges, v, k) && !ChainInto(edges, v, k + 1)
  }

  lemma ChainZero(edges: Edges, v: string)
    ensures ChainInto(edges, v, 0)
  {
    assert IsWalkOf(edges, v, 0, [v]);
  }

  lemma ChainExtend(edges: Edges, u: string, v: string, k: nat)
    requires (u, v) in edges && ChainInto(edges, u, k)
    ensures ChainInto(edges, v, k + 1)
  {
    var p :| IsWalkOf(edges, u, k, p);
    assert IsWalkOf(edges, v, k + 1, p + [v]);
  }

  lemma ChainSplit(edges: Edges, v: string, k: nat) returns (u: string)
    requires ChainInto(edges, v, k + 1)
    ensures (u, v) in edges && ChainInto(edges, u, k)
  {
    var p :| IsWalkOf(edges, v, k + 1, p);
    u := p[k];
    assert IsWalkOf(edges, u, k, p[..k + 1]);
  }

  /** Dropping the first vertex shortens a chain, so the chain lengths into v are downward closed. */
  lemma {:induction false} ChainShorter(edges: Edges, v: string, k: nat, j: nat)
    requires ChainInto(edges, v, k) && j <= k
    ensures ChainInto(edges, v, j)
  {
    var p :| IsWalkOf(edges, v, k, p);
    assert IsWalkOf(edges, v, j, p[k - j..]);
  }

  /** Every vertex of a closed walk ends chains of every length. */
  lemma {:induction false} CycleHasLongChains(edges: Edges, p: seq<string>, i: nat, k: nat)
    requires IsClosedWalk(edges, p) && i < |p|
    ensures ChainInto(edges, p[i], k)
    decreases k
  {
    if k == 0 {
      ChainZero(edges, p[i]);
    } else {
      var j := if i == 0 then |p| - 2 else i - 1;
      CycleHasLongChains(edges, p, j, k - 1);
      ChainExtend(edges, p[j], p[i], k - 1);
    }
  }

  /** A sequence longer than the set it draws from repeats an element. */
  lemma {:induction false} Pigeonhole(s: seq<string>, universe: set<string>)
    requires forall x :: x in s ==> x in universe
    requires |s| > |universe|
    ensures exists i, j :: 0 <= i < j < |s| && s[i] == s[j]
  {
    var last := s[|s| - 1];
    var front := s[..|s| - 1];
    if last in front {
      var i :| 0 <= i < |front| && front[i] == last;
      assert s[i] == s[|s| - 1];
    } else {
      forall x | x in front ensures x in universe - {last} {}
      Pigeonhole(front, universe - {last});
      var i, j :| 0 <= i < j < |front| && front[i] == front[j];
      assert s[i] == s[j];
    }
  }

  /** In an acyclic graph no chain is as long as the number of vertices. */
  lemma AcyclicBoundsChains(edges: Edges, vertices: set<string>, v: string, k: nat)
    requires Within(edges, vertices) && v in vertices && Acyclic(edges)
    requires k >= |vertices|
    ensures !ChainInto(edges, v, k)
  {
    if ChainInto(edges, v, k) {
      var p :| IsWalkOf(edges, v, k, p);
      forall i | 0 <= i < |p| ensures p[i] in vertices {
        if i < |p| - 1 { assert (p[i], p[i + 1]) in edges; }
      }
      Pigeonhole(p, vertices);
      var i, j :| 0 <= i < j < |p| && p[i] == p[j];
      assert IsClosedWalk(edges, p[i..j + 1]);
    }
  }

  /** The number of edges of the longest chain into v, looked for from the bound downwards. */
  ghost function Height(edges: Edges, v: string, bound: nat): (k: nat)
    requires !ChainInto(edges, v, bound + 1)
    ensures LongestChain(edges, v, k)
    decreases bound
  {
    ChainZero(edges, v);
    if bound == 0 || ChainInto(edges, v, bound) then bound else Height(edges, v, bound - 1)
  }

  lemma LongestChainUnique(edges: Edges, v: string, j: nat, k: nat)
    requires LongestChain(edges, v, j) && LongestChain(edges, v, k)
    ensures j == k
  {
    if j < k { ChainShorter(edges, v, k, j + 1); }
    if k < j { ChainShorter(edges, v, j, k + 1); }
  }

  /** A graph without cycles has a least element in every non-empty set of its vertices. */
  lemma {:induction false} LeastElement(edges: Edges, vertices: set<string>, some: set<string>) returns (v: string)
    requires Within(edges, vertices) && Acyclic(edges)
    requires some <= vertices && some != {}
    ensures v in some
    ensures forall u :: (u, v) in edges ==> u !in some
    decreases |some|
  {
    v :| v in some;
    if u :| (u, v) in edges && u in some {
      // Everything that reaches v strictly, within the set, is smaller than the set itself.
      var below := set x | x in some && Reaches(edges, x, v);
      assert IsWalk(edges, [u, v]);
      assert Reaches(edges, u, v) by { assert IsWalkBetween(edges, u, v, [u, v]); }
      if v in below {
        var p :| IsWalkBetween(edges, v, v, p);
        assert IsClosedWalk(edges, p);
      }
      assert u in below && below < some;
      ProperSubsetIsSmaller(below, some);
      var w := LeastElement(edges, vertices, below);
      forall x | (x, w) in edges ensures x !in some {
        if x in some {
          var p :| IsWalkBetween(edges, w, v, p);
          assert IsWalkBetween(edges, x, v, [x] + p);
        }
      }
      v := w;
    }
  }

  ghost predicate IsWalkBetween(edges: Edges, u: string, v: string, p: seq<string>) {
    IsWalk(edges, p) && |p| >= 2 && p[0] == u && p[|p| - 1] == v
  }

  /** v can be reached from u along at least one edge. */
  ghost predicate Reaches(edges: Edges, u: string, v: string) {
    exists p :: IsWalkBetween(edges, u, v, p)
  }

  /** A list that puts the targets of every edge before its source rules out cycles. */
  lemma {:induction false} FinishOrderRulesOutCycles(edges: Edges, finished: seq<string>)
    requires forall e :: e in edges ==> e.0 in finished
    requires forall i, j :: 0 <= i < j < |finished| ==> finished[i] != finished[j]
    requires forall i, e :: 0 <= i < |finished| && e in edges && e.0 == finished[i] ==> e.1 in finished[..i]
    ensures Acyclic(edges)
  {
    forall p ensures !IsClosedWalk(edges, p) {
      if IsClosedWalk(edges, p) {
        assert (p[0], p[1]) in edges;
        var i :| 0 <= i < |finished| && finished[i] == p[0];
        WalkGoesBack(edges, finished, p, i, |p| - 1);
      }
    }
  }

  lemma {:induction false} WalkGoesBack(edges: Edges, finished: seq<string>, p: seq<string>, i: nat, k: nat)
    requires forall i, j :: 0 <= i < j < |finished| ==> finished[i] != finished[j]
    requires forall i, e :: 0 <= i < |finished| && e in edges && e.0 == finished[i] ==> e.1 in finished[..i]
    requires IsWalk(edges, p) && i < |finished| && finished[i] == p[0] && 1 <= k < |p|
    ensures p[k] in finished[..i]
    decreases k
  {
    if k == 1 {
      assert (p[0], p[1]) in edges;
    } else {
      WalkGoesBack(edges, finished, p, i, k - 1);
      var j :| 0 <= j < i && finished[j] == p[k - 1];
      assert (p[k - 1], p[k]) in edges;
      assert p[k] in finished[..j];
    }
  }
}
