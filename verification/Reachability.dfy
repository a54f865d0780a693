/** Reachability in a finite directed graph, and the paths that witness it. */
module Reachability {
  type Node = nat

  type Graph = map<Node, iset<Node>>

  /** Every edge ends in a node of the graph. */
  ghost predicate NoDanglingEdge(g: Graph)
  {
    forall n, m {:trigger m in g[n]} :: n in g && m in g[n] ==> m in g
  }

  ghost predicate Closed(g: Graph, s: set<Node>)
  {
    forall n, m {:trigger m in g[n]} :: n in s && n in g && m in g[n] ==> m in s
  }

  /** n lies in every closed set that holds the roots. ReachesIffPath gives the same notion by paths. */
  ghost predicate Reaches(g: Graph, roots: set<Node>, n: Node)
  {
    forall s :: Closed(g, s) && roots <= s ==> n in s
  }

  lemma ReachesEdge(g: Graph, roots: set<Node>, n: Node, m: Node)
    requires Reaches(g, roots, n) && n in g && m in g[n]
    ensures Reaches(g, roots, m)
  {
  }

  /** The nodes of g that the roots reach. */
  ghost function ReachableSet(g: Graph, roots: set<Node>): (s: set<Node>)
  {
    set n | n in g && Reaches(g, roots, n)
  }

  lemma ReachableSetIsClosed(g: Graph, roots: set<Node>)
    requires NoDanglingEdge(g) && roots <= g.Keys
    ensures roots <= ReachableSet(g, roots) && Closed(g, ReachableSet(g, roots))
  {
    forall n, m | n in ReachableSet(g, roots) && m in g[n]
      ensures m in ReachableSet(g, roots)
    {
      ReachesEdge(g, roots, n, m);
    }
  }

  /** Restricting a graph to what its roots reach leaves everything that is left reachable. */
  lemma ReachableAfterRestriction(g: Graph, roots: set<Node>, h: Graph)
    requires NoDanglingEdge(g) && roots <= g.Keys
    requires h.Keys == ReachableSet(g, roots)
    requires forall n :: n in h ==> h[n] == g[n]
    ensures NoDanglingEdge(h) && roots <= h.Keys && ReachableSet(h, roots) == h.Keys
  {
    ReachableSetIsClosed(g, roots);
    ReachableSetIsClosed(h, roots);
    assert Closed(g, ReachableSet(h, roots));
  }

  /** A closed set that holds the roots holds everything they reach. */
  lemma ReachableWithin(g: Graph, roots: set<Node>, s: set<Node>)
    requires Closed(g, s) && roots <= s
    ensures ReachableSet(g, roots) <= s
  {
  }

  // ---- paths ----

  ghost predicate IsEdge(g: Graph, a: Node, b: Node)
  {
    a in g && b in g[a]
  }

  ghost predicate IsPath(g: Graph, p: seq<Node>)
  {
    && |p| > 0
    && forall i, j :: 0 <= i && j == i + 1 < |p| ==> IsEdge(g, p[i], p[j])
  }

  ghost predicate IsPathBetween(g: Graph, p: seq<Node>, a: Node, b: Node)
  {
    IsPath(g, p) && p[0] == a && p[|p| - 1] == b
  }

  ghost predicate HasPath(g: Graph, a: Node, b: Node)
  {
    exists p :: IsPathBetween(g, p, a, b)
  }

  lemma PathRefl(g: Graph, a: Node)
    ensures HasPath(g, a, a)
  {
    assert IsPathBetween(g, [a], a, a);
  }

  lemma PathEdge(g: Graph, a: Node, b: Node, c: Node)
    requires HasPath(g, a, b) && b in g && c in g[b]
    ensures HasPath(g, a, c)
  {
    var p :| IsPathBetween(g, p, a, b);
    var q := p + [c];
    forall i, j | 0 <= i && j == i + 1 < |q| ensures IsEdge(g, q[i], q[j]) {
      if j < |p| {
        assert q[i] == p[i] && q[j] == p[j];
      }
    }
    assert IsPathBetween(g, q, a, c);
  }

  lemma EdgePath(g: Graph, a: Node, b: Node, c: Node)
    requires IsEdge(g, a, b) && HasPath(g, b, c)
    ensures HasPath(g, a, c)
  {
    var p :| IsPathBetween(g, p, b, c);
    var q := [a] + p;
    forall i, j | 0 <= i && j == i + 1 < |q| ensures IsEdge(g, q[i], q[j]) {
      if i > 0 {
        assert q[i] == p[i - 1] && q[j] == p[i];
      }
    }
    assert IsPathBetween(g, q, a, c);
  }

  /** A closed set that holds the start of a path holds all of it. */
  lemma {:induction false} ClosedHoldsPath(g: Graph, s: set<Node>, p: seq<Node>, i: nat)
    requires Closed(g, s) && IsPath(g, p) && p[0] in s && i < |p|
    ensures p[i] in s
  {
    if i > 0 {
      ClosedHoldsPath(g, s, p, i - 1);
      assert IsEdge(g, p[i - 1], p[i]);
    }
  }

  /** Reachability is the existence of a path from a root. */
  lemma ReachesIffPath(g: Graph, roots: set<Node>, n: Node)
    requires NoDanglingEdge(g) && roots <= g.Keys
    ensures Reaches(g, roots, n) <==> exists r :: r in roots && HasPath(g, r, n)
  {
    if r :| r in roots && HasPath(g, r, n) {
      var p :| IsPathBetween(g, p, r, n);
      forall s | Closed(g, s) && roots <= s ensures n in s {
        ClosedHoldsPath(g, s, p, |p| - 1);
      }
    }
    if Reaches(g, roots, n) {
      var s := set m | m in g && exists r :: r in roots && HasPath(g, r, m);
      forall r | r in roots ensures r in s {
        PathRefl(g, r);
      }
      forall m, c | m in s && c in g[m] ensures c in s {
        var r :| r in roots && HasPath(g, r, m);
        PathEdge(g, r, m, c);
      }
      assert Closed(g, s);
    }
  }
}
