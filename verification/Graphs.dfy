/** Finite directed graphs as adjacency lists, and reachability along their edges. */
module Graphs {
  type Node = nat
  type Graph = map<Node, seq<Node>>

  /** An edge leads from a node of the graph to a listed node that is in the graph too. */
  predicate Edge(g: Graph, a: Node, b: Node) {
    a in g && b in g && b in g[a]
  }

  /** The step from position `i` of `p` to the next one, if there is one, follows an edge. */
  ghost predicate Step(g: Graph, p: seq<Node>, i: int) {
    0 <= i < |p| - 1 ==> Edge(g, p[i], p[i + 1])
  }

  ghost predicate IsPath(g: Graph, p: seq<Node>) {
    && |p| > 0
    && (forall i :: 0 <= i < |p| ==> p[i] in g)
    && (forall i {:trigger Step(g, p, i)} :: Step(g, p, i))
  }

  ghost predicate PathFromTo(g: Graph, p: seq<Node>, a: Node, b: Node) {
    IsPath(g, p) && p[0] == a && p[|p| - 1] == b
  }

  ghost predicate Reach(g: Graph, a: Node, b: Node) {
    exists p :: PathFromTo(g, p, a, b)
  }

  /** Reachability along at least one edge. */
  ghost predicate ReachPlus(g: Graph, a: Node, b: Node) {
    exists c :: Edge(g, a, c) && Reach(g, c, b)
  }

  ghost predicate Acyclic(g: Graph) {
    forall a :: !ReachPlus(g, a, a)
  }

  ghost predicate Closed(g: Graph, s: set<Node>) {
    forall a, b :: a in s && Edge(g, a, b) ==> b in s
  }

  lemma ReachSelf(g: Graph, a: Node)
    requires a in g
    ensures Reach(g, a, a)
  {
    assert PathFromTo(g, [a], a, a);
  }

  lemma ReachEdge(g: Graph, a: Node, b: Node)
    requires Edge(g, a, b)
    ensures Reach(g, a, b)
  {
    assert PathFromTo(g, [a, b], a, b);
  }

  lemma PathConcat(g: Graph, p: seq<Node>, q: seq<Node>)
    requires IsPath(g, p) && IsPath(g, q) && p[|p| - 1] == q[0]
    ensures PathFromTo(g, p + q[1..], p[0], q[|q| - 1])
  {
    var r := p + q[1..];
    forall i
      ensures Step(g, r, i)
    {
      if 0 <= i < |p| - 1 {
        assert Step(g, p, i);
      } else if |p| - 1 <= i < |r| - 1 {
        assert r[i] == q[i - (|p| - 1)];
        assert r[i + 1] == q[i + 1 - (|p| - 1)];
        assert Step(g, q, i - (|p| - 1));
      }
    }
  }

  lemma ReachTransitive(g: Graph, a: Node, b: Node, c: Node)
    requires Reach(g, a, b) && Reach(g, b, c)
    ensures Reach(g, a, c)
  {
    var p :| PathFromTo(g, p, a, b);
    var q :| PathFromTo(g, q, b, c);
    PathConcat(g, p, q);
  }

  lemma ReachThenEdge(g: Graph, a: Node, b: Node, c: Node)
    requires Reach(g, a, b) && Edge(g, b, c)
    ensures Reach(g, a, c)
  {
    ReachEdge(g, b, c);
    ReachTransitive(g, a, b, c);
  }

  lemma ReachInGraph(g: Graph, a: Node, b: Node)
    requires Reach(g, a, b)
    ensures a in g && b in g
  {
  }

  lemma PathExtend(g: Graph, p: seq<Node>, c: Node)
    requires IsPath(g, p) && Edge(g, p[|p| - 1], c)
    ensures PathFromTo(g, p + [c], p[0], c)
  {
    forall i
      ensures Step(g, p + [c], i)
    {
      assert Step(g, p, i);
    }
  }

  lemma PathPrefix(g: Graph, p: seq<Node>, n: nat)
    requires IsPath(g, p) && 0 < n <= |p|
    ensures PathFromTo(g, p[..n], p[0], p[n - 1])
  {
    forall i
      ensures Step(g, p[..n], i)
    {
      assert Step(g, p, i);
    }
  }

  lemma PathSuffix(g: Graph, p: seq<Node>, n: nat)
    requires IsPath(g, p) && n < |p|
    ensures PathFromTo(g, p[n..], p[n], p[|p| - 1])
  {
    forall i
      ensures Step(g, p[n..], i)
    {
      assert Step(g, p, i + n);
    }
  }

  lemma {:induction false} PathStaysInClosed(g: Graph, s: set<Node>, p: seq<Node>, i: nat)
    requires Closed(g, s) && IsPath(g, p) && p[0] in s && i < |p|
    ensures p[i] in s
    decreases i
  {
    if i > 0 {
      PathStaysInClosed(g, s, p, i - 1);
      assert Step(g, p, i - 1);
    }
  }

  /** Nothing outside a closed set is reachable from inside it. */
  lemma ReachStaysInClosed(g: Graph, s: set<Node>, a: Node, b: Node)
    requires Closed(g, s) && a in s && Reach(g, a, b)
    ensures b in s
  {
    var p :| PathFromTo(g, p, a, b);
    PathStaysInClosed(g, s, p, |p| - 1);
  }

  /** The position at which a node first occurs on a path. */
  lemma FirstOccurrence(p: seq<Node>, b: Node) returns (k: nat)
    requires b in p
    ensures k < |p| && p[k] == b && b !in p[..k]
  {
    k := 0;
    while p[k] != b
      invariant k < |p| && b !in p[..k]
      invariant exists i :: k <= i < |p| && p[i] == b
      decreases |p| - k
    {
      k := k + 1;
    }
  }

  /** Reachability in one direction decomposes at the last step. */
  lemma ReachLastStep(g: Graph, a: Node, b: Node) returns (c: Node)
    requires Reach(g, a, b) && a != b
    ensures Reach(g, a, c) && Edge(g, c, b)
  {
    var p :| PathFromTo(g, p, a, b);
    c := p[|p| - 2];
    PathPrefix(g, p, |p| - 1);
    assert Step(g, p, |p| - 2);
  }

  lemma ReachPlusIsReach(g: Graph, a: Node, b: Node)
    requires ReachPlus(g, a, b)
    ensures Reach(g, a, b)
  {
    var c :| Edge(g, a, c) && Reach(g, c, b);
    ReachEdge(g, a, c);
    ReachTransitive(g, a, c, b);
  }

  lemma ReachThenPlus(g: Graph, a: Node, b: Node, c: Node)
    requires Reach(g, a, b) && ReachPlus(g, b, c)
    ensures ReachPlus(g, a, c)
  {
    var p :| PathFromTo(g, p, a, b);
    if |p| == 1 {
    } else {
      assert Step(g, p, 0);
      PathSuffix(g, p, 1);
      assert Reach(g, p[1], b);
      ReachPlusIsReach(g, b, c);
      ReachTransitive(g, p[1], b, c);
    }
  }

  /** `d` lies on every path from `root` to `b`. */
  ghost predicate Dominates(g: Graph, root: Node, d: Node, b: Node) {
    forall p :: PathFromTo(g, p, root, b) ==> d in p
  }

  function Members(s: seq<Node>): set<Node> {
    set x | x in s
  }

  ghost predicate Distinct(s: seq<Node>) {
    forall i, j :: 0 <= i < j < |s| ==> s[i] != s[j]
  }

  lemma Smaller<T>(a: set<T>, b: set<T>)
    requires a < b
    ensures |a| < |b|
  {
    assert b == a + (b - a);
    assert b - a != {};
  }

  lemma FewerLeft<T>(all: set<T>, a: set<T>, b: set<T>)
    requires a < b <= all
    ensures |all - b| < |all - a|
  {
    Smaller(all - b, all - a);
  }
}
