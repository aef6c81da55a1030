/** Strongly connected components of the call graph, found by Tarjan's algorithm without recursion. */
module Components {
  import opened Graphs
  import opened Ordered

  ghost predicate Mutual(g: Graph, a: Node, b: Node) {
    Reach(g, a, b) && Reach(g, b, a)
  }

  /** Every listed target is a node: the caller filtered the lists. */
  ghost predicate Total(g: Graph) {
    forall a, b :: a in g && b in g[a] ==> b in g
  }

  /** A component holds exactly the nodes mutually reachable with any one of its members. */
  ghost predicate IsComponent(g: Graph, component: seq<Node>) {
    && component != []
    && StrictlyAscending(component)
    && (forall a :: a in component ==> a in g)
    && (forall a, b :: a in component ==> (b in component <==> Mutual(g, a, b)))
  }

  ghost predicate Disjoint(components: seq<seq<Node>>) {
    forall i, j, v :: 0 <= i < j < |components| && v in components[i] ==> v !in components[j]
  }

  ghost predicate Covers(components: seq<seq<Node>>, nodes: set<Node>) {
    && (forall c, v :: c in components && v in c ==> v in nodes)
    && (forall v :: v in nodes ==> exists c :: c in components && v in c)
  }

  /** What the search has recorded so far. */
  datatype Search = Search(
    index: map<Node, nat>,
    lowlink: map<Node, nat>,
    counter: nat,
    stack: seq<Node>,
    components: seq<seq<Node>>)
  {
    ghost function Done(): set<Node> {
      index.Keys - set v | v in stack
    }
  }

  /** One suspended node and the position of the next child to look at. */
  datatype Suspended = Suspended(node: Node, next: nat)

  ghost function Num(s: Search, v: Node): nat {
    if v in s.index then s.index[v] else 0
  }

  ghost function LowOf(s: Search, v: Node): nat {
    if v in s.lowlink then s.lowlink[v] else 0
  }

  ghost predicate Numbered(g: Graph, s: Search) {
    && s.index.Keys == s.lowlink.Keys
    && s.index.Keys <= g.Keys
    && (forall v :: v in s.index ==> Num(s, v) < s.counter)
  }

  ghost predicate StackOk(s: Search) {
    && (forall v :: v in s.stack ==> v in s.index)
    && (forall i, j :: 0 <= i < j < |s.stack| ==> Num(s, s.stack[i]) < Num(s, s.stack[j]))
  }

  ghost predicate DoneOk(g: Graph, s: Search) {
    && Closed(g, s.Done())
    && (forall c :: c in s.components ==> IsComponent(g, c))
    && Disjoint(s.components)
    && Covers(s.components, s.Done())
  }

  /** The open nodes, in the order they were entered. */
  ghost predicate GrayOk(g: Graph, s: Search, gray: seq<Node>) {
    && (forall v :: v in gray ==> v in s.stack)
    && (forall i, j :: 0 <= i < j < |gray| ==> Num(s, gray[i]) < Num(s, gray[j]))
    && (forall i, j :: 0 <= i && j == i + 1 < |gray| ==> Edge(g, gray[i], gray[j]))
  }

  ghost predicate ReachesOpen(g: Graph, s: Search, gray: seq<Node>, x: Node) {
    exists y :: y in gray && Num(s, y) <= Num(s, x) && Reach(g, x, y)
  }

  /** Every node on the stack reaches an open node entered no later than itself. */
  ghost predicate Upward(g: Graph, s: Search, gray: seq<Node>) {
    forall x {:trigger ReachesOpen(g, s, gray, x)} :: x in s.stack ==> ReachesOpen(g, s, gray, x)
  }

  /** Every open node reaches whatever was entered after it and is still on the stack. */
  ghost predicate Downward(g: Graph, s: Search, gray: seq<Node>) {
    forall x, y :: y in gray && x in s.stack && Num(s, y) <= Num(s, x) ==> Reach(g, y, x)
  }

  /** The low link of `y` is the number of a node on the stack that `y` reaches. */
  ghost predicate LowReached(g: Graph, s: Search, y: Node) {
    LowOf(s, y) <= Num(s, y) && exists z :: z in s.stack && Num(s, z) == LowOf(s, y) && Reach(g, y, z)
  }

  ghost predicate Low(g: Graph, s: Search, gray: seq<Node>) {
    forall y {:trigger LowReached(g, s, y)} :: y in gray ==> LowReached(g, s, y)
  }

  /** `x` was entered while `gray[i]` was the innermost open node (or is that node). */
  ghost predicate Owns(s: Search, gray: seq<Node>, i: nat, x: Node)
    requires i < |gray|
  {
    Num(s, gray[i]) <= Num(s, x) && (i + 1 < |gray| ==> Num(s, x) < Num(s, gray[i + 1]))
  }

  /** The edge from `x` at position `k` of its list has been looked at. */
  ghost predicate Seen(g: Graph, gray: seq<Node>, counts: seq<nat>, i: nat, x: Node, k: nat)
    requires i < |gray| && |counts| == |gray|
  {
    x in g && k < |g[x]| && (x == gray[i] ==> k < counts[i])
  }

  /** A seen edge leads to a numbered node, and the low link of `owner` accounts for it while it is on the stack. */
  ghost predicate Accounted(g: Graph, s: Search, owner: Node, x: Node, k: nat)
    requires x in g && k < |g[x]|
  {
    g[x][k] in s.index && (g[x][k] in s.stack ==> LowOf(s, owner) <= Num(s, g[x][k]))
  }

  ghost predicate EdgesAccounted(g: Graph, s: Search, gray: seq<Node>, counts: seq<nat>)
    requires |counts| == |gray|
  {
    forall i, x, k: nat :: 0 <= i < |gray| && x in s.stack && Owns(s, gray, i, x) && Seen(g, gray, counts, i, x, k) ==>
                        Accounted(g, s, gray[i], x, k)
  }

  ghost predicate Shape(g: Graph, s: Search, gray: seq<Node>) {
    Numbered(g, s) && StackOk(s) && DoneOk(g, s) && GrayOk(g, s, gray)
  }

  ghost predicate Linked(g: Graph, s: Search, gray: seq<Node>) {
    Upward(g, s, gray) && Downward(g, s, gray) && Low(g, s, gray)
  }

  ghost predicate Inv(g: Graph, s: Search, gray: seq<Node>, counts: seq<nat>) {
    Shape(g, s, gray) && Linked(g, s, gray) && |counts| == |gray| && EdgesAccounted(g, s, gray, counts)
  }

  /** A node is numbered and pushed when it is first looked at. */
  function Enter(s: Search, v: Node): Search {
    s.(index := s.index[v := s.counter],
       lowlink := s.lowlink[v := s.counter],
       counter := s.counter + 1,
       stack := s.stack + [v])
  }

  ghost predicate CanEnter(g: Graph, s: Search, gray: seq<Node>, v: Node) {
    && Numbered(g, s) && StackOk(s) && GrayOk(g, s, gray)
    && v in g && v !in s.index
    && (gray != [] ==> Edge(g, gray[|gray| - 1], v))
  }

  lemma EnterKeepsInv(g: Graph, s: Search, gray: seq<Node>, counts: seq<nat>, v: Node)
    requires Inv(g, s, gray, counts) && CanEnter(g, s, gray, v)
    ensures Inv(g, Enter(s, v), gray + [v], counts + [0])
  {
    EnterKeepsShape(g, s, gray, v);
    assert Enter(s, v).Done() == s.Done() by {
      assert forall x :: x in Enter(s, v).stack <==> x in s.stack || x == v;
    }
    EnterKeepsUpward(g, s, gray, v);
    EnterKeepsDownward(g, s, gray, v);
    EnterKeepsLow(g, s, gray, v);
    EnterKeepsAccounts(g, s, gray, counts, v);
  }

  lemma EnterFacts(g: Graph, s: Search, gray: seq<Node>, v: Node)
    requires CanEnter(g, s, gray, v)
    ensures forall x :: x in Enter(s, v).stack <==> x in s.stack || x == v
    ensures forall x :: x in gray + [v] <==> x in gray || x == v
    ensures forall x :: x in s.index ==> Num(Enter(s, v), x) == Num(s, x) < Num(Enter(s, v), v) == s.counter
    ensures forall x :: x in s.index ==> LowOf(Enter(s, v), x) == LowOf(s, x)
    ensures LowOf(Enter(s, v), v) == s.counter
    ensures forall x :: x in gray ==> x in s.index
    ensures v !in s.stack
  {
  }

  lemma EnterKeepsShape(g: Graph, s: Search, gray: seq<Node>, v: Node)
    requires CanEnter(g, s, gray, v)
    ensures Numbered(g, Enter(s, v)) && StackOk(Enter(s, v)) && GrayOk(g, Enter(s, v), gray + [v])
  {
    EnterFacts(g, s, gray, v);
    var t := Enter(s, v);
    var gray' := gray + [v];
    forall i, j | 0 <= i < j < |t.stack|
      ensures Num(t, t.stack[i]) < Num(t, t.stack[j])
    {
      assert t.stack[i] == s.stack[i] && s.stack[i] in s.stack;
      if j < |s.stack| {
        assert t.stack[j] == s.stack[j] && s.stack[j] in s.stack;
      }
    }
    forall i, j | 0 <= i < j < |gray'|
      ensures Num(t, gray'[i]) < Num(t, gray'[j])
    {
      assert gray'[i] == gray[i] && gray[i] in gray;
      if j < |gray| {
        assert gray'[j] == gray[j] && gray[j] in gray;
      }
    }
  }

  lemma EnterKeepsUpward(g: Graph, s: Search, gray: seq<Node>, v: Node)
    requires CanEnter(g, s, gray, v) && Upward(g, s, gray)
    ensures Upward(g, Enter(s, v), gray + [v])
  {
    EnterFacts(g, s, gray, v);
    ReachSelf(g, v);
    forall x | x in Enter(s, v).stack
      ensures ReachesOpen(g, Enter(s, v), gray + [v], x)
    {
      if x == v {
        assert v in gray + [v];
      } else {
        assert ReachesOpen(g, s, gray, x);
        var y :| y in gray && Num(s, y) <= Num(s, x) && Reach(g, x, y);
        assert y in gray + [v];
      }
    }
  }

  lemma EnterKeepsDownward(g: Graph, s: Search, gray: seq<Node>, v: Node)
    requires CanEnter(g, s, gray, v) && Downward(g, s, gray)
    ensures Downward(g, Enter(s, v), gray + [v])
  {
    EnterFacts(g, s, gray, v);
    ReachSelf(g, v);
    var t := Enter(s, v);
    forall x, y | y in gray + [v] && x in t.stack && Num(t, y) <= Num(t, x)
      ensures Reach(g, y, x)
    {
      if y != v && x == v {
        LastIsLatest(s, gray, y);
        ReachThenEdge(g, y, gray[|gray| - 1], v);
      }
    }
  }

  lemma LastIsLatest(s: Search, gray: seq<Node>, y: Node)
    requires forall i, j :: 0 <= i < j < |gray| ==> Num(s, gray[i]) < Num(s, gray[j])
    requires y in gray
    ensures Num(s, y) <= Num(s, gray[|gray| - 1]) && gray[|gray| - 1] in gray
  {
    var i :| 0 <= i < |gray| && gray[i] == y;
  }

  lemma EnterKeepsLow(g: Graph, s: Search, gray: seq<Node>, v: Node)
    requires CanEnter(g, s, gray, v) && Low(g, s, gray)
    ensures Low(g, Enter(s, v), gray + [v])
  {
    EnterFacts(g, s, gray, v);
    ReachSelf(g, v);
    var t := Enter(s, v);
    forall y | y in gray + [v]
      ensures LowReached(g, t, y)
    {
      if y == v {
        assert v in t.stack;
      } else {
        assert LowReached(g, s, y);
        var z :| z in s.stack && Num(s, z) == LowOf(s, y) && Reach(g, y, z);
        assert z in t.stack;
      }
    }
  }

  lemma EnterKeepsAccounts(g: Graph, s: Search, gray: seq<Node>, counts: seq<nat>, v: Node)
    requires CanEnter(g, s, gray, v)
    requires |counts| == |gray| && EdgesAccounted(g, s, gray, counts)
    ensures EdgesAccounted(g, Enter(s, v), gray + [v], counts + [0])
  {
    EnterFacts(g, s, gray, v);
    var t := Enter(s, v);
    var gray' := gray + [v];
    var counts' := counts + [0];
    forall i, x, k: nat | 0 <= i < |gray'| && x in t.stack && Owns(t, gray', i, x) && Seen(g, gray', counts', i, x, k)
      ensures Accounted(g, t, gray'[i], x, k)
    {
      if i < |gray| {
        assert gray[i] in gray;
        assert Num(t, gray'[i + 1]) <= s.counter by {
          assert i + 1 < |gray| ==> gray[i + 1] in gray;
        }
        assert x in s.stack;
        assert i + 1 < |gray| ==> gray'[i + 1] == gray[i + 1] && gray[i + 1] in gray;
        assert Owns(s, gray, i, x);
        assert Seen(g, gray, counts, i, x, k);
        assert Accounted(g, s, gray[i], x, k);
      }
    }
  }

  /** Lowers the low link of `v` to `n` if that is less. */
  function Lower(s: Search, v: Node, n: nat): (t: Search)
    requires v in s.lowlink
    ensures t.index == s.index && t.stack == s.stack && t.counter == s.counter && t.components == s.components
    ensures t.lowlink.Keys == s.lowlink.Keys
  {
    if n < s.lowlink[v] then s.(lowlink := s.lowlink[v := n]) else s
  }

  lemma LowerKeepsShape(g: Graph, s: Search, gray: seq<Node>, v: Node, n: nat)
    requires Shape(g, s, gray) && v in s.lowlink
    ensures Shape(g, Lower(s, v, n), gray)
  {
    assert forall x :: Num(Lower(s, v, n), x) == Num(s, x);
    assert Lower(s, v, n).Done() == s.Done();
  }

  lemma LowerKeepsReaching(g: Graph, s: Search, gray: seq<Node>, v: Node, n: nat)
    requires Upward(g, s, gray) && Downward(g, s, gray) && v in s.lowlink
    ensures Upward(g, Lower(s, v, n), gray) && Downward(g, Lower(s, v, n), gray)
  {
    var t := Lower(s, v, n);
    assert forall x :: Num(t, x) == Num(s, x);
    forall x | x in t.stack
      ensures ReachesOpen(g, t, gray, x)
    {
      assert ReachesOpen(g, s, gray, x);
      var y :| y in gray && Num(s, y) <= Num(s, x) && Reach(g, x, y);
      assert Num(t, y) <= Num(t, x);
    }
  }

  /** Lowering a low link to the number of a node on the stack that is reached from there. */
  lemma LowerKeepsLow(g: Graph, s: Search, gray: seq<Node>, v: Node, z: Node)
    requires Low(g, s, gray) && v in gray && v in s.lowlink
    requires z in s.stack && Reach(g, v, z)
    ensures Low(g, Lower(s, v, Num(s, z)), gray)
  {
    var t := Lower(s, v, Num(s, z));
    assert forall x :: Num(t, x) == Num(s, x);
    forall y | y in gray
      ensures LowReached(g, t, y)
    {
      assert LowReached(g, s, y);
      if y == v && LowOf(t, y) == Num(s, z) {
        assert z in t.stack && Num(t, z) == LowOf(t, y);
      } else {
        var w :| w in s.stack && Num(s, w) == LowOf(s, y) && Reach(g, y, w);
        assert w in t.stack && Num(t, w) == LowOf(t, y);
      }
    }
  }

  /** Looks at one child that has been numbered already. */
  function Look(s: Search, v: Node, child: Node): Search
    requires v in s.lowlink && child in s.index
  {
    if child in s.stack then Lower(s, v, s.index[child]) else s
  }

  function Bump(counts: seq<nat>): (r: seq<nat>)
    ensures |r| == |counts|
    ensures counts != [] ==> r[|r| - 1] == counts[|r| - 1] + 1
    ensures forall i :: 0 <= i < |r| - 1 ==> r[i] == counts[i]
  {
    if counts == [] then [] else counts[..|counts| - 1] + [counts[|counts| - 1] + 1]
  }

  /** The innermost open node is `v`, and `child` is the next child it looks at. */
  ghost predicate AtChild(g: Graph, gray: seq<Node>, counts: seq<nat>, v: Node, child: Node) {
    && |gray| == |counts| > 0
    && v == gray[|gray| - 1] && v in g
    && counts[|counts| - 1] < |g[v]|
    && child == g[v][counts[|counts| - 1]]
  }

  lemma LookKeepsInv(g: Graph, s: Search, gray: seq<Node>, counts: seq<nat>, v: Node, child: Node)
    requires Inv(g, s, gray, counts) && AtChild(g, gray, counts, v, child)
    requires v in s.lowlink && child in s.index && child in g
    ensures Inv(g, Look(s, v, child), gray, Bump(counts))
  {
    LookKeepsAccounts(g, s, gray, counts, v, child);
    if child in s.stack {
      LowerKeepsShape(g, s, gray, v, s.index[child]);
      LowerKeepsReaching(g, s, gray, v, s.index[child]);
      ReachEdge(g, v, child);
      LowerKeepsLow(g, s, gray, v, child);
    }
  }

  lemma LookKeepsAccounts(g: Graph, s: Search, gray: seq<Node>, counts: seq<nat>, v: Node, child: Node)
    requires GrayOk(g, s, gray) && AtChild(g, gray, counts, v, child) && EdgesAccounted(g, s, gray, counts)
    requires v in s.lowlink && child in s.index && child in g
    ensures EdgesAccounted(g, Look(s, v, child), gray, Bump(counts))
  {
    var t := Look(s, v, child);
    assert forall x :: Num(t, x) == Num(s, x);
    assert forall x :: LowOf(t, x) <= LowOf(s, x);
    forall i, x, k: nat | 0 <= i < |gray| && x in t.stack && Owns(t, gray, i, x) && Seen(g, gray, Bump(counts), i, x, k)
      ensures Accounted(g, t, gray[i], x, k)
    {
      assert Owns(s, gray, i, x);
      if i == |gray| - 1 && x == v && k == counts[i] {
        assert g[x][k] == child;
      } else {
        assert Seen(g, gray, counts, i, x, k);
        assert Accounted(g, s, gray[i], x, k);
      }
    }
  }

  /** The innermost open node is `v`, and it has looked at all of its children. */
  ghost predicate Exhausted(g: Graph, gray: seq<Node>, counts: seq<nat>, v: Node) {
    && |gray| == |counts| > 0
    && v == gray[|gray| - 1] && v in g
    && counts[|counts| - 1] == |g[v]|
  }

  /** The open node below the innermost one is suspended at the edge that leads to it. */
  ghost predicate SuspendedAt(g: Graph, gray: seq<Node>, counts: seq<nat>, parent: Node, v: Node) {
    && |gray| == |counts| > 1
    && parent == gray[|gray| - 2] && parent in g
    && counts[|counts| - 2] < |g[parent]|
    && g[parent][counts[|counts| - 2]] == v
  }

  function Front<T>(s: seq<T>): (r: seq<T>)
    ensures s != [] ==> |r| == |s| - 1
    ensures |r| <= |s| && forall i :: 0 <= i < |r| ==> r[i] == s[i]
  {
    if s == [] then [] else s[..|s| - 1]
  }

  lemma FrontMembers<T>(s: seq<T>)
    requires s != []
    ensures forall x :: x in s <==> x in Front(s) || x == s[|s| - 1]
  {
    assert s == Front(s) + [s[|s| - 1]];
  }

  /** A node with a lower link reaches an open node below it. */
  lemma LowLinkReachesBelow(g: Graph, s: Search, gray: seq<Node>, v: Node) returns (y: Node)
    requires LowReached(g, s, v) && LowOf(s, v) < Num(s, v) && Upward(g, s, gray)
    ensures y in gray && y != v && Num(s, y) <= LowOf(s, v) && Reach(g, v, y)
  {
    var z :| z in s.stack && Num(s, z) == LowOf(s, v) && Reach(g, v, z);
    assert ReachesOpen(g, s, gray, z);
    y :| y in gray && Num(s, y) <= Num(s, z) && Reach(g, z, y);
    ReachTransitive(g, v, z, y);
  }

  lemma FrontKeepsGray(g: Graph, s: Search, gray: seq<Node>)
    requires GrayOk(g, s, gray) && gray != []
    ensures GrayOk(g, s, Front(gray))
    ensures Downward(g, s, gray) ==> Downward(g, s, Front(gray))
  {
    FrontMembers(gray);
    var rest := Front(gray);
  }

  /** Closing a node that is not the root of its component. */
  lemma CloseInnerKeepsInv(g: Graph, s: Search, gray: seq<Node>, counts: seq<nat>, v: Node, parent: Node)
    requires Inv(g, s, gray, counts) && Exhausted(g, gray, counts, v) && SuspendedAt(g, gray, counts, parent, v)
    requires v in s.lowlink && parent in s.lowlink && LowOf(s, v) < Num(s, v)
    ensures Inv(g, Lower(s, parent, s.lowlink[v]), Front(gray), Bump(Front(counts)))
  {
    CloseInnerKeepsShape(g, s, gray, v, parent);
    CloseInnerKeepsLinks(g, s, gray, v, parent);
    CloseInnerKeepsAccounts(g, s, gray, counts, v, parent);
  }

  lemma LowOfLast(g: Graph, s: Search, gray: seq<Node>, v: Node)
    requires Low(g, s, gray) && gray != [] && gray[|gray| - 1] == v
    ensures LowReached(g, s, v)
  {
  }

  lemma CloseInnerKeepsShape(g: Graph, s: Search, gray: seq<Node>, v: Node, parent: Node)
    requires Shape(g, s, gray) && gray != [] && v in s.lowlink && parent in s.lowlink
    ensures Shape(g, Lower(s, parent, s.lowlink[v]), Front(gray))
  {
    FrontKeepsGray(g, s, gray);
    LowerKeepsShape(g, s, Front(gray), parent, s.lowlink[v]);
  }

  lemma CloseInnerKeepsLinks(g: Graph, s: Search, gray: seq<Node>, v: Node, parent: Node)
    requires Shape(g, s, gray) && Linked(g, s, gray)
    requires |gray| > 1 && v == gray[|gray| - 1] && parent == gray[|gray| - 2]
    requires v in s.lowlink && parent in s.lowlink && LowOf(s, v) < Num(s, v)
    ensures Linked(g, Lower(s, parent, s.lowlink[v]), Front(gray))
  {
    LowOfLast(g, s, gray, v);
    CloseInnerKeepsUpward(g, s, gray, v);
    FrontKeepsGray(g, s, gray);
    LowerKeepsReaching(g, s, Front(gray), parent, s.lowlink[v]);
    CloseInnerKeepsLow(g, s, gray, v, parent);
  }

  lemma CloseInnerKeepsLow(g: Graph, s: Search, gray: seq<Node>, v: Node, parent: Node)
    requires GrayOk(g, s, gray) && Low(g, s, gray) && |gray| > 1
    requires gray[|gray| - 1] == v && gray[|gray| - 2] == parent && v in s.lowlink && parent in s.lowlink
    ensures Low(g, Lower(s, parent, s.lowlink[v]), Front(gray))
  {
    FrontMembers(gray);
    assert Front(gray)[|gray| - 2] == parent;
    assert Edge(g, gray[|gray| - 2], gray[|gray| - 1]);
    assert LowReached(g, s, v);
    var z :| z in s.stack && Num(s, z) == LowOf(s, v) && Reach(g, v, z);
    ReachEdge(g, parent, v);
    ReachTransitive(g, parent, v, z);
    LowerKeepsLow(g, s, Front(gray), parent, z);
  }

  lemma CloseInnerKeepsUpward(g: Graph, s: Search, gray: seq<Node>, v: Node)
    requires Upward(g, s, gray) && LowReached(g, s, v) && LowOf(s, v) < Num(s, v)
    requires gray != [] && gray[|gray| - 1] == v
    ensures Upward(g, s, Front(gray))
  {
    FrontMembers(gray);
    var lower := LowLinkReachesBelow(g, s, gray, v);
    forall x | x in s.stack
      ensures ReachesOpen(g, s, Front(gray), x)
    {
      assert ReachesOpen(g, s, gray, x);
      var y :| y in gray && Num(s, y) <= Num(s, x) && Reach(g, x, y);
      if y == v {
        ReachTransitive(g, x, v, lower);
        assert lower in Front(gray);
      } else {
        assert y in Front(gray);
      }
    }
  }

  lemma CloseInnerKeepsAccounts(g: Graph, s: Search, gray: seq<Node>, counts: seq<nat>, v: Node, parent: Node)
    requires Exhausted(g, gray, counts, v) && SuspendedAt(g, gray, counts, parent, v)
    requires Shape(g, s, gray) && Low(g, s, gray) && EdgesAccounted(g, s, gray, counts)
    requires v in s.lowlink && parent in s.lowlink
    ensures EdgesAccounted(g, Lower(s, parent, s.lowlink[v]), Front(gray), Bump(Front(counts)))
  {
    var t := Lower(s, parent, s.lowlink[v]);
    var rest := Front(gray);
    var after := Bump(Front(counts));
    var n := |rest|;
    assert parent in gray && v in gray;
    assert LowReached(g, s, parent);
    forall i, x, k: nat | 0 <= i < n && x in t.stack && Owns(t, rest, i, x) && Seen(g, rest, after, i, x, k)
      ensures Accounted(g, t, rest[i], x, k)
    {
      ClosingAccount(g, s, gray, counts, v, parent, i, x, k);
    }
  }

  lemma ClosingAccount(g: Graph, s: Search, gray: seq<Node>, counts: seq<nat>, v: Node, parent: Node,
                       i: nat, x: Node, k: nat)
    requires Exhausted(g, gray, counts, v) && SuspendedAt(g, gray, counts, parent, v)
    requires GrayOk(g, s, gray) && EdgesAccounted(g, s, gray, counts)
    requires v in s.index && v in s.lowlink && parent in s.lowlink && LowOf(s, parent) <= Num(s, parent)
    requires i < |gray| - 1 && x in s.stack
    requires Owns(s, Front(gray), i, x) && Seen(g, Front(gray), Bump(Front(counts)), i, x, k)
    ensures Accounted(g, Lower(s, parent, s.lowlink[v]), gray[i], x, k)
  {
    var n := |gray| - 1;
    assert Num(s, gray[n - 1]) < Num(s, gray[n]);
    if i < n - 1 {
      assert Front(gray)[i + 1] == gray[i + 1];
      assert Owns(s, gray, i, x) && Seen(g, gray, counts, i, x, k);
      assert Accounted(g, s, gray[i], x, k);
    } else if Num(s, x) < Num(s, v) {
      if x == parent && k == counts[n - 1] {
        assert g[x][k] == v;
      } else {
        assert Owns(s, gray, i, x) && Seen(g, gray, counts, i, x, k);
        assert Accounted(g, s, gray[i], x, k);
      }
    } else {
      assert Owns(s, gray, n, x) && Seen(g, gray, counts, n, x, k);
      assert Accounted(g, s, v, x, k);
    }
  }

  /** The nodes at or above `v` on the stack. */
  ghost function Segment(s: Search, v: Node): set<Node> {
    set y | y in s.stack && Num(s, v) <= Num(s, y)
  }

  ghost predicate IsRoot(s: Search, gray: seq<Node>, v: Node) {
    && gray != [] && v == gray[|gray| - 1]
    && v in s.lowlink && v in s.stack
    && LowOf(s, v) == Num(s, v)
  }

  /** The finished component and what was finished before it are closed under edges. */
  lemma SegmentClosed(g: Graph, s: Search, gray: seq<Node>, counts: seq<nat>, v: Node)
    requires Shape(g, s, gray)
    requires Exhausted(g, gray, counts, v) && EdgesAccounted(g, s, gray, counts) && IsRoot(s, gray, v)
    ensures Closed(g, Segment(s, v) + s.Done())
  {
    forall y, w | y in Segment(s, v) + s.Done() && Edge(g, y, w)
      ensures w in Segment(s, v) + s.Done()
    {
      if y in Segment(s, v) {
        var k :| 0 <= k < |g[y]| && g[y][k] == w;
        assert Owns(s, gray, |gray| - 1, y);
        assert Seen(g, gray, counts, |gray| - 1, y, k);
        assert Accounted(g, s, v, y, k);
      }
    }
  }

  /** Every node of the finished component and its root reach each other. */
  lemma SegmentMutual(g: Graph, s: Search, gray: seq<Node>, v: Node, a: Node)
    requires GrayOk(g, s, gray) && StackOk(s) && Upward(g, s, gray) && Downward(g, s, gray) && IsRoot(s, gray, v)
    requires Closed(g, Segment(s, v) + s.Done()) && a in Segment(s, v)
    ensures Reach(g, v, a) && Reach(g, a, v)
  {
    assert ReachesOpen(g, s, gray, a);
    var y :| y in gray && Num(s, y) <= Num(s, a) && Reach(g, a, y);
    ReachStaysInClosed(g, Segment(s, v) + s.Done(), a, y);
    assert y in s.stack && y in Segment(s, v);
    OnlyLastIsLatest(s, gray, y);
    assert v in gray;
  }

  lemma OnlyLastIsLatest(s: Search, gray: seq<Node>, y: Node)
    requires forall i, j :: 0 <= i < j < |gray| ==> Num(s, gray[i]) < Num(s, gray[j])
    requires y in gray && Num(s, gray[|gray| - 1]) <= Num(s, y)
    ensures y == gray[|gray| - 1]
  {
    var i :| 0 <= i < |gray| && gray[i] == y;
  }

  lemma SegmentIsClass(g: Graph, s: Search, gray: seq<Node>, v: Node, a: Node, b: Node)
    requires GrayOk(g, s, gray) && StackOk(s) && Upward(g, s, gray) && Downward(g, s, gray) && IsRoot(s, gray, v)
    requires Closed(g, Segment(s, v) + s.Done()) && Closed(g, s.Done()) && a in Segment(s, v)
    ensures b in Segment(s, v) <==> Mutual(g, a, b)
  {
    SegmentMutual(g, s, gray, v, a);
    if b in Segment(s, v) {
      SegmentMutual(g, s, gray, v, b);
      ReachTransitive(g, a, v, b);
      ReachTransitive(g, b, v, a);
    } else if Mutual(g, a, b) {
      ReachStaysInClosed(g, Segment(s, v) + s.Done(), a, b);
      ReachStaysInClosed(g, s.Done(), b, a);
    }
  }

  lemma SegmentIsComponent(g: Graph, s: Search, gray: seq<Node>, v: Node)
    requires GrayOk(g, s, gray) && StackOk(s) && Upward(g, s, gray) && Downward(g, s, gray) && IsRoot(s, gray, v)
    requires Closed(g, Segment(s, v) + s.Done()) && Closed(g, s.Done()) && Numbered(g, s)
    ensures IsComponent(g, Ascending(Segment(s, v)))
  {
    var component := Ascending(Segment(s, v));
    assert v in component;
    forall a, b | a in component
      ensures b in component <==> Mutual(g, a, b)
    {
      SegmentIsClass(g, s, gray, v, a, b);
    }
  }

  /** Pops the component rooted at `v` off the stack. */
  ghost function Pop(s: Search, v: Node, below: nat): Search
    requires below <= |s.stack|
  {
    s.(stack := s.stack[..below], components := s.components + [Ascending(Segment(s, v))])
  }

  lemma PopFacts(s: Search, v: Node, below: nat)
    requires StackOk(s) && below < |s.stack| && s.stack[below] == v
    ensures forall x :: x in s.stack[..below] <==> x in s.stack && Num(s, x) < Num(s, v)
    ensures Pop(s, v, below).Done() == s.Done() + Segment(s, v)
  {
    forall x
      ensures x in s.stack[..below] <==> x in s.stack && Num(s, x) < Num(s, v)
    {
      if x in s.stack {
        var i :| 0 <= i < |s.stack| && s.stack[i] == x;
        if i < below { assert s.stack[..below][i] == x; }
      }
    }
  }

  /** Closing the root of a component: pop the component and move the parent past the edge to it. */
  lemma ClosedRootKeepsInv(g: Graph, s: Search, gray: seq<Node>, counts: seq<nat>, v: Node, below: nat)
    requires Inv(g, s, gray, counts) && Exhausted(g, gray, counts, v) && IsRoot(s, gray, v)
    requires below < |s.stack| && s.stack[below] == v
    requires |gray| > 1 ==> SuspendedAt(g, gray, counts, gray[|gray| - 2], v)
    ensures Inv(g, Pop(s, v, below), Front(gray), Closing(counts))
  {
    SegmentClosed(g, s, gray, counts, v);
    PopKeepsShape(g, s, gray, v, below);
    PopKeepsLinks(g, s, gray, v, below);
    PopKeepsAccounts(g, s, gray, counts, v, below);
    assert |Closing(counts)| == |Front(gray)|;
  }

  /** The counts of the nodes that stay open when the innermost one closes. */
  function Closing(counts: seq<nat>): (r: seq<nat>)
    ensures counts != [] ==> |r| == |counts| - 1
  {
    if |counts| > 1 then Bump(Front(counts)) else []
  }

  lemma PopKeepsShape(g: Graph, s: Search, gray: seq<Node>, v: Node, below: nat)
    requires Shape(g, s, gray) && Linked(g, s, gray) && IsRoot(s, gray, v)
    requires below < |s.stack| && s.stack[below] == v
    requires Closed(g, Segment(s, v) + s.Done())
    ensures Shape(g, Pop(s, v, below), Front(gray))
  {
    PopFacts(s, v, below);
    SegmentIsComponent(g, s, gray, v);
    PopKeepsDone(g, s, v, below);
    PopKeepsGray(g, s, gray, v, below);
  }

  lemma PopKeepsDone(g: Graph, s: Search, v: Node, below: nat)
    requires StackOk(s) && DoneOk(g, s) && below < |s.stack| && s.stack[below] == v
    requires Closed(g, Segment(s, v) + s.Done()) && IsComponent(g, Ascending(Segment(s, v)))
    ensures DoneOk(g, Pop(s, v, below))
  {
    PopFacts(s, v, below);
    var t := Pop(s, v, below);
    var component := Ascending(Segment(s, v));
    assert t.Done() == Segment(s, v) + s.Done();
    assert forall c :: c in t.components <==> c in s.components || c == component;
    forall i, j, x | 0 <= i < j < |t.components| && x in t.components[i]
      ensures x !in t.components[j]
    {
      if j == |s.components| {
        assert t.components[i] in s.components;
        assert x in s.Done();
      }
    }
    forall x | x in t.Done()
      ensures exists c :: c in t.components && x in c
    {
      if x in s.Done() {
        var c :| c in s.components && x in c;
        assert c in t.components;
      } else {
        assert component in t.components && x in component;
      }
    }
  }

  lemma PopKeepsGray(g: Graph, s: Search, gray: seq<Node>, v: Node, below: nat)
    requires StackOk(s) && GrayOk(g, s, gray) && gray != [] && v == gray[|gray| - 1]
    requires below < |s.stack| && s.stack[below] == v
    ensures GrayOk(g, Pop(s, v, below), Front(gray)) && StackOk(Pop(s, v, below))
  {
    PopFacts(s, v, below);
    FrontKeepsGray(g, s, gray);
    var t := Pop(s, v, below);
    assert forall x :: Num(t, x) == Num(s, x);
    forall y | y in Front(gray)
      ensures y in t.stack
    {
      BelowLast(s, gray, y);
      assert y in gray by { FrontMembers(gray); }
    }
  }

  lemma BelowLast(s: Search, gray: seq<Node>, y: Node)
    requires forall i, j :: 0 <= i < j < |gray| ==> Num(s, gray[i]) < Num(s, gray[j])
    requires gray != [] && y in Front(gray)
    ensures Num(s, y) < Num(s, gray[|gray| - 1])
  {
    var i :| 0 <= i < |Front(gray)| && Front(gray)[i] == y;
    assert gray[i] == y;
  }

  lemma PopKeepsLinks(g: Graph, s: Search, gray: seq<Node>, v: Node, below: nat)
    requires Shape(g, s, gray) && Linked(g, s, gray) && gray != [] && v == gray[|gray| - 1]
    requires below < |s.stack| && s.stack[below] == v
    ensures Linked(g, Pop(s, v, below), Front(gray))
  {
    PopKeepsUpward(g, s, gray, v, below);
    PopKeepsDownward(g, s, gray, v, below);
    PopKeepsLow(g, s, gray, v, below);
  }

  lemma PopKeepsUpward(g: Graph, s: Search, gray: seq<Node>, v: Node, below: nat)
    requires StackOk(s) && Upward(g, s, gray) && gray != [] && v == gray[|gray| - 1]
    requires below < |s.stack| && s.stack[below] == v
    ensures Upward(g, Pop(s, v, below), Front(gray))
  {
    PopFacts(s, v, below);
    FrontMembers(gray);
    var t := Pop(s, v, below);
    forall x | x in t.stack
      ensures ReachesOpen(g, t, Front(gray), x)
    {
      assert ReachesOpen(g, s, gray, x);
      var y :| y in gray && Num(s, y) <= Num(s, x) && Reach(g, x, y);
      assert y in Front(gray) && Num(t, y) <= Num(t, x);
    }
  }

  lemma PopKeepsDownward(g: Graph, s: Search, gray: seq<Node>, v: Node, below: nat)
    requires StackOk(s) && Downward(g, s, gray) && gray != []
    requires below < |s.stack| && s.stack[below] == v
    ensures Downward(g, Pop(s, v, below), Front(gray))
  {
    PopFacts(s, v, below);
    FrontMembers(gray);
    assert forall x :: Num(Pop(s, v, below), x) == Num(s, x);
  }

  lemma PopKeepsLow(g: Graph, s: Search, gray: seq<Node>, v: Node, below: nat)
    requires StackOk(s) && GrayOk(g, s, gray) && Low(g, s, gray) && gray != [] && v == gray[|gray| - 1]
    requires below < |s.stack| && s.stack[below] == v
    ensures Low(g, Pop(s, v, below), Front(gray))
  {
    PopFacts(s, v, below);
    FrontMembers(gray);
    var t := Pop(s, v, below);
    forall y | y in Front(gray)
      ensures LowReached(g, t, y)
    {
      BelowLast(s, gray, y);
      assert LowReached(g, s, y);
      var z :| z in s.stack && Num(s, z) == LowOf(s, y) && Reach(g, y, z);
      assert z in t.stack && Num(t, z) == LowOf(t, y);
    }
  }

  lemma PopKeepsAccounts(g: Graph, s: Search, gray: seq<Node>, counts: seq<nat>, v: Node, below: nat)
    requires Exhausted(g, gray, counts, v)
    requires |gray| > 1 ==> SuspendedAt(g, gray, counts, gray[|gray| - 2], v)
    requires Shape(g, s, gray) && EdgesAccounted(g, s, gray, counts) && IsRoot(s, gray, v)
    requires below < |s.stack| && s.stack[below] == v
    ensures EdgesAccounted(g, Pop(s, v, below), Front(gray), Closing(counts))
  {
    PopFacts(s, v, below);
    var t := Pop(s, v, below);
    var rest := Front(gray);
    var n := |rest|;
    forall i, x, k: nat | 0 <= i < n && x in t.stack && Owns(t, rest, i, x) && Seen(g, rest, Closing(counts), i, x, k)
      ensures Accounted(g, t, rest[i], x, k)
    {
      assert i + 1 < n ==> rest[i + 1] == gray[i + 1];
      assert Owns(s, gray, i, x);
      if i == n - 1 && x == gray[n - 1] && k == counts[n - 1] {
        assert g[x][k] == v;
      } else {
        assert Seen(g, gray, counts, i, x, k);
        assert Accounted(g, s, gray[i], x, k);
      }
    }
  }

  ghost function Nodes(work: seq<Suspended>): (r: seq<Node>)
    ensures |r| == |work| && forall i :: 0 <= i < |work| ==> r[i] == work[i].node
  {
    seq(|work|, i requires 0 <= i < |work| => work[i].node)
  }

  /** How many children of each open node have been looked at: a suspended one is still at the edge it went down. */
  ghost function Counts(work: seq<Suspended>): (r: seq<nat>)
    ensures |r| == |work| && forall i :: 0 <= i < |work| - 1 && work[i].next > 0 ==> r[i] == work[i].next - 1
    ensures work != [] ==> r[|work| - 1] == work[|work| - 1].next
  {
    seq(|work|, i requires 0 <= i < |work| =>
      if i < |work| - 1 && work[i].next > 0 then work[i].next - 1 else work[i].next)
  }

  /** Every entry but the top was suspended while going down to the entry above it. */
  ghost predicate Chained(g: Graph, work: seq<Suspended>) {
    && (forall i :: 0 <= i < |work| ==> work[i].node in g && work[i].next <= |g[work[i].node]|)
    && (forall i {:trigger WentDown(g, work, i)} :: WentDown(g, work, i))
  }

  ghost predicate WentDown(g: Graph, work: seq<Suspended>, i: int) {
    0 <= i < |work| - 1 ==>
      && work[i].node in g && 0 < work[i].next <= |g[work[i].node]|
      && g[work[i].node][work[i].next - 1] == work[i + 1].node
  }

  /** The search between two rounds: the top entry is new, or it is open and resumes. */
  ghost predicate Between(g: Graph, s: Search, work: seq<Suspended>) {
    && Chained(g, work)
    && (if work != [] && work[|work| - 1].next == 0 then
          && Inv(g, s, Front(Nodes(work)), Front(Counts(work)))
          && CanEnter(g, s, Front(Nodes(work)), work[|work| - 1].node)
        else
          Inv(g, s, Nodes(work), Counts(work)))
  }

  /** The innermost open node has looked at `position` of its children. */
  ghost predicate Open(g: Graph, s: Search, work: seq<Suspended>, position: nat) {
    && work != [] && Chained(g, work)
    && position <= |g[work[|work| - 1].node]|
    && Inv(g, s, Nodes(work), Front(Counts(work)) + [position])
  }

  lemma OpenTop(g: Graph, s: Search, work: seq<Suspended>)
    requires Between(g, s, work) && work != []
    ensures var top := work[|work| - 1];
            Open(g, if top.next == 0 then Enter(s, top.node) else s, work, top.next)
    ensures work[|work| - 1].next == 0 ==> work[|work| - 1].node !in s.index
  {
    var top := work[|work| - 1];
    assert Nodes(work) == Front(Nodes(work)) + [top.node];
    assert Counts(work) == Front(Counts(work)) + [top.next];
    if top.next == 0 {
      EnterKeepsInv(g, s, Front(Nodes(work)), Front(Counts(work)), top.node);
    }
  }

  lemma TopIsNumbered(g: Graph, s: Search, work: seq<Suspended>, position: nat)
    requires Open(g, s, work, position)
    ensures var v := work[|work| - 1].node; v in s.index && v in s.lowlink && v in s.stack
    ensures |work| > 1 ==> work[|work| - 2].node in s.lowlink
    ensures |work| > 1 ==> Num(s, work[|work| - 2].node) < Num(s, work[|work| - 1].node)
    ensures |work| > 1 ==> LowOf(s, work[|work| - 2].node) <= Num(s, work[|work| - 2].node)
    ensures LowOf(s, work[|work| - 1].node) <= Num(s, work[|work| - 1].node)
    ensures Numbered(g, s)
  {
    var gray := Nodes(work);
    assert gray[|gray| - 1] in gray;
    assert LowReached(g, s, gray[|gray| - 1]);
    if |work| > 1 {
      assert gray[|gray| - 2] in gray;
      assert LowReached(g, s, gray[|gray| - 2]);
    }
  }

  lemma LookOnce(g: Graph, s: Search, work: seq<Suspended>, position: nat)
    requires Total(g) && Open(g, s, work, position)
    requires position < |g[work[|work| - 1].node]| && g[work[|work| - 1].node][position] in s.index
    requires work[|work| - 1].node in s.lowlink
    ensures var v := work[|work| - 1].node;
            Open(g, Look(s, v, g[v][position]), work, position + 1)
  {
    var v := work[|work| - 1].node;
    var counts := Front(Counts(work)) + [position];
    assert AtChild(g, Nodes(work), counts, v, g[v][position]);
    LookKeepsInv(g, s, Nodes(work), counts, v, g[v][position]);
    assert Bump(counts) == Front(Counts(work)) + [position + 1];
  }

  lemma GoDown(g: Graph, s: Search, work: seq<Suspended>, position: nat, child: Node)
    requires Total(g) && Open(g, s, work, position)
    requires position < |g[work[|work| - 1].node]| && g[work[|work| - 1].node][position] == child
    requires child !in s.index
    ensures Between(g, s, Front(work) + [Suspended(work[|work| - 1].node, position + 1), Suspended(child, 0)])
  {
    var v := work[|work| - 1].node;
    var work' := Front(work) + [Suspended(v, position + 1), Suspended(child, 0)];
    ChainGrows(g, work, position, child);
    CountsGrow(work, position, child);
    assert Edge(g, v, child);
    assert Nodes(work)[|work| - 1] == v;
  }

  lemma ChainGrows(g: Graph, work: seq<Suspended>, position: nat, child: Node)
    requires work != [] && Chained(g, work) && child in g
    requires position < |g[work[|work| - 1].node]| && g[work[|work| - 1].node][position] == child
    ensures Chained(g, Front(work) + [Suspended(work[|work| - 1].node, position + 1), Suspended(child, 0)])
  {
    var work' := Front(work) + [Suspended(work[|work| - 1].node, position + 1), Suspended(child, 0)];
    forall i
      ensures WentDown(g, work', i)
    {
      assert WentDown(g, work, i);
      if 0 <= i < |work| - 1 {
        assert work'[i] == work[i] && work'[i + 1].node == work[i + 1].node;
      }
    }
  }

  lemma CountsGrow(work: seq<Suspended>, position: nat, child: Node)
    requires work != []
    ensures var work' := Front(work) + [Suspended(work[|work| - 1].node, position + 1), Suspended(child, 0)];
            Front(Nodes(work')) == Nodes(work) && Front(Counts(work')) == Front(Counts(work)) + [position]
  {
    var work' := Front(work) + [Suspended(work[|work| - 1].node, position + 1), Suspended(child, 0)];
    var n := |work|;
    assert |work'| == n + 1;
    forall i | 0 <= i < n
      ensures Front(Counts(work'))[i] == (Front(Counts(work)) + [position])[i]
    {
      if i < n - 1 {
        assert work'[i] == work[i];
      }
    }
  }

  lemma FrontOfWork(g: Graph, work: seq<Suspended>, n: nat)
    requires work != [] && Chained(g, work)
    ensures Chained(g, Front(work))
    ensures Front(Nodes(work)) == Nodes(Front(work))
    ensures Closing(Front(Counts(work)) + [n]) == Counts(Front(work))
    ensures |work| > 1 ==> Front(work)[|work| - 2].next > 0
  {
    var rest := Front(work);
    var closing := Closing(Front(Counts(work)) + [n]);
    assert Front(Front(Counts(work)) + [n]) == Front(Counts(work));
    forall i
      ensures WentDown(g, rest, i)
    {
      assert WentDown(g, work, i);
    }
    if |work| > 1 {
      assert WentDown(g, work, |work| - 2);
      forall i | 0 <= i < |rest|
        ensures closing[i] == Counts(rest)[i]
      {
        assert WentDown(g, work, i);
      }
    }
  }

  lemma CloseTop(g: Graph, t: Search, work: seq<Suspended>, n: nat)
    requires work != [] && Chained(g, work)
    requires Inv(g, t, Front(Nodes(work)), Closing(Front(Counts(work)) + [n]))
    ensures Between(g, t, Front(work))
  {
    FrontOfWork(g, work, n);
  }

  lemma CloseInner(g: Graph, s: Search, work: seq<Suspended>, v: Node, parent: Node)
    requires work != [] && work[|work| - 1].node == v && v in g && Open(g, s, work, |g[v]|)
    requires |work| > 1 && work[|work| - 2].node == parent
    requires v in s.lowlink && parent in s.lowlink && LowOf(s, v) < Num(s, v)
    ensures Between(g, Lower(s, parent, s.lowlink[v]), Front(work))
  {
    var counts := Front(Counts(work)) + [|g[v]|];
    assert Exhausted(g, Nodes(work), counts, v);
    assert WentDown(g, work, |work| - 2);
    assert SuspendedAt(g, Nodes(work), counts, parent, v);
    CloseInnerKeepsInv(g, s, Nodes(work), counts, v, parent);
    assert Closing(counts) == Bump(Front(counts));
    CloseTop(g, Lower(s, parent, s.lowlink[v]), work, |g[v]|);
  }

  lemma InnerHasParent(g: Graph, s: Search, work: seq<Suspended>, v: Node, position: nat)
    requires Open(g, s, work, position) && work[|work| - 1].node == v && LowOf(s, v) < Num(s, v)
    ensures |work| > 1
  {
    LowOfLast(g, s, Nodes(work), v);
    var y := LowLinkReachesBelow(g, s, Nodes(work), v);
    assert y in Nodes(work);
    assert |work| == 1 ==> Nodes(work) == [v];
  }

  lemma CloseRoot(g: Graph, s: Search, work: seq<Suspended>, v: Node, below: nat)
    requires work != [] && work[|work| - 1].node == v && v in g && Open(g, s, work, |g[v]|)
    requires v in s.lowlink && LowOf(s, v) == Num(s, v) && below < |s.stack| && s.stack[below] == v
    ensures Between(g, Pop(s, v, below), Front(work))
  {
    var counts := Front(Counts(work)) + [|g[v]|];
    assert Exhausted(g, Nodes(work), counts, v);
    assert IsRoot(s, Nodes(work), v);
    if |work| > 1 {
      assert WentDown(g, work, |work| - 2);
      assert SuspendedAt(g, Nodes(work), counts, Nodes(work)[|work| - 2], v);
    }
    ClosedRootKeepsInv(g, s, Nodes(work), counts, v, below);
    CloseTop(g, Pop(s, v, below), work, |g[v]|);
  }

  /** Pops the stack down to and including `v`; returns what was popped, in ascending order. */
  method PopComponent(stack: seq<Node>, v: Node) returns (rest: seq<Node>, component: seq<Node>)
    requires v in stack
    ensures |rest| < |stack| && rest == stack[..|rest|] && stack[|rest|] == v
    ensures StrictlyAscending(component) && forall y :: y in component <==> y in stack[|rest|..]
  {
    rest := stack;
    var members: set<Node> := {};
    var popped := false;
    while !popped
      invariant |rest| <= |stack| && rest == stack[..|rest|]
      invariant popped ==> |rest| < |stack| && stack[|rest|] == v
      invariant !popped ==> v in rest
      invariant forall y :: y in members <==> y in stack[|rest|..]
      decreases |rest|, !popped
    {
      var member := rest[|rest| - 1];
      assert stack[|rest| - 1..] == [member] + stack[|rest|..];
      assert rest == rest[..|rest| - 1] + [member];
      rest := rest[..|rest| - 1];
      members := members + {member};
      popped := member == v;
    }
    component := Ascending(members);
  }

  lemma PoppedIsSegment(s: Search, v: Node, below: nat, component: seq<Node>)
    requires StackOk(s) && below < |s.stack| && s.stack[below] == v
    requires StrictlyAscending(component) && forall y :: y in component <==> y in s.stack[below..]
    ensures component == Ascending(Segment(s, v))
  {
    forall y
      ensures y in s.stack[below..] <==> y in Segment(s, v)
    {
      if y in s.stack {
        var i :| 0 <= i < |s.stack| && s.stack[i] == y;
        if i >= below { assert s.stack[below..][i - below] == y; }
      }
    }
    AscendingUnique(component, Ascending(Segment(s, v)));
  }

  /** Looks at the remaining children of the innermost node, up to the first one not numbered yet. */
  method LookAtChildren(g: Graph, before: Search, waiting: seq<Suspended>, v: Node, next: nat)
    returns (s: Search, position: nat)
    requires Total(g) && waiting != [] && waiting[|waiting| - 1].node == v && v in g
    requires Open(g, before, waiting, next)
    ensures Open(g, s, waiting, position) && s.index == before.index
    ensures position <= |g[v]| && (position < |g[v]| ==> g[v][position] !in s.index)
  {
    s := before;
    position := next;
    while position < |g[v]| && g[v][position] in s.index
      invariant position <= |g[v]| && Open(g, s, waiting, position)
      invariant s.index == before.index
    {
      TopIsNumbered(g, s, waiting, position);
      LookOnce(g, s, waiting, position);
      s := Look(s, v, g[v][position]);
      position := position + 1;
    }
  }

  /** Numbers the innermost node when the search first comes to it. */
  method EnterTop(g: Graph, before: Search, waiting: seq<Suspended>) returns (s: Search)
    requires waiting != [] && Between(g, before, waiting)
    ensures var top := waiting[|waiting| - 1];
            && top.node in g && Open(g, s, waiting, top.next)
            && s.index.Keys == if top.next == 0 then before.index.Keys + {top.node} else before.index.Keys
    ensures waiting[|waiting| - 1].next == 0 ==> waiting[|waiting| - 1].node !in before.index
  {
    var top := waiting[|waiting| - 1];
    OpenTop(g, before, waiting);
    s := if top.next == 0 then Enter(before, top.node) else before;
  }

  /** One round of the search. */
  method Round(g: Graph, before: Search, waiting: seq<Suspended>) returns (s: Search, work: seq<Suspended>)
    requires Total(g) && waiting != [] && Between(g, before, waiting)
    ensures Between(g, s, work)
    ensures var top := waiting[|waiting| - 1];
            s.index.Keys == if top.next == 0 then before.index.Keys + {top.node} else before.index.Keys
    ensures waiting[|waiting| - 1].next == 0 ==> waiting[|waiting| - 1].node !in before.index
    ensures work == Front(waiting) || (work != [] && work[|work| - 1].next == 0)
  {
    var top := waiting[|waiting| - 1];
    var v := top.node;
    s := EnterTop(g, before, waiting);
    var position;
    s, position := LookAtChildren(g, s, waiting, v, top.next);
    s, work := Proceed(g, s, waiting, v, position);
  }

  /** Goes down to the child that is not numbered yet, or closes the node when there is none. */
  method Proceed(g: Graph, before: Search, waiting: seq<Suspended>, v: Node, position: nat)
    returns (s: Search, work: seq<Suspended>)
    requires Total(g) && waiting != [] && waiting[|waiting| - 1].node == v && v in g
    requires Open(g, before, waiting, position)
    requires position <= |g[v]| && (position < |g[v]| ==> g[v][position] !in before.index)
    ensures Between(g, s, work) && s.index == before.index
    ensures work == Front(waiting) || (work != [] && work[|work| - 1].next == 0)
  {
    if position < |g[v]| {
      GoDown(g, before, waiting, position, g[v][position]);
      s := before;
      work := Front(waiting) + [Suspended(v, position + 1), Suspended(g[v][position], 0)];
    } else {
      s := Close(g, before, waiting, v);
      work := Front(waiting);
    }
  }

  /** Closes the innermost open node, whose children have all been looked at. */
  method Close(g: Graph, before: Search, waiting: seq<Suspended>, v: Node) returns (s: Search)
    requires waiting != [] && waiting[|waiting| - 1].node == v && v in g && Open(g, before, waiting, |g[v]|)
    ensures Between(g, s, Front(waiting)) && s.index == before.index
  {
    s := before;
    TopIsNumbered(g, s, waiting, |g[v]|);
    if s.index[v] == s.lowlink[v] {
      var rest, component := PopComponent(s.stack, v);
      PoppedIsSegment(s, v, |rest|, component);
      CloseRoot(g, s, waiting, v, |rest|);
      s := s.(stack := rest, components := s.components + [component]);
    } else {
      InnerHasParent(g, s, waiting, v, |g[v]|);
      CloseInner(g, s, waiting, v, waiting[|waiting| - 2].node);
    }
    if |waiting| > 1 {
      // A no-op when the component was just popped: the parent was numbered first.
      s := Lower(s, waiting[|waiting| - 2].node, s.lowlink[v]);
    }
  }

  /** Searches everything reachable from `root`. */
  method SearchFrom(g: Graph, before: Search, root: Node) returns (s: Search)
    requires Total(g) && Inv(g, before, [], []) && root in g && root !in before.index
    ensures Inv(g, s, [], []) && before.index.Keys <= s.index.Keys && root in s.index
  {
    s := before;
    var work := [Suspended(root, 0)];
    SearchStarts(g, s, root);
    while work != []
      invariant Between(g, s, work)
      invariant before.index.Keys <= s.index.Keys
      invariant root in s.index || work == [Suspended(root, 0)]
      decreases |g.Keys - s.index.Keys|, work == [] || work[|work| - 1].next != 0, |work|
    {
      s, work := RoundOn(g, s, work);
    }
    SearchEnds(g, s);
  }

  lemma SearchStarts(g: Graph, s: Search, root: Node)
    requires Total(g) && Inv(g, s, [], []) && root in g && root !in s.index
    ensures Between(g, s, [Suspended(root, 0)])
  {
    var work := [Suspended(root, 0)];
    assert Front(Nodes(work)) == [] && Front(Counts(work)) == [];
  }

  lemma SearchEnds(g: Graph, s: Search)
    requires Between(g, s, [])
    ensures Inv(g, s, [], [])
  {
    assert Nodes([]) == [] && Counts([]) == [];
  }

  /** A round numbers a node, or is about to, or closes one. */
  method RoundOn(g: Graph, before: Search, waiting: seq<Suspended>) returns (s: Search, work: seq<Suspended>)
    requires Total(g) && waiting != [] && Between(g, before, waiting)
    ensures Between(g, s, work) && before.index.Keys <= s.index.Keys
    ensures waiting[|waiting| - 1].next == 0 ==> waiting[|waiting| - 1].node in s.index
    ensures || |g.Keys - s.index.Keys| < |g.Keys - before.index.Keys|
            || (s.index.Keys == before.index.Keys && waiting[|waiting| - 1].next != 0
                && (work == Front(waiting) || (work != [] && work[|work| - 1].next == 0)))
  {
    s, work := Round(g, before, waiting);
    BetweenNumbered(g, s, work);
    if before.index.Keys != s.index.Keys {
      FewerLeft(g.Keys, before.index.Keys, s.index.Keys);
    }
  }

  lemma BetweenNumbered(g: Graph, s: Search, work: seq<Suspended>)
    requires Between(g, s, work)
    ensures s.index.Keys <= g.Keys
  {
  }

  ghost predicate NonEmpty(components: seq<seq<Node>>) {
    forall i :: 0 <= i < |components| ==> |components[i]| > 0
  }

  /** The components ordered by their smallest member. */
  ghost predicate OrderedByFirst(components: seq<seq<Node>>) {
    && NonEmpty(components)
    && (forall i, j :: 0 <= i < j < |components| ==> components[i][0] < components[j][0])
  }

  function Insert(c: seq<Node>, sorted: seq<seq<Node>>): (r: seq<seq<Node>>)
    requires |c| > 0 && NonEmpty(sorted)
    ensures NonEmpty(r)
    ensures forall d :: d in r <==> d in sorted || d == c
  {
    if sorted == [] then [c]
    else if c[0] <= sorted[0][0] then [c] + sorted
    else [sorted[0]] + Insert(c, sorted[1..])
  }

  lemma {:induction false} InsertKeepsOrder(c: seq<Node>, sorted: seq<seq<Node>>)
    requires |c| > 0 && OrderedByFirst(sorted)
    requires forall i :: 0 <= i < |sorted| ==> sorted[i][0] != c[0]
    ensures OrderedByFirst(Insert(c, sorted))
  {
    if sorted != [] && c[0] > sorted[0][0] {
      var rest := Insert(c, sorted[1..]);
      InsertKeepsOrder(c, sorted[1..]);
      forall i | 0 <= i < |rest|
        ensures sorted[0][0] < rest[i][0]
      {
        assert rest[i] in rest;
        if rest[i] != c {
          var k :| 1 <= k < |sorted| && sorted[k] == rest[i];
        }
      }
    }
  }

  function SortByFirst(components: seq<seq<Node>>): (r: seq<seq<Node>>)
    requires NonEmpty(components)
    ensures NonEmpty(r)
    ensures forall c :: c in r <==> c in components
  {
    if components == [] then [] else Insert(components[0], SortByFirst(components[1..]))
  }

  lemma {:induction false} SortByFirstOrders(components: seq<seq<Node>>)
    requires NonEmpty(components) && Disjoint(components)
    ensures OrderedByFirst(SortByFirst(components))
  {
    if components != [] {
      var rest := components[1..];
      var sorted := SortByFirst(rest);
      assert Disjoint(rest) by {
        assert forall i :: 0 <= i < |rest| ==> rest[i] == components[i + 1];
      }
      SortByFirstOrders(rest);
      forall i | 0 <= i < |sorted|
        ensures sorted[i][0] != components[0][0]
      {
        assert sorted[i] in sorted;
        var j :| 1 <= j < |components| && components[j] == sorted[i];
        assert components[0][0] in components[0];
        assert components[j][0] in components[j];
      }
      InsertKeepsOrder(components[0], sorted);
    }
  }

  /** The strongly connected components, ordered by their smallest members. */
  method StronglyConnectedComponents(nodes: seq<Node>, edges: Graph) returns (components: seq<seq<Node>>)
    requires forall v :: v in nodes <==> v in edges
    requires Total(edges)
    ensures forall c :: c in components ==> IsComponent(edges, c)
    ensures Covers(components, edges.Keys)
    ensures OrderedByFirst(components)
  {
    var s := Search(map[], map[], 0, [], []);
    assert s.Done() == {};
    for i := 0 to |nodes|
      invariant Inv(edges, s, [], [])
      invariant forall k :: 0 <= k < i ==> nodes[k] in s.index
    {
      if nodes[i] !in s.index {
        assert nodes[i] in nodes;
        s := SearchFrom(edges, s, nodes[i]);
      }
    }
    NothingOpen(edges, s);
    assert s.Done() == edges.Keys;
    components := SortByFirst(s.components);
    SortByFirstOrders(s.components);
  }

  lemma SomeNodeOpen(g: Graph, s: Search, gray: seq<Node>, x: Node)
    requires Upward(g, s, gray) && x in s.stack
    ensures exists y :: y in gray
  {
    assert ReachesOpen(g, s, gray, x);
  }

  lemma NothingOpen(g: Graph, s: Search)
    requires Inv(g, s, [], [])
    ensures s.stack == [] && NonEmpty(s.components) && s.index.Keys <= g.Keys
  {
    if s.stack != [] {
      SomeNodeOpen(g, s, [], s.stack[0]);
    }
    assert forall i :: 0 <= i < |s.components| ==> s.components[i] in s.components;
  }
}
