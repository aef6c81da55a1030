/** Breadth-first search: what it reaches, and the order in which it takes nodes off its queue. */
module BreadthFirst {
  import opened Graphs

  /** The state of a breadth-first search: what has been reached, and which of it is still queued. */
  ghost predicate Frontier(g: Graph, root: Node, reached: set<Node>, queue: seq<Node>) {
    && reached <= g.Keys
    && (forall b :: b in queue ==> b in reached)
    && (forall b :: b in reached ==> Reach(g, root, b))
    && (forall a, b :: a in reached && a !in queue && Edge(g, a, b) ==> b in reached)
  }

  /** The nodes of the graph among `targets` that were not reached before, each once, in order. */
  function Fresh(g: Graph, targets: seq<Node>, reached: set<Node>): (r: seq<Node>)
    ensures forall b :: b in r <==> b in targets && b in g && b !in reached
    ensures Distinct(r)
  {
    if targets == [] then []
    else if targets[0] in g && targets[0] !in reached then
      [targets[0]] + Fresh(g, targets[1..], reached + {targets[0]})
    else Fresh(g, targets[1..], reached)
  }

  lemma {:induction false} FreshConcat(g: Graph, a: seq<Node>, b: seq<Node>, reached: set<Node>)
    ensures Fresh(g, a + b, reached) == Fresh(g, a, reached) + Fresh(g, b, reached + Members(Fresh(g, a, reached)))
  {
    if a == [] {
      assert a + b == b && reached + Members([]) == reached;
    } else {
      assert (a + b)[1..] == a[1..] + b;
      var first, rest := a[0], a[1..];
      if first in g && first !in reached {
        FreshConcat(g, rest, b, reached + {first});
        var added := Fresh(g, rest, reached + {first});
        assert reached + {first} + Members(added) == reached + Members([first] + added);
        assert [first] + (added + Fresh(g, b, reached + {first} + Members(added)))
            == ([first] + added) + Fresh(g, b, reached + {first} + Members(added));
      } else {
        FreshConcat(g, rest, b, reached);
      }
    }
  }

  lemma OneMoreTarget(g: Graph, targets: seq<Node>, i: nat, reached: set<Node>)
    requires i < |targets|
    ensures var before := Fresh(g, targets[..i], reached);
            Fresh(g, targets[..i + 1], reached)
            == before + if targets[i] in g && targets[i] !in reached + Members(before) then [targets[i]] else []
  {
    assert targets[..i + 1] == targets[..i] + [targets[i]];
    FreshConcat(g, targets[..i], [targets[i]], reached);
  }

  /** Takes one node off the queue and enqueues whichever of its targets were not reached before. */
  method Discover(present: set<Node>, ghost g: Graph, ghost root: Node, targets: seq<Node>,
                  before: set<Node>, waiting: seq<Node>)
    returns (reached: set<Node>, queue: seq<Node>)
    requires present == g.Keys
    requires waiting != [] && waiting[0] in g && Frontier(g, root, before, waiting)
    requires g[waiting[0]] == targets
    ensures queue == waiting[1..] + Fresh(g, targets, before)
    ensures reached == before + Members(Fresh(g, targets, before))
    ensures Frontier(g, root, reached, queue)
    ensures |g.Keys - reached| < |g.Keys - before| || (reached == before && queue == waiting[1..])
    ensures Distinct(waiting) ==> Distinct(queue)
  {
    reached, queue := Enqueue(present, g, targets, before, waiting[1..]);
    FrontierMoves(g, root, before, waiting, Fresh(g, targets, before));
    FreshLeavesFewer(g, targets, before);
  }

  method Enqueue(present: set<Node>, ghost g: Graph, targets: seq<Node>, before: set<Node>, waiting: seq<Node>)
    returns (reached: set<Node>, queue: seq<Node>)
    requires present == g.Keys
    ensures queue == waiting + Fresh(g, targets, before)
    ensures reached == before + Members(Fresh(g, targets, before))
  {
    reached := before;
    queue := waiting;
    for i := 0 to |targets|
      invariant queue == waiting + Fresh(g, targets[..i], before)
      invariant reached == before + Members(Fresh(g, targets[..i], before))
    {
      var target := targets[i];
      OneMoreTarget(g, targets, i, before);
      if target in present && target !in reached {
        reached := reached + {target};
        queue := queue + [target];
      }
    }
    assert targets[..|targets|] == targets;
  }

  lemma FrontierMoves(g: Graph, root: Node, reached: set<Node>, waiting: seq<Node>, added: seq<Node>)
    requires waiting != [] && waiting[0] in g && Frontier(g, root, reached, waiting)
    requires added == Fresh(g, g[waiting[0]], reached)
    ensures Frontier(g, root, reached + Members(added), waiting[1..] + added)
    ensures Distinct(waiting) ==> Distinct(waiting[1..] + added)
  {
    var rest := waiting[1..];
    assert forall b :: b in waiting ==> b == waiting[0] || b in rest;
    assert forall b :: b in rest ==> b in waiting;
    assert forall i :: 0 <= i < |rest| ==> rest[i] in reached;
    assert forall i :: 0 <= i < |added| ==> added[i] in added;
    forall b | b in added
      ensures Reach(g, root, b)
    {
      assert waiting[0] in waiting;
      ReachThenEdge(g, root, waiting[0], b);
    }
  }

  lemma FrontierDone(g: Graph, root: Node, reached: set<Node>)
    requires Frontier(g, root, reached, [])
    requires root in g ==> root in reached
    ensures forall b :: b in reached <==> Reach(g, root, b)
  {
    assert Closed(g, reached);
    forall b | Reach(g, root, b)
      ensures b in reached
    {
      ReachInGraph(g, root, b);
      ReachStaysInClosed(g, reached, root, b);
    }
  }

  // The order of the search.

  function TargetsOf(g: Graph, a: Node): seq<Node> {
    if a in g then g[a] else []
  }

  /** The order in which a queue yields nodes, each enqueuing its fresh targets when it is taken off. */
  function QueueOrder(g: Graph, queue: seq<Node>, reached: set<Node>): seq<Node>
    requires reached <= g.Keys
    decreases |g.Keys - reached|, |queue|
  {
    if queue == [] then []
    else
      var added := Fresh(g, TargetsOf(g, queue[0]), reached);
      FreshLeavesFewer(g, TargetsOf(g, queue[0]), reached);
      [queue[0]] + QueueOrder(g, queue[1..] + added, reached + Members(added))
  }

  lemma FreshLeavesFewer(g: Graph, targets: seq<Node>, reached: set<Node>)
    requires reached <= g.Keys
    ensures var added := Fresh(g, targets, reached);
            && reached + Members(added) <= g.Keys
            && if added == [] then reached + Members(added) == reached
               else |g.Keys - (reached + Members(added))| < |g.Keys - reached|
  {
    var added := Fresh(g, targets, reached);
    if added != [] {
      assert added[0] in added;
      FewerLeft(g.Keys, reached, reached + Members(added));
    }
  }

  function AllTargets(g: Graph, level: seq<Node>): seq<Node> {
    if level == [] then [] else TargetsOf(g, level[0]) + AllTargets(g, level[1..])
  }

  /** Level after level: the given one, then the fresh targets of all of it, and so on. */
  function Levels(g: Graph, level: seq<Node>, reached: set<Node>): seq<Node>
    requires reached <= g.Keys
    decreases |g.Keys - reached|, |level|
  {
    if level == [] then []
    else
      var next := Fresh(g, AllTargets(g, level), reached);
      FreshLeavesFewer(g, AllTargets(g, level), reached);
      level + Levels(g, next, reached + Members(next))
  }

  /** The nodes reachable from `root`, nearer ones first: level by level, in the order of their targets. */
  function LevelOrder(g: Graph, root: Node): seq<Node> {
    if root in g then Levels(g, [root], {root}) else []
  }

  /** A queue that holds the rest of one level and the beginning of the next works through the levels. */
  ghost predicate FollowsLevels(g: Graph, level: seq<Node>, next: seq<Node>, reached: set<Node>)
    requires reached <= g.Keys
  {
    var added := Fresh(g, AllTargets(g, level), reached);
    FreshLeavesFewer(g, AllTargets(g, level), reached);
    QueueOrder(g, level + next, reached) == level + Levels(g, next + added, reached + Members(added))
  }

  lemma {:induction false} QueueFollowsLevels(g: Graph, level: seq<Node>, next: seq<Node>, reached: set<Node>)
    requires reached <= g.Keys
    ensures FollowsLevels(g, level, next, reached)
    decreases |g.Keys - reached|, |level + next|, if level == [] then 1 else 0
  {
    if level != [] {
      var here := Fresh(g, TargetsOf(g, level[0]), reached);
      FreshLeavesFewer(g, TargetsOf(g, level[0]), reached);
      QueueFollowsLevels(g, level[1..], next + here, reached + Members(here));
      TakesOneOff(g, level, next, reached, here);
    } else if next != [] {
      assert level + next == next && next + [] == next;
      QueueFollowsLevels(g, next, [], reached);
      TurnsToNext(g, next, reached);
    } else {
      TurnsToNext(g, next, reached);
    }
  }

  /** At the end of a level, the nodes of the next one are a level of their own. */
  lemma TurnsToNext(g: Graph, next: seq<Node>, reached: set<Node>)
    requires reached <= g.Keys
    requires next != [] ==> FollowsLevels(g, next, [], reached)
    ensures FollowsLevels(g, [], next, reached)
  {
    var added := Fresh(g, AllTargets(g, next), reached);
    FreshLeavesFewer(g, AllTargets(g, next), reached);
    NothingAdded(next, added, reached);
  }

  lemma NothingAdded(next: seq<Node>, added: seq<Node>, reached: set<Node>)
    ensures [] + next == next && next + [] == next && [] + added == added
    ensures reached + Members([]) == reached
  {
  }

  /** What a level adds is what its first node adds and then what the others add. */
  lemma LevelSplits(g: Graph, level: seq<Node>, reached: set<Node>, here: seq<Node>, later: seq<Node>)
    requires level != [] && here == Fresh(g, TargetsOf(g, level[0]), reached)
    requires later == Fresh(g, AllTargets(g, level[1..]), reached + Members(here))
    ensures Fresh(g, AllTargets(g, level), reached) == here + later
    ensures reached + Members(here) + Members(later) == reached + Members(here + later)
  {
    FreshConcat(g, TargetsOf(g, level[0]), AllTargets(g, level[1..]), reached);
  }

  lemma QueueTakes(g: Graph, queue: seq<Node>, rest: seq<Node>, reached: set<Node>, here: seq<Node>, after: set<Node>)
    requires queue != [] && reached <= g.Keys && after <= g.Keys
    requires here == Fresh(g, TargetsOf(g, queue[0]), reached) && after == reached + Members(here)
    requires rest == queue[1..] + here
    ensures QueueOrder(g, queue, reached) == [queue[0]] + QueueOrder(g, rest, after)
  {
  }

  /** Taking one node off the queue moves it from what is still to come to what has been taken. */
  lemma QueueMoves(g: Graph, queue: seq<Node>, rest: seq<Node>, reached: set<Node>, here: seq<Node>, after: set<Node>,
                   visited: seq<Node>, order: seq<Node>)
    requires queue != [] && reached <= g.Keys && after <= g.Keys
    requires here == Fresh(g, TargetsOf(g, queue[0]), reached) && after == reached + Members(here)
    requires rest == queue[1..] + here && visited + QueueOrder(g, queue, reached) == order
    ensures (visited + [queue[0]]) + QueueOrder(g, rest, after) == order
  {
    QueueTakes(g, queue, rest, reached, here, after);
    Regrouped(visited, [queue[0]], QueueOrder(g, rest, after));
  }

  lemma TakenApart(level: seq<Node>, next: seq<Node>, here: seq<Node>)
    requires level != []
    ensures (level + next)[0] == level[0] && (level + next)[1..] + here == level[1..] + (next + here)
  {
  }

  lemma PutTogether(level: seq<Node>, beyond: seq<Node>)
    requires level != []
    ensures [level[0]] + (level[1..] + beyond) == level + beyond
  {
  }

  lemma Regrouped(a: seq<Node>, b: seq<Node>, c: seq<Node>)
    ensures (a + b) + c == a + (b + c)
  {
  }

  lemma TakesOneOff(g: Graph, level: seq<Node>, next: seq<Node>, reached: set<Node>, here: seq<Node>)
    requires reached <= g.Keys && level != [] && here == Fresh(g, TargetsOf(g, level[0]), reached)
    requires reached + Members(here) <= g.Keys
    requires FollowsLevels(g, level[1..], next + here, reached + Members(here))
    ensures FollowsLevels(g, level, next, reached)
  {
    var rest, after := level[1..], reached + Members(here);
    var later := Fresh(g, AllTargets(g, rest), after);
    FreshLeavesFewer(g, AllTargets(g, rest), after);
    TakenApart(level, next, here);
    QueueTakes(g, level + next, rest + (next + here), reached, here, after);
    LevelSplits(g, level, reached, here, later);
    Regrouped(next, here, later);
    PutTogether(level, Levels(g, next + (here + later), after + Members(later)));
  }

  /** A search from `root` takes nodes off its queue level by level. */
  lemma SearchIsLevelOrder(g: Graph, root: Node)
    requires root in g
    ensures QueueOrder(g, [root], {root}) == LevelOrder(g, root)
  {
    QueueFollowsLevels(g, [root], [], {root});
    var level, reached := [root], {root};
    FreshLeavesFewer(g, AllTargets(g, level), reached);
    var added := Fresh(g, AllTargets(g, level), reached);
    assert level + [] == level && [] + added == added;
  }

  /** What a search has still to take off its queue: what is queued, and what is reachable but not yet reached. */
  lemma {:induction false} QueueOrderCovers(g: Graph, root: Node, queue: seq<Node>, reached: set<Node>)
    requires Frontier(g, root, reached, queue) && Distinct(queue) && root in reached
    ensures forall b :: b in QueueOrder(g, queue, reached) <==> b in queue || (Reach(g, root, b) && b !in reached)
    ensures Distinct(QueueOrder(g, queue, reached))
    decreases |g.Keys - reached|, |queue|
  {
    if queue == [] {
      FrontierDone(g, root, reached);
    } else {
      assert queue[0] in queue;
      var added := Fresh(g, g[queue[0]], reached);
      var rest := queue[1..] + added;
      FreshLeavesFewer(g, g[queue[0]], reached);
      FrontierMoves(g, root, reached, queue, added);
      QueueOrderCovers(g, root, rest, reached + Members(added));
      OneOffCovers(g, root, queue, added, reached, QueueOrder(g, rest, reached + Members(added)));
    }
  }

  lemma OneOffCovers(g: Graph, root: Node, queue: seq<Node>, added: seq<Node>, reached: set<Node>, order: seq<Node>)
    requires queue != [] && Frontier(g, root, reached, queue) && Distinct(queue) && queue[0] in g
    requires added == Fresh(g, g[queue[0]], reached) && Distinct(order)
    requires forall b :: b in order <==>
                         b in queue[1..] + added || (Reach(g, root, b) && b !in reached + Members(added))
    ensures forall b :: b in [queue[0]] + order <==> b in queue || (Reach(g, root, b) && b !in reached)
    ensures Distinct([queue[0]] + order)
  {
    assert queue[0] in queue && queue == [queue[0]] + queue[1..];
    forall b | b in added
      ensures Reach(g, root, b)
    {
      ReachThenEdge(g, root, queue[0], b);
    }
    assert queue[0] !in queue[1..];
    assert queue[0] !in order;
    assert forall i :: 0 <= i < |order| ==> order[i] in order;
  }

  /** The level order lists exactly the reachable nodes, each once. */
  lemma LevelOrderIsReach(g: Graph, root: Node)
    ensures forall b :: b in LevelOrder(g, root) <==> Reach(g, root, b)
    ensures Distinct(LevelOrder(g, root))
  {
    if root in g {
      ReachSelf(g, root);
      SearchIsLevelOrder(g, root);
      QueueOrderCovers(g, root, [root], {root});
    } else {
      forall b
        ensures !Reach(g, root, b)
      {
        if Reach(g, root, b) { ReachInGraph(g, root, b); }
      }
    }
  }
}
