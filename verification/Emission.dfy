/** Where a block stands in the emission order relative to another. */
module Emission {
  import opened Nir
  import opened Graphs
  import opened Ordered
  import opened Postorder

  /** What a traversal finishes is what it newly visits, and all of it is reachable from what it was given. */
  ghost predicate FinishesReached(g: Graph, targets: seq<BlockId>, visited: set<BlockId>, r: Finishing) {
    && r.visited == visited + Members(r.finished)
    && (forall b :: b in targets ==> b in r.visited)
    && forall x :: x in r.finished ==> x !in visited && exists a :: a in targets && Reach(g, a, x)
  }

  lemma {:induction false} DepthFirstFinishesReached(blocks: Blocks, live: set<BlockId>, targets: seq<BlockId>,
                                                     visited: set<BlockId>)
    requires visited <= live <= blocks.Keys && forall b :: b in targets ==> b in live
    ensures FinishesReached(LiveCfg(blocks, live), targets, visited, DepthFirst(blocks, live, targets, visited))
    decreases |live - visited|, |targets|
  {
    if targets != [] {
      var b, others := targets[0], targets[1..];
      assert targets == [b] + others && forall c :: c in others ==> c in targets;
      if b in visited {
        DepthFirstFinishesReached(blocks, live, others, visited);
      } else {
        FewerLeft(live, visited, visited + {b});
        var successors := SuccessorsIn(blocks, live, b);
        var inner := DepthFirst(blocks, live, successors, visited + {b});
        DepthFirstFinishesReached(blocks, live, successors, visited + {b});
        FewerLeft(live, visited, inner.visited);
        DepthFirstFinishesReached(blocks, live, others, inner.visited);
        ReachedThroughFirst(blocks, live, b, others, visited, inner);
      }
    }
  }

  lemma ReachedThroughFirst(blocks: Blocks, live: set<BlockId>, b: BlockId, others: seq<BlockId>,
                            visited: set<BlockId>, inner: Finishing)
    requires visited <= inner.visited <= live <= blocks.Keys && b in live && b !in visited
    requires forall c :: c in others ==> c in live
    requires FinishesReached(LiveCfg(blocks, live), SuccessorsIn(blocks, live, b), visited + {b}, inner)
    requires FinishesReached(LiveCfg(blocks, live), others, inner.visited,
                             DepthFirst(blocks, live, others, inner.visited))
    ensures var rest := DepthFirst(blocks, live, others, inner.visited);
            FinishesReached(LiveCfg(blocks, live), [b] + others, visited,
                            Finishing(rest.visited, inner.finished + [b] + rest.finished))
  {
    var g, targets := LiveCfg(blocks, live), [b] + others;
    var rest := DepthFirst(blocks, live, others, inner.visited);
    ReachSelf(g, b);
    forall x | x in inner.finished
      ensures Reach(g, b, x)
    {
      var a :| a in SuccessorsIn(blocks, live, b) && Reach(g, a, x);
      ReachEdge(g, b, a);
      ReachTransitive(g, b, a, x);
    }
    forall x | x in inner.finished + [b] + rest.finished
      ensures x !in visited && exists a :: a in targets && Reach(g, a, x)
    {
      if x in rest.finished {
        var a :| a in others && Reach(g, a, x);
        assert a in targets;
      } else {
        assert b in targets && Reach(g, b, x);
      }
    }
  }

  /** Traversing one list after another is traversing both. */
  lemma {:induction false} DepthFirstConcat(blocks: Blocks, live: set<BlockId>, a: seq<BlockId>, b: seq<BlockId>,
                                            visited: set<BlockId>)
    requires visited <= live && (forall x :: x in a ==> x in live) && forall x :: x in b ==> x in live
    ensures forall x :: x in a + b ==> x in live
    ensures var first := DepthFirst(blocks, live, a, visited);
            var second := DepthFirst(blocks, live, b, first.visited);
            DepthFirst(blocks, live, a + b, visited)
            == Finishing(second.visited, first.finished + second.finished)
    decreases |live - visited|, |a|
  {
    assert forall x :: x in a + b ==> x in a || x in b;
    if a == [] {
      assert a + b == b;
    } else if a[0] in visited {
      assert (a + b)[1..] == a[1..] + b && (a + b)[0] == a[0];
      DepthFirstConcat(blocks, live, a[1..], b, visited);
    } else {
      assert a[0] in a;
      FewerLeft(live, visited, visited + {a[0]});
      var inner := DepthFirst(blocks, live, SuccessorsIn(blocks, live, a[0]), visited + {a[0]});
      FewerLeft(live, visited, inner.visited);
      DepthFirstConcat(blocks, live, a[1..], b, inner.visited);
      FirstOfBoth(blocks, live, a, b, visited, inner);
    }
  }

  lemma FirstOfBoth(blocks: Blocks, live: set<BlockId>, a: seq<BlockId>, b: seq<BlockId>, visited: set<BlockId>,
                    inner: Finishing)
    requires visited <= live && a != [] && a[0] !in visited
    requires (forall x :: x in a ==> x in live) && (forall x :: x in b ==> x in live)
    requires forall x :: x in a[1..] + b ==> x in live
    requires visited + {a[0]} <= live
             && inner == DepthFirst(blocks, live, SuccessorsIn(blocks, live, a[0]), visited + {a[0]})
    requires var rest := DepthFirst(blocks, live, a[1..], inner.visited);
             var last := DepthFirst(blocks, live, b, rest.visited);
             DepthFirst(blocks, live, a[1..] + b, inner.visited)
             == Finishing(last.visited, rest.finished + last.finished)
    ensures forall x :: x in a + b ==> x in live
    ensures var first := DepthFirst(blocks, live, a, visited);
            var second := DepthFirst(blocks, live, b, first.visited);
            DepthFirst(blocks, live, a + b, visited)
            == Finishing(second.visited, first.finished + second.finished)
  {
    assert forall x :: x in a + b ==> x in a || x in b;
    assert a == [a[0]] + a[1..] && a + b == [a[0]] + (a[1..] + b);
    TakesFirst(blocks, live, a, visited, a[0], a[1..]);
    TakesFirst(blocks, live, a + b, visited, a[0], a[1..] + b);
    var rest := DepthFirst(blocks, live, a[1..], inner.visited);
    var last := DepthFirst(blocks, live, b, rest.visited);
    Grouped(inner.finished, [a[0]], rest.finished, last.finished);
  }

  lemma Grouped(a: seq<BlockId>, b: seq<BlockId>, c: seq<BlockId>, d: seq<BlockId>)
    ensures (a + b + c) + d == a + b + (c + d)
  {
  }

  /** `x` is emitted before `y`. */
  ghost predicate EmittedFirst(order: seq<BlockId>, x: BlockId, y: BlockId) {
    exists i, j :: 0 <= i < j < |order| && order[i] == x && order[j] == y
  }

  lemma LaterInReverse(a: seq<BlockId>, b: seq<BlockId>, x: BlockId, y: BlockId)
    requires x in a && y in b
    ensures EmittedFirst(Reverse(a + b), y, x)
  {
    var all := a + b;
    var i :| 0 <= i < |a| && a[i] == x;
    var j :| 0 <= j < |b| && b[j] == y;
    assert all[i] == x && all[|a| + j] == y;
    assert Reverse(all)[|all| - 1 - i] == x && Reverse(all)[|all| - 1 - (|a| + j)] == y;
  }

  /** Splitting an ascending list at one of its members. */
  lemma SplitAscending(all: seq<BlockId>, t: BlockId) returns (below: seq<BlockId>, above: seq<BlockId>)
    requires StrictlyAscending(all) && t in all
    ensures all == below + above && above != [] && above[0] == t
    ensures forall u :: u in below <==> u in all && u < t
  {
    var k :| 0 <= k < |all| && all[k] == t;
    below, above := all[..k], all[k..];
    forall u | u in all && u < t
      ensures u in below
    {
      var i :| 0 <= i < |all| && all[i] == u;
      assert below[i] == u;
    }
  }

  /** The entry's successors are visited in ascending order: a larger one that no smaller one leads to is emitted
      before every smaller one. */
  lemma LargerSuccessorIsEmittedFirst(blocks: Blocks, reachable: seq<BlockId>, s: BlockId, t: BlockId)
    requires Members(reachable) <= blocks.Keys && 0 in reachable && s in reachable && t in reachable
    requires GoesTo(blocks[0].terminator, s) && GoesTo(blocks[0].terminator, t)
    requires blocks[0].terminator.Branch? || blocks[0].terminator.CondBranch?
    requires s < t && s != 0
    requires forall u: BlockId :: u < t && u in reachable && GoesTo(blocks[0].terminator, u) ==>
               !Reach(LiveCfg(blocks, Members(reachable)), u, t)
    ensures EmittedFirst(EmissionOrder(blocks, reachable), t, s)
  {
    var live := Members(reachable);
    var successors := SuccessorsIn(blocks, live, 0);
    var below, above := SplitAscending(successors, t);
    SplitTraversal(blocks, live, successors, below, above, s, t);
    EntryFinishesLast(blocks, live);
  }

  lemma SplitTraversal(blocks: Blocks, live: set<BlockId>, successors: seq<BlockId>, below: seq<BlockId>,
                       above: seq<BlockId>, s: BlockId, t: BlockId)
    requires live <= blocks.Keys && 0 in live && (forall u :: u in successors ==> u in live)
    requires successors == below + above && s in below && t in above && s != 0 && t != 0
    requires forall u :: u in below ==> !Reach(LiveCfg(blocks, live), u, t)
    ensures EmittedFirst(Reverse(DepthFirst(blocks, live, successors, {0}).finished + [0]), t, s)
  {
    assert forall u :: u in below ==> u in successors;
    assert forall u :: u in above ==> u in successors;
    var first := DepthFirst(blocks, live, below, {0});
    DepthFirstConcat(blocks, live, below, above, {0});
    DepthFirstFinishesReached(blocks, live, below, {0});
    DepthFirstFinishesReached(blocks, live, above, first.visited);
    var second := DepthFirst(blocks, live, above, first.visited);
    assert (first.finished + second.finished) + [0] == first.finished + (second.finished + [0]);
    assert s in first.finished;
    assert t !in first.visited && t in second.finished;
    LaterInReverse(first.finished, second.finished + [0], s, t);
  }

  lemma EntryFinishesLast(blocks: Blocks, live: set<BlockId>)
    requires 0 in live
    ensures DepthFirst(blocks, live, [0], {}).finished
            == DepthFirst(blocks, live, SuccessorsIn(blocks, live, 0), {0}).finished + [0]
  {
    TakesFirst(blocks, live, [0], {}, 0, []);
    assert {} + {0} == {0};
  }
}
