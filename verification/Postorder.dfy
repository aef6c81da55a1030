/** Block emission order: reverse postorder of a depth-first traversal. */
module Postorder {
  import opened Wrappers
  import opened Nir
  import opened Graphs
  import opened Ordered

  /** The targets of a branch or a conditional branch; accepted functions have no other terminators that jump. */
  function SuccessorsOf(terminator: Terminator): (successors: seq<BlockId>)
    ensures forall b :: b in successors <==>
                        GoesTo(terminator, b) && (terminator.Branch? || terminator.CondBranch?)
  {
    match terminator
    case Branch(target) => [target]
    case CondBranch(_, thenBlock, elseBlock) => [thenBlock, elseBlock]
    case _ => []
  }

  /** The part of the control-flow graph inside `live`. */
  function LiveCfg(blocks: Blocks, live: set<BlockId>): Graph {
    map id | id in blocks && id in live :: SuccessorsOf(blocks[id].terminator)
  }

  /** An open block, and the position of its first successor still to be looked at. */
  datatype Pending = Pending(block: BlockId, next: nat)

  ghost function Open(work: seq<Pending>): (r: seq<BlockId>)
    ensures |r| == |work| && forall i :: 0 <= i < |work| ==> r[i] == work[i].block
  {
    seq(|work|, i requires 0 <= i < |work| => work[i].block)
  }

  /** The live successors of one block, ascending and without repetition. */
  function LiveSuccessors(block: BasicBlock, live: set<BlockId>): (r: seq<BlockId>)
    ensures StrictlyAscending(r)
    ensures forall b :: b in r <==> b in live && b in SuccessorsOf(block.terminator)
  {
    Ascending(set b | b in SuccessorsOf(block.terminator) && b in live)
  }

  /** Each block strictly after every other block that dominates it, counting those still open. */
  ghost predicate DominatorsLater(g: Graph, postorder: seq<BlockId>, open: seq<BlockId>) {
    forall i, d {:trigger Dominates(g, ENTRY_BLOCK, d, postorder[i])} ::
      0 <= i < |postorder| && Dominates(g, ENTRY_BLOCK, d, postorder[i]) ==>
                     d == postorder[i] || d in postorder[i + 1..] || d in open
  }

  ghost predicate NoRepeats(s: seq<BlockId>) {
    forall i, j :: 0 <= i < j < |s| ==> s[i] != s[j]
  }

  /** The open blocks form a path from the entry block; only the last may be undeclared. */
  ghost predicate OpenPath(g: Graph, live: set<BlockId>, open: seq<BlockId>) {
    && (open != [] ==> open[0] == ENTRY_BLOCK)
    && (forall i :: 0 <= i < |open| ==> open[i] in live)
    && (forall i {:trigger OpenStep(g, open, i)} :: OpenStep(g, open, i))
  }

  ghost predicate OpenStep(g: Graph, open: seq<BlockId>, i: int) {
    0 <= i < |open| - 1 ==> open[i] in g && open[i + 1] in g[open[i]]
  }

  /** Every successor of an open block before its next position has been visited. */
  ghost predicate Examined(blocks: Blocks, live: set<BlockId>, visited: set<BlockId>, p: Pending) {
    p.block in blocks ==>
      forall k :: 0 <= k < p.next && k < |LiveSuccessors(blocks[p.block], live)| ==>
                    LiveSuccessors(blocks[p.block], live)[k] in visited
  }

  ghost predicate Finished(g: Graph, visited: set<BlockId>, b: BlockId) {
    b in g && Reach(g, ENTRY_BLOCK, b) && forall c :: Edge(g, b, c) ==> c in visited
  }

  ghost predicate AllFinished(g: Graph, visited: set<BlockId>, postorder: seq<BlockId>) {
    forall b {:trigger Finished(g, visited, b)} :: b in postorder ==> Finished(g, visited, b)
  }

  ghost predicate AllExamined(blocks: Blocks, live: set<BlockId>, visited: set<BlockId>, work: seq<Pending>) {
    forall p {:trigger Examined(blocks, live, visited, p)} :: p in work ==> Examined(blocks, live, visited, p)
  }

  ghost predicate Partitions(visited: set<BlockId>, postorder: seq<BlockId>, open: seq<BlockId>) {
    forall b :: b in visited <==> b in postorder || b in open
  }

  ghost predicate Traversal(blocks: Blocks, live: set<BlockId>, visited: set<BlockId>, postorder: seq<BlockId>,
                            work: seq<Pending>)
  {
    var g := LiveCfg(blocks, live);
    && visited <= live
    && Partitions(visited, postorder, Open(work))
    && NoRepeats(postorder + Open(work))
    && OpenPath(g, live, Open(work))
    && AllFinished(g, visited, postorder)
    && AllExamined(blocks, live, visited, work)
    && DominatorsLater(g, postorder, Open(work))
  }

  /** Every block of `order` comes after all of its dominators. */
  ghost predicate DominatorsFirst(g: Graph, order: seq<BlockId>) {
    forall i, d :: 0 <= i < |order| && Dominates(g, ENTRY_BLOCK, d, order[i]) ==> d in order[..i + 1]
  }

  ghost predicate IsEmissionOrder(g: Graph, order: seq<BlockId>) {
    && NoRepeats(order)
    && (forall b :: b in order <==> Reach(g, ENTRY_BLOCK, b))
    && DominatorsFirst(g, order)
  }

  // The traversal by recursion, which the worklist below carries out.

  /** What a traversal has visited, and the order in which it finished blocks. */
  datatype Finishing = Finishing(visited: set<BlockId>, finished: seq<BlockId>)

  function SuccessorsIn(blocks: Blocks, live: set<BlockId>, b: BlockId): (r: seq<BlockId>)
    ensures forall c :: c in r ==> c in live
  {
    if b in blocks then LiveSuccessors(blocks[b], live) else []
  }

  /** Visits each target in turn: depth first, each block once, its successors before it finishes. */
  function DepthFirst(blocks: Blocks, live: set<BlockId>, targets: seq<BlockId>, visited: set<BlockId>): (r: Finishing)
    requires visited <= live && forall b :: b in targets ==> b in live
    ensures visited <= r.visited <= live
    decreases |live - visited|, |targets|
  {
    if targets == [] then Finishing(visited, [])
    else if targets[0] in visited then DepthFirst(blocks, live, targets[1..], visited)
    else
      var b := targets[0];
      FewerLeft(live, visited, visited + {b});
      var inner := DepthFirst(blocks, live, SuccessorsIn(blocks, live, b), visited + {b});
      FewerLeft(live, visited, inner.visited);
      var rest := DepthFirst(blocks, live, targets[1..], inner.visited);
      Finishing(rest.visited, inner.finished + [b] + rest.finished)
  }

  /** The blocks to emit, in order: the reverse of the order in which a traversal from the entry finishes them. */
  function EmissionOrder(blocks: Blocks, reachable: seq<BlockId>): seq<BlockId> {
    var live := Members(reachable);
    Reverse(DepthFirst(blocks, live, if ENTRY_BLOCK in live then [ENTRY_BLOCK] else [], {}).finished)
  }

  /** What is still to be finished: the rest of the top entry's successors, the entry itself, then the entries below. */
  ghost function Unwound(blocks: Blocks, live: set<BlockId>, work: seq<Pending>, visited: set<BlockId>): seq<BlockId>
    requires visited <= live
  {
    if work == [] then []
    else
      var top := work[|work| - 1];
      var successors := SuccessorsIn(blocks, live, top.block);
      var inner := DepthFirst(blocks, live, if top.next <= |successors| then successors[top.next..] else [], visited);
      inner.finished + [top.block] + Unwound(blocks, live, work[..|work| - 1], inner.visited)
  }

  lemma {:induction false} SkipsVisited(blocks: Blocks, live: set<BlockId>, targets: seq<BlockId>,
                                        visited: set<BlockId>, n: nat)
    requires visited <= live && (forall b :: b in targets ==> b in live) && n <= |targets|
    requires forall k :: 0 <= k < n ==> targets[k] in visited
    ensures DepthFirst(blocks, live, targets, visited) == DepthFirst(blocks, live, targets[n..], visited)
    decreases n
  {
    if n > 0 {
      SkipsVisited(blocks, live, targets[1..], visited, n - 1);
      assert targets[1..][n - 1..] == targets[n..];
    }
  }

  lemma TakesFirst(blocks: Blocks, live: set<BlockId>, targets: seq<BlockId>, visited: set<BlockId>, b: BlockId,
                   others: seq<BlockId>)
    requires visited <= live && targets == [b] + others && (forall c :: c in targets ==> c in live) && b !in visited
    ensures b in live && visited + {b} <= live && forall c :: c in others ==> c in live
    ensures var inner := DepthFirst(blocks, live, SuccessorsIn(blocks, live, b), visited + {b});
            var rest := DepthFirst(blocks, live, others, inner.visited);
            DepthFirst(blocks, live, targets, visited)
            == Finishing(rest.visited, inner.finished + [b] + rest.finished)
  {
    assert targets[1..] == others;
    assert targets[0] in targets;
    assert forall c :: c in others ==> c in targets;
  }

  lemma UnwoundTop(blocks: Blocks, live: set<BlockId>, below: seq<Pending>, b: BlockId, n: nat, todo: seq<BlockId>,
                   visited: set<BlockId>, work: seq<Pending>)
    requires visited <= live && n <= |SuccessorsIn(blocks, live, b)| && todo == SuccessorsIn(blocks, live, b)[n..]
    requires work == below + [Pending(b, n)]
    ensures forall c :: c in todo ==> c in live
    ensures var inner := DepthFirst(blocks, live, todo, visited);
            Unwound(blocks, live, work, visited) == inner.finished + [b] + Unwound(blocks, live, below, inner.visited)
  {
    assert work[..|work| - 1] == below;
  }

  lemma TwoMore(below: seq<Pending>, p: Pending, q: Pending)
    ensures below + [p, q] == (below + [p]) + [q]
  {
  }

  lemma Regroup(a: seq<BlockId>, b: seq<BlockId>, c: seq<BlockId>, d: seq<BlockId>, e: seq<BlockId>)
    ensures (a + b + c) + d + e == a + b + (c + d + e)
  {
  }

  /** Descending into the first unvisited successor leaves what is still to be finished as it was. */
  lemma DescendUnwinds(blocks: Blocks, live: set<BlockId>, below: seq<Pending>, b: BlockId, n: nat, position: nat,
                       visited: set<BlockId>, successors: seq<BlockId>, work: seq<Pending>, deeper: seq<Pending>)
    requires visited <= live && successors == SuccessorsIn(blocks, live, b)
    requires n <= position < |successors| && successors[position] !in visited
    requires forall k :: n <= k < position ==> successors[k] in visited
    requires work == below + [Pending(b, n)]
    requires deeper == (below + [Pending(b, position + 1)]) + [Pending(successors[position], 0)]
    ensures visited + {successors[position]} <= live
    ensures Unwound(blocks, live, deeper, visited + {successors[position]}) == Unwound(blocks, live, work, visited)
  {
    var successor := successors[position];
    var inside := SuccessorsIn(blocks, live, successor);
    assert successor in successors;
    var inner := DepthFirst(blocks, live, inside, visited + {successor});
    FromPosition(blocks, live, successors, n, position, visited);
    var rest := DepthFirst(blocks, live, successors[position + 1..], inner.visited);
    UnwoundTop(blocks, live, below, b, n, successors[n..], visited, work);
    var resumed := below + [Pending(b, position + 1)];
    UnwoundTop(blocks, live, resumed, successor, 0, inside, visited + {successor}, deeper);
    UnwoundTop(blocks, live, below, b, position + 1, successors[position + 1..], inner.visited, resumed);
    Regroup(inner.finished, [successor], rest.finished, [b], Unwound(blocks, live, below, rest.visited));
  }

  /** Finishing what is unwound from `work` after `postorder` gives the whole traversal. */
  ghost predicate Remains(blocks: Blocks, live: set<BlockId>, work: seq<Pending>, visited: set<BlockId>,
                          postorder: seq<BlockId>, finished: seq<BlockId>)
  {
    visited <= live && postorder + Unwound(blocks, live, work, visited) == finished
  }

  lemma DescendKeeps(blocks: Blocks, live: set<BlockId>, work: seq<Pending>, visited: set<BlockId>,
                     postorder: seq<BlockId>, finished: seq<BlockId>, top: Pending, position: nat, deeper: seq<Pending>)
    requires Remains(blocks, live, work, visited, postorder, finished)
    requires work != [] && work[|work| - 1] == top && top.block in blocks
    requires top.next <= position < |LiveSuccessors(blocks[top.block], live)|
    requires LiveSuccessors(blocks[top.block], live)[position] !in visited
    requires forall k :: top.next <= k < position && k < |LiveSuccessors(blocks[top.block], live)| ==>
               LiveSuccessors(blocks[top.block], live)[k] in visited
    requires deeper == work[..|work| - 1] + [Pending(top.block, position + 1),
                                             Pending(LiveSuccessors(blocks[top.block], live)[position], 0)]
    ensures Remains(blocks, live, deeper,
                    visited + {LiveSuccessors(blocks[top.block], live)[position]}, postorder, finished)
  {
    var below, successors := work[..|work| - 1], LiveSuccessors(blocks[top.block], live);
    LastApart(work, top);
    TwoMore(below, Pending(top.block, position + 1), Pending(successors[position], 0));
    DescendUnwinds(blocks, live, below, top.block, top.next, position, visited, successors, work, deeper);
  }

  lemma LastApart(work: seq<Pending>, top: Pending)
    requires work != [] && work[|work| - 1] == top
    ensures work == work[..|work| - 1] + [Pending(top.block, top.next)]
  {
  }

  lemma FinishRemains(blocks: Blocks, live: set<BlockId>, work: seq<Pending>, visited: set<BlockId>,
                      postorder: seq<BlockId>, finished: seq<BlockId>, top: BlockId)
    requires Remains(blocks, live, work, visited, postorder, finished)
    requires work != [] && work[|work| - 1].block == top && top in blocks
    requires forall b :: b in LiveSuccessors(blocks[top], live) ==> b in visited
    ensures Remains(blocks, live, work[..|work| - 1], visited, postorder + [top], finished)
  {
    FinishUnwinds(blocks, live, work, visited);
    var rest := Unwound(blocks, live, work[..|work| - 1], visited);
    assert postorder + ([top] + rest) == (postorder + [top]) + rest;
  }

  lemma StartRemains(blocks: Blocks, live: set<BlockId>, work: seq<Pending>, visited: set<BlockId>,
                     finished: seq<BlockId>)
    requires visited <= live && Unwound(blocks, live, work, visited) == finished
    ensures Remains(blocks, live, work, visited, [], finished)
  {
    assert [] + finished == finished;
  }

  lemma NothingRemains(blocks: Blocks, live: set<BlockId>, visited: set<BlockId>, postorder: seq<BlockId>,
                       finished: seq<BlockId>)
    requires Remains(blocks, live, [], visited, postorder, finished)
    ensures postorder == finished
  {
    assert postorder + [] == postorder;
  }

  /** The visited successors before `position` are passed over; the one there is entered. */
  lemma FromPosition(blocks: Blocks, live: set<BlockId>, successors: seq<BlockId>, n: nat, position: nat,
                     visited: set<BlockId>)
    requires visited <= live && (forall c :: c in successors ==> c in live)
    requires n <= position < |successors| && successors[position] !in visited
    requires forall k :: n <= k < position ==> successors[k] in visited
    ensures successors[position] in successors && visited + {successors[position]} <= live
    ensures var inner := DepthFirst(blocks, live, SuccessorsIn(blocks, live, successors[position]),
                                    visited + {successors[position]});
            var rest := DepthFirst(blocks, live, successors[position + 1..], inner.visited);
            DepthFirst(blocks, live, successors[n..], visited)
            == Finishing(rest.visited, inner.finished + [successors[position]] + rest.finished)
  {
    var todo := successors[n..];
    assert forall c :: c in todo ==> c in successors;
    SkipsVisited(blocks, live, todo, visited, position - n);
    assert todo[position - n..] == successors[position..];
    assert successors[position..] == [successors[position]] + successors[position + 1..];
    assert forall c :: c in successors[position..] ==> c in successors;
    TakesFirst(blocks, live, successors[position..], visited, successors[position], successors[position + 1..]);
  }

  lemma FinishUnwinds(blocks: Blocks, live: set<BlockId>, work: seq<Pending>, visited: set<BlockId>)
    requires visited <= live && work != [] && work[|work| - 1].block in blocks
    requires forall b :: b in SuccessorsIn(blocks, live, work[|work| - 1].block) ==> b in visited
    ensures Unwound(blocks, live, work, visited)
            == [work[|work| - 1].block] + Unwound(blocks, live, work[..|work| - 1], visited)
  {
    var top := work[|work| - 1];
    var successors := SuccessorsIn(blocks, live, top.block);
    if top.next <= |successors| {
      var todo := successors[top.next..];
      SkipsVisited(blocks, live, todo, visited, |todo|);
      assert todo[|todo|..] == [];
    }
    assert [] + [top.block] == [top.block];
  }

  lemma StartUnwinds(blocks: Blocks, live: set<BlockId>)
    requires ENTRY_BLOCK in live
    ensures Unwound(blocks, live, [Pending(ENTRY_BLOCK, 0)], {ENTRY_BLOCK})
            == DepthFirst(blocks, live, [ENTRY_BLOCK], {}).finished
  {
    var successors := SuccessorsIn(blocks, live, ENTRY_BLOCK);
    assert successors[0..] == successors && {} + {ENTRY_BLOCK} == {ENTRY_BLOCK};
    var inner := DepthFirst(blocks, live, successors, {ENTRY_BLOCK});
    assert [Pending(ENTRY_BLOCK, 0)][..0] == [] && [ENTRY_BLOCK][1..] == [];
    assert Unwound(blocks, live, [], inner.visited) == [];
    assert DepthFirst(blocks, live, [], inner.visited).finished == [];
  }

  /** The emission order, by a worklist that visits live successors in ascending order; each block follows whatever
      dominates it. */
  method ReversePostorder(blocks: Blocks, reachable: seq<BlockId>) returns (r: Result<seq<BlockId>, BlockId>)
    ensures r.Ok? ==> r.value == EmissionOrder(blocks, reachable)
    ensures r.Ok? ==> IsEmissionOrder(LiveCfg(blocks, Members(reachable)), r.value)
    ensures r.Err? ==> r.error in reachable && r.error !in blocks
  {
    var live := Members(reachable);
    var g := LiveCfg(blocks, live);
    var postorder: seq<BlockId> := [];
    var visited: set<BlockId> := {};
    var work: seq<Pending> := [];
    ghost var finished := DepthFirst(blocks, live, if ENTRY_BLOCK in live then [ENTRY_BLOCK] else [], {}).finished;
    if ENTRY_BLOCK in live {
      work := [Pending(ENTRY_BLOCK, 0)];
      visited := {ENTRY_BLOCK};
      StartUnwinds(blocks, live);
    }
    StartRemains(blocks, live, work, visited, finished);
    TraversalStarts(blocks, live, visited, work);
    while work != []
      invariant Traversal(blocks, live, visited, postorder, work)
      invariant ENTRY_BLOCK in live ==> ENTRY_BLOCK in visited
      invariant Remains(blocks, live, work, visited, postorder, finished)
      decreases |live - visited|, |work|
    {
      var top := work[|work| - 1];
      if top.block !in blocks {
        assert Open(work)[|work| - 1] in live;
        return Err(top.block);
      }
      var successors := LiveSuccessors(blocks[top.block], live);
      var position := NextUnvisited(blocks, live, visited, top);
      if position < |successors| {
        var successor := successors[position];
        Descend(blocks, live, visited, postorder, work, top.block, position, successor);
        DescendKeeps(blocks, live, work, visited, postorder, finished, top, position,
                     work[..|work| - 1] + [Pending(top.block, position + 1), Pending(successor, 0)]);
        FewerLeft(live, visited, visited + {successor});
        work := work[..|work| - 1] + [Pending(top.block, position + 1), Pending(successor, 0)];
        visited := visited + {successor};
      } else {
        Finish(blocks, live, visited, postorder, work, top.block);
        FinishRemains(blocks, live, work, visited, postorder, finished, top.block);
        work := work[..|work| - 1];
        postorder := postorder + [top.block];
      }
    }
    TraversalCovers(blocks, live, visited, postorder);
    var order := Reverse(postorder);
    ReversedIsEmissionOrder(g, postorder, order);
    NothingRemains(blocks, live, visited, postorder, finished);
    r := Ok(order);
  }

  lemma TraversalStarts(blocks: Blocks, live: set<BlockId>, visited: set<BlockId>, work: seq<Pending>)
    requires if ENTRY_BLOCK in live then work == [Pending(ENTRY_BLOCK, 0)] && visited == {ENTRY_BLOCK}
             else work == [] && visited == {}
    ensures Traversal(blocks, live, visited, [], work)
  {
    assert Open(work) == if ENTRY_BLOCK in live then [ENTRY_BLOCK] else [];
  }

  /** The first position from `top.next` on whose successor is still unvisited. */
  method NextUnvisited(blocks: Blocks, live: set<BlockId>, visited: set<BlockId>, top: Pending) returns (position: nat)
    requires top.block in blocks && Examined(blocks, live, visited, top)
    ensures Examined(blocks, live, visited, Pending(top.block, position)) && top.next <= position
    ensures forall k :: top.next <= k < position && k < |LiveSuccessors(blocks[top.block], live)| ==>
              LiveSuccessors(blocks[top.block], live)[k] in visited
    ensures position < |LiveSuccessors(blocks[top.block], live)| ==>
              LiveSuccessors(blocks[top.block], live)[position] !in visited
    ensures position >= |LiveSuccessors(blocks[top.block], live)| ==>
              forall b :: b in LiveSuccessors(blocks[top.block], live) ==> b in visited
  {
    var successors := LiveSuccessors(blocks[top.block], live);
    position := top.next;
    while position < |successors| && successors[position] in visited
      invariant Examined(blocks, live, visited, Pending(top.block, position)) && top.next <= position
      invariant forall k :: top.next <= k < position && k < |successors| ==> successors[k] in visited
    {
      position := position + 1;
    }
  }

  function Reverse(s: seq<BlockId>): (r: seq<BlockId>)
    ensures |r| == |s| && forall i :: 0 <= i < |s| ==> r[i] == s[|s| - 1 - i]
  {
    seq(|s|, i requires 0 <= i < |s| => s[|s| - 1 - i])
  }

  lemma Descend(blocks: Blocks, live: set<BlockId>, visited: set<BlockId>, postorder: seq<BlockId>, work: seq<Pending>,
                top: BlockId, position: nat, successor: BlockId)
    requires Traversal(blocks, live, visited, postorder, work)
    requires work != [] && work[|work| - 1].block == top && top in blocks
    requires Examined(blocks, live, visited, Pending(top, position))
    requires position < |LiveSuccessors(blocks[top], live)| && LiveSuccessors(blocks[top], live)[position] == successor
    requires successor !in visited
    ensures Traversal(blocks, live, visited + {successor}, postorder,
                      work[..|work| - 1] + [Pending(top, position + 1), Pending(successor, 0)])
  {
    var g := LiveCfg(blocks, live);
    var work' := work[..|work| - 1] + [Pending(top, position + 1), Pending(successor, 0)];
    var open := Open(work);
    assert successor in LiveSuccessors(blocks[top], live);
    assert Open(work') == open + [successor];
    OneMoreOpen(visited, postorder, open, successor);
    OpenExtends(g, live, open, top, successor);
    MoreVisited(g, visited, postorder, successor);
    DescendExamined(blocks, live, visited, work, top, position, successor);
    DominatorsLaterWithMoreOpen(g, postorder, open, open + [successor]);
  }

  lemma OneMoreOpen(visited: set<BlockId>, postorder: seq<BlockId>, open: seq<BlockId>, b: BlockId)
    requires Partitions(visited, postorder, open) && NoRepeats(postorder + open) && b !in visited
    ensures Partitions(visited + {b}, postorder, open + [b]) && NoRepeats(postorder + (open + [b]))
  {
    var before := postorder + open;
    assert postorder + (open + [b]) == before + [b];
    assert b !in before;
  }

  lemma OpenExtends(g: Graph, live: set<BlockId>, open: seq<BlockId>, top: BlockId, b: BlockId)
    requires OpenPath(g, live, open) && open != [] && open[|open| - 1] == top
    requires top in g && b in g[top] && b in live
    ensures OpenPath(g, live, open + [b])
  {
    var longer := open + [b];
    forall i
      ensures OpenStep(g, longer, i)
    {
      assert OpenStep(g, open, i);
    }
  }

  lemma OpenShrinks(g: Graph, live: set<BlockId>, open: seq<BlockId>)
    requires OpenPath(g, live, open) && open != []
    ensures OpenPath(g, live, open[..|open| - 1])
  {
    var rest := open[..|open| - 1];
    forall i
      ensures OpenStep(g, rest, i)
    {
      assert OpenStep(g, open, i);
    }
  }

  lemma OpenIsPath(g: Graph, live: set<BlockId>, open: seq<BlockId>, top: BlockId)
    requires OpenPath(g, live, open) && open != [] && open[|open| - 1] == top && top in g
    ensures PathFromTo(g, open, ENTRY_BLOCK, top)
  {
    forall i | 0 <= i < |open|
      ensures open[i] in g
    {
      assert OpenStep(g, open, i);
    }
    forall i
      ensures Step(g, open, i)
    {
      assert OpenStep(g, open, i);
    }
  }

  lemma MoreVisited(g: Graph, visited: set<BlockId>, postorder: seq<BlockId>, b: BlockId)
    requires AllFinished(g, visited, postorder)
    ensures AllFinished(g, visited + {b}, postorder)
  {
    forall c | c in postorder
      ensures Finished(g, visited + {b}, c)
    {
      assert Finished(g, visited, c);
    }
  }

  lemma DescendExamined(blocks: Blocks, live: set<BlockId>, visited: set<BlockId>, work: seq<Pending>,
                        top: BlockId, position: nat, successor: BlockId)
    requires AllExamined(blocks, live, visited, work) && work != [] && top in blocks
    requires Examined(blocks, live, visited, Pending(top, position))
    requires position < |LiveSuccessors(blocks[top], live)| && LiveSuccessors(blocks[top], live)[position] == successor
    ensures AllExamined(blocks, live, visited + {successor},
                        work[..|work| - 1] + [Pending(top, position + 1), Pending(successor, 0)])
  {
    var work' := work[..|work| - 1] + [Pending(top, position + 1), Pending(successor, 0)];
    forall p | p in work'
      ensures Examined(blocks, live, visited + {successor}, p)
    {
      if p in work {
        assert Examined(blocks, live, visited, p);
      } else {
        assert p == Pending(top, position + 1) || p == Pending(successor, 0);
      }
    }
  }

  lemma DominatorsLaterWithMoreOpen(g: Graph, postorder: seq<BlockId>, open: seq<BlockId>, more: seq<BlockId>)
    requires DominatorsLater(g, postorder, open)
    requires forall b :: b in open ==> b in more
    ensures DominatorsLater(g, postorder, more)
  {
  }

  lemma Finish(blocks: Blocks, live: set<BlockId>, visited: set<BlockId>, postorder: seq<BlockId>, work: seq<Pending>,
               top: BlockId)
    requires Traversal(blocks, live, visited, postorder, work)
    requires work != [] && work[|work| - 1].block == top && top in blocks
    requires forall b :: b in LiveSuccessors(blocks[top], live) ==> b in visited
    ensures Traversal(blocks, live, visited, postorder + [top], work[..|work| - 1])
  {
    var g := LiveCfg(blocks, live);
    var open := Open(work);
    var rest := open[..|open| - 1];
    assert Open(work[..|work| - 1]) == rest;
    assert open == rest + [top];
    assert top in live by { assert open[|open| - 1] in live; }
    FinishKeepsDistinct(postorder, open);
    OneMoreFinished(visited, postorder, rest, top);
    OpenIsPath(g, live, open, top);
    OpenShrinks(g, live, open);
    assert Finished(g, visited, top);
    FinishKeepsFinished(g, visited, postorder, top);
    FinishKeepsDominators(g, postorder, open, rest, top);
  }

  lemma OneMoreFinished(visited: set<BlockId>, postorder: seq<BlockId>, rest: seq<BlockId>, top: BlockId)
    requires Partitions(visited, postorder, rest + [top])
    ensures Partitions(visited, postorder + [top], rest)
  {
  }

  lemma FinishKeepsFinished(g: Graph, visited: set<BlockId>, postorder: seq<BlockId>, top: BlockId)
    requires AllFinished(g, visited, postorder) && Finished(g, visited, top)
    ensures AllFinished(g, visited, postorder + [top])
  {
    assert forall b :: b in postorder + [top] <==> b in postorder || b == top;
  }

  lemma FinishKeepsDominators(g: Graph, postorder: seq<BlockId>, open: seq<BlockId>, rest: seq<BlockId>, top: BlockId)
    requires DominatorsLater(g, postorder, open)
    requires open == rest + [top] && PathFromTo(g, open, ENTRY_BLOCK, top)
    ensures DominatorsLater(g, postorder + [top], rest)
  {
    var postorder' := postorder + [top];
    forall i, d | 0 <= i < |postorder'| && Dominates(g, ENTRY_BLOCK, d, postorder'[i])
      ensures d == postorder'[i] || d in postorder'[i + 1..] || d in rest
    {
      if i < |postorder| {
        assert postorder'[i + 1..] == postorder[i + 1..] + [top];
        assert Dominates(g, ENTRY_BLOCK, d, postorder[i]);
        assert postorder'[i + 1..][|postorder| - i - 1] == top;
        assert d in open ==> d in rest || d == top;
      } else {
        assert d in open;
      }
    }
  }

  lemma FinishKeepsDistinct(postorder: seq<BlockId>, open: seq<BlockId>)
    requires open != [] && NoRepeats(postorder + open)
    ensures NoRepeats((postorder + [open[|open| - 1]]) + open[..|open| - 1])
  {
    var before := postorder + open;
    var after := (postorder + [open[|open| - 1]]) + open[..|open| - 1];
    forall i, j | 0 <= i < j < |after|
      ensures after[i] != after[j]
    {
      var n := |postorder|;
      var p := if i < n then i else if i == n then |before| - 1 else i - 1;
      var q := if j < n then j else if j == n then |before| - 1 else j - 1;
      assert after[i] == before[p] && after[j] == before[q];
      assert p != q;
    }
  }

  lemma TraversalCovers(blocks: Blocks, live: set<BlockId>, visited: set<BlockId>, postorder: seq<BlockId>)
    requires Traversal(blocks, live, visited, postorder, [])
    requires ENTRY_BLOCK in live ==> ENTRY_BLOCK in visited
    ensures forall b :: b in postorder <==> Reach(LiveCfg(blocks, live), ENTRY_BLOCK, b)
    ensures NoRepeats(postorder) && DominatorsLater(LiveCfg(blocks, live), postorder, [])
  {
    var g := LiveCfg(blocks, live);
    assert Open([]) == [];
    assert postorder + Open([]) == postorder;
    assert forall b :: b in postorder ==> Finished(g, visited, b);
    assert Closed(g, visited);
    forall b | Reach(g, ENTRY_BLOCK, b)
      ensures b in postorder
    {
      ReachInGraph(g, ENTRY_BLOCK, b);
      ReachStaysInClosed(g, visited, ENTRY_BLOCK, b);
    }
  }

  lemma ReversedIsEmissionOrder(g: Graph, postorder: seq<BlockId>, order: seq<BlockId>)
    requires NoRepeats(postorder)
    requires forall b :: b in postorder <==> Reach(g, ENTRY_BLOCK, b)
    requires DominatorsLater(g, postorder, [])
    requires order == Reverse(postorder)
    ensures IsEmissionOrder(g, order)
  {
    var n := |postorder|;
    forall b
      ensures b in order <==> b in postorder
    {
      if b in postorder {
        var i :| 0 <= i < n && postorder[i] == b;
        assert order[n - 1 - i] == b;
      }
    }
    forall i, d | 0 <= i < n && Dominates(g, ENTRY_BLOCK, d, order[i])
      ensures d in order[..i + 1]
    {
      ReversedDominator(g, postorder, order, i, d);
    }
  }

  lemma ReversedDominator(g: Graph, postorder: seq<BlockId>, order: seq<BlockId>, i: nat, d: BlockId)
    requires DominatorsLater(g, postorder, []) && order == Reverse(postorder)
    requires i < |order| && Dominates(g, ENTRY_BLOCK, d, order[i])
    ensures d in order[..i + 1]
  {
    var n := |postorder|;
    var k := n - 1 - i;
    assert postorder[k] == order[i];
    if d == postorder[k] {
      assert order[..i + 1][i] == d;
    } else {
      assert d in postorder[k + 1..];
      var j :| k + 1 <= j < n && postorder[j] == d;
      assert order[..i + 1][n - 1 - j] == d;
    }
  }
}
