/** Which functions a function calls, and in which order, stated over the positions of its calls. */
module Calls {
  import opened Wrappers
  import opened Nir
  import opened Graphs
  import opened Ordered
  import opened Dataflow
  import opened Capability

  /** The function called at a position of a block; its terminator is the position after its instructions. */
  function CalledAt(block: BasicBlock, i: nat): Option<ItemId> {
    if i < |block.instructions| then
      if block.instructions[i].Value? && block.instructions[i].kind.Call? then Some(block.instructions[i].kind.callee)
      else None
    else if i == |block.instructions| && block.terminator.Invoke? then Some(block.terminator.callee)
    else None
  }

  /** A block by its place in the list, and a position in it. */
  type Place = (nat, nat)

  predicate Earlier(p: Place, q: Place) {
    p.0 < q.0 || (p.0 == q.0 && p.1 < q.1)
  }

  predicate CallsAt(blocks: Blocks, reachable: seq<BlockId>, p: Place, callee: ItemId) {
    p.0 < |reachable| && reachable[p.0] in blocks && CalledAt(blocks[reachable[p.0]], p.1) == Some(callee)
  }

  /** `callees` lists what is called at each of `places`, which are all the places of calls, in order. */
  ghost predicate ListsCalls(blocks: Blocks, reachable: seq<BlockId>, callees: seq<ItemId>, places: seq<Place>) {
    && |places| == |callees|
    && (forall k, l :: 0 <= k < l < |places| ==> Earlier(places[k], places[l]))
    && (forall k :: 0 <= k < |places| ==> CallsAt(blocks, reachable, places[k], callees[k]))
    && (forall p, callee :: CallsAt(blocks, reachable, p, callee) ==> p in places)
  }

  // One block.

  /** The same for the instructions of one block before position `n`, or all of it. */
  ghost predicate ListsPositions(block: BasicBlock, n: nat, callees: seq<ItemId>, positions: seq<nat>) {
    && |positions| == |callees| && StrictlyAscending(positions)
    && (forall k :: 0 <= k < |positions| ==> positions[k] < n && CalledAt(block, positions[k]) == Some(callees[k]))
    && (forall i :: 0 <= i < n && CalledAt(block, i).Some? ==> i in positions)
  }

  lemma {:induction false} CalledByInOrder(block: BasicBlock, n: nat) returns (positions: seq<nat>)
    requires n <= |block.instructions|
    ensures ListsPositions(block, n, CalledBy(block.instructions[..n]), positions)
  {
    if n == 0 {
      positions := [];
    } else {
      var before := CalledByInOrder(block, n - 1);
      assert block.instructions[..n] == block.instructions[..n - 1] + [block.instructions[n - 1]];
      CalledByConcat(block.instructions[..n - 1], block.instructions[n - 1]);
      positions := before + if CalledAt(block, n - 1).Some? then [n - 1] else [];
      assert forall k :: 0 <= k < |before| ==> before[k] in before;
    }
  }

  lemma {:induction false} CalledByConcat(a: seq<Instruction>, x: Instruction)
    ensures CalledBy(a + [x]) == CalledBy(a) + if x.Value? && x.kind.Call? then [x.kind.callee] else []
  {
    if a == [] {
      assert a + [x] == [x] && [x][1..] == [];
    } else {
      assert (a + [x])[1..] == a[1..] + [x];
      CalledByConcat(a[1..], x);
    }
  }

  lemma BlockCalleesInOrder(block: BasicBlock) returns (positions: seq<nat>)
    ensures ListsPositions(block, |block.instructions| + 1, BlockCallees(block), positions)
  {
    var n := |block.instructions|;
    assert block.instructions[..n] == block.instructions;
    var before := CalledByInOrder(block, n);
    positions := before + if block.terminator.Invoke? then [n] else [];
  }

  // All blocks.

  function FirstPlaces(positions: seq<nat>): (places: seq<Place>)
    ensures |places| == |positions| && forall k :: 0 <= k < |places| ==> places[k] == (0, positions[k])
  {
    seq(|positions|, k requires 0 <= k < |positions| => (0, positions[k]))
  }

  function LaterPlaces(rest: seq<Place>): (places: seq<Place>)
    ensures |places| == |rest| && forall k :: 0 <= k < |places| ==> places[k] == (rest[k].0 + 1, rest[k].1)
  {
    seq(|rest|, k requires 0 <= k < |rest| => (rest[k].0 + 1, rest[k].1))
  }

  /** The places of the first block's positions, then those of the rest, one block further on. */
  function Places(positions: seq<nat>, rest: seq<Place>): seq<Place> {
    FirstPlaces(positions) + LaterPlaces(rest)
  }

  /** The callees of a function are listed call by call: block by block, instruction by instruction, the terminator
      last, with no call left out and none listed twice. */
  lemma {:induction false} DirectCalleesInOrder(blocks: Blocks, reachable: seq<BlockId>) returns (places: seq<Place>)
    ensures ListsCalls(blocks, reachable, DirectCallees(blocks, reachable), places)
  {
    if reachable == [] {
      places := [];
    } else {
      var rest := DirectCalleesInOrder(blocks, reachable[1..]);
      var positions: seq<nat> := [];
      if reachable[0] in blocks {
        positions := BlockCalleesInOrder(blocks[reachable[0]]);
      }
      places := Places(positions, rest);
      PlacesListCalls(blocks, reachable, positions, rest, places);
    }
  }

  lemma PlacesListCalls(blocks: Blocks, reachable: seq<BlockId>, positions: seq<nat>, rest: seq<Place>,
                        places: seq<Place>)
    requires reachable != [] && places == Places(positions, rest)
    requires ListsCalls(blocks, reachable[1..], DirectCallees(blocks, reachable[1..]), rest)
    requires FirstListed(blocks, reachable[0], positions)
    ensures ListsCalls(blocks, reachable, DirectCallees(blocks, reachable), places)
  {
    PlacesAscend(positions, rest);
    PlacesComplete(blocks, reachable, positions, rest);
    PlacesRight(blocks, reachable, positions, rest);
  }

  ghost predicate FirstListed(blocks: Blocks, b: BlockId, positions: seq<nat>) {
    if b in blocks then ListsPositions(blocks[b], |blocks[b].instructions| + 1, BlockCallees(blocks[b]), positions)
    else positions == []
  }

  lemma PlacesAscend(positions: seq<nat>, rest: seq<Place>)
    requires StrictlyAscending(positions) && forall k, l :: 0 <= k < l < |rest| ==> Earlier(rest[k], rest[l])
    ensures forall k, l :: 0 <= k < l < |positions| + |rest| ==>
              Earlier(Places(positions, rest)[k], Places(positions, rest)[l])
  {
  }

  lemma PlacesComplete(blocks: Blocks, reachable: seq<BlockId>, positions: seq<nat>, rest: seq<Place>)
    requires reachable != [] && FirstListed(blocks, reachable[0], positions)
    requires forall p, callee :: CallsAt(blocks, reachable[1..], p, callee) ==> p in rest
    ensures forall p, callee :: CallsAt(blocks, reachable, p, callee) ==> p in Places(positions, rest)
  {
    forall p: Place, callee | CallsAt(blocks, reachable, p, callee)
      ensures p in Places(positions, rest)
    {
      if p.0 == 0 {
        assert p.1 in positions;
        var k :| 0 <= k < |positions| && positions[k] == p.1;
        assert Places(positions, rest)[k] == p;
      } else {
        var q := (p.0 - 1, p.1);
        assert CallsAt(blocks, reachable[1..], q, callee);
        var k :| 0 <= k < |rest| && rest[k] == q;
        assert Places(positions, rest)[|positions| + k] == p;
      }
    }
  }

  lemma PlacesRight(blocks: Blocks, reachable: seq<BlockId>, positions: seq<nat>, rest: seq<Place>)
    requires reachable != [] && FirstListed(blocks, reachable[0], positions)
    requires |rest| == |DirectCallees(blocks, reachable[1..])|
    requires forall k :: 0 <= k < |rest| ==>
               CallsAt(blocks, reachable[1..], rest[k], DirectCallees(blocks, reachable[1..])[k])
    ensures |DirectCallees(blocks, reachable)| == |positions| + |rest|
    ensures forall k :: 0 <= k < |positions| + |rest| ==>
              CallsAt(blocks, reachable, Places(positions, rest)[k], DirectCallees(blocks, reachable)[k])
  {
    var first := if reachable[0] in blocks then BlockCallees(blocks[reachable[0]]) else [];
    var others := DirectCallees(blocks, reachable[1..]);
    var calls := (p: Place, callee: ItemId) => CallsAt(blocks, reachable, p, callee);
    forall k | 0 <= k < |positions|
      ensures calls(FirstPlaces(positions)[k], first[k])
    {
    }
    forall k | 0 <= k < |rest|
      ensures calls(LaterPlaces(rest)[k], others[k])
    {
      OneBlockOn(blocks, reachable, rest[k], others[k]);
    }
    Joined(calls, FirstPlaces(positions), LaterPlaces(rest), first, others);
  }

  lemma Joined(calls: (Place, ItemId) -> bool, a: seq<Place>, b: seq<Place>, x: seq<ItemId>, y: seq<ItemId>)
    requires |a| == |x| && forall k :: 0 <= k < |a| ==> calls(a[k], x[k])
    requires |b| == |y| && forall k :: 0 <= k < |b| ==> calls(b[k], y[k])
    ensures forall k :: 0 <= k < |a| + |b| ==> calls((a + b)[k], (x + y)[k])
  {
  }

  lemma OneBlockOn(blocks: Blocks, reachable: seq<BlockId>, p: Place, callee: ItemId)
    requires reachable != [] && CallsAt(blocks, reachable[1..], p, callee)
    ensures CallsAt(blocks, reachable, (p.0 + 1, p.1), callee)
  {
  }

  /** Control can flow to a call of `callee`. */
  ghost predicate FlowsToCall(blocks: Blocks, callee: ItemId) {
    exists p, b, i: nat :: FlowsAlong(blocks, p, b) && CalledAt(blocks[b], i) == Some(callee)
  }

  lemma CalleeIsFlowedTo(blocks: Blocks, reachable: seq<BlockId>, callee: ItemId)
    requires AreReachableBlocks(blocks, reachable)
    ensures callee in DirectCallees(blocks, reachable) ==> FlowsToCall(blocks, callee)
  {
    var callees := DirectCallees(blocks, reachable);
    if callee in callees {
      var places := DirectCalleesInOrder(blocks, reachable);
      var k :| 0 <= k < |callees| && callees[k] == callee;
      assert CallsAt(blocks, reachable, places[k], callee);
      var b := reachable[places[k].0];
      assert b in reachable;
      ReachedIsFlowedTo(blocks, b);
      var p :| FlowsAlong(blocks, p, b);
      assert CalledAt(blocks[b], places[k].1) == Some(callee);
    }
  }

  lemma FlowedToIsCallee(blocks: Blocks, reachable: seq<BlockId>, callee: ItemId)
    requires AreReachableBlocks(blocks, reachable)
    ensures FlowsToCall(blocks, callee) ==> callee in DirectCallees(blocks, reachable)
  {
    if FlowsToCall(blocks, callee) {
      var places := DirectCalleesInOrder(blocks, reachable);
      var p, b, i: nat :| FlowsAlong(blocks, p, b) && CalledAt(blocks[b], i) == Some(callee);
      ReachedIsFlowedTo(blocks, b);
      assert b in reachable;
      var n :| 0 <= n < |reachable| && reachable[n] == b;
      assert CallsAt(blocks, reachable, (n, i), callee);
      var k :| 0 <= k < |places| && places[k] == (n, i);
    }
  }

  /** One function calls another exactly when control can flow to a call of it. */
  lemma CallsAreEdges(functions: Functions, a: ItemId, b: ItemId)
    ensures Edge(CallGraph(functions), a, b)
            <==> a in functions && b in functions && BlocksKeyed(functions[a])
                 && FlowsToCall(BlockMap(functions[a].blocks), b)
  {
    if a in functions && BlocksKeyed(functions[a]) {
      var blocks := BlockMap(functions[a].blocks);
      CalleeIsFlowedTo(blocks, ReachableSeq(blocks), b);
      FlowedToIsCallee(blocks, ReachableSeq(blocks), b);
    }
  }
}
