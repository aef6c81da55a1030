/** Reachable blocks, and the forward must-analysis the validator runs over them. */
module Dataflow {
  import opened Nir
  import opened Graphs
  import opened BreadthFirst
  import opened Ordered

  /** The control-flow graph of one function's blocks. */
  function Cfg(blocks: Blocks): Graph {
    map id | id in blocks :: TerminatorTargets(blocks[id].terminator)
  }

  ghost predicate BlockReachable(blocks: Blocks, b: BlockId) {
    Reach(Cfg(blocks), ENTRY_BLOCK, b)
  }

  ghost predicate AreReachableBlocks(blocks: Blocks, reachable: seq<BlockId>) {
    StrictlyAscending(reachable) && forall b :: b in reachable <==> BlockReachable(blocks, b)
  }

  /** `p` leads from `bb0` to `b` along declared blocks, each leaving for the next. */
  ghost predicate FlowsAlong(blocks: Blocks, p: seq<BlockId>, b: BlockId) {
    && p != [] && p[0] == 0 && p[|p| - 1] == b
    && (forall i :: 0 <= i < |p| ==> p[i] in blocks)
    && forall i {:trigger FlowStep(blocks, p, i)} :: FlowStep(blocks, p, i)
  }

  ghost predicate FlowStep(blocks: Blocks, p: seq<BlockId>, i: int) {
    0 <= i < |p| - 1 && p[i] in blocks ==> GoesTo(blocks[p[i]].terminator, p[i + 1])
  }

  /** The paths of the control-flow graph are those along which control can flow. */
  lemma PathsAreFlows(blocks: Blocks, p: seq<BlockId>, b: BlockId)
    ensures PathFromTo(Cfg(blocks), p, ENTRY_BLOCK, b) <==> FlowsAlong(blocks, p, b)
  {
    if PathFromTo(Cfg(blocks), p, ENTRY_BLOCK, b) {
      forall i
        ensures FlowStep(blocks, p, i)
      {
        assert Step(Cfg(blocks), p, i);
      }
    }
    if FlowsAlong(blocks, p, b) {
      forall i
        ensures Step(Cfg(blocks), p, i)
      {
        assert FlowStep(blocks, p, i);
      }
    }
  }

  lemma ReachedIsFlowedTo(blocks: Blocks, b: BlockId)
    ensures BlockReachable(blocks, b) <==> exists p :: FlowsAlong(blocks, p, b)
  {
    if BlockReachable(blocks, b) {
      var p :| PathFromTo(Cfg(blocks), p, ENTRY_BLOCK, b);
      PathsAreFlows(blocks, p, b);
    }
    if p :| FlowsAlong(blocks, p, b) {
      PathsAreFlows(blocks, p, b);
    }
  }

  /** The blocks `bb0` reaches, ascending. */
  method ReachableBlocks(blocks: Blocks) returns (reachable: seq<BlockId>)
    ensures AreReachableBlocks(blocks, reachable)
    ensures StrictlyAscending(reachable) && forall b :: b in reachable <==> exists p :: FlowsAlong(blocks, p, b)
  {
    var reached: set<BlockId> := {};
    if ENTRY_BLOCK in blocks {
      reached := Spread(blocks, ENTRY_BLOCK);
    } else {
      assert forall b :: !BlockReachable(blocks, b) by {
        forall b | BlockReachable(blocks, b) ensures false { ReachInGraph(Cfg(blocks), ENTRY_BLOCK, b); }
      }
    }
    reachable := Ascending(reached);
    forall b
      ensures b in reachable <==> exists p :: FlowsAlong(blocks, p, b)
    {
      ReachedIsFlowedTo(blocks, b);
    }
  }

  method Spread(blocks: Blocks, root: BlockId) returns (reached: set<BlockId>)
    requires root in blocks
    ensures forall b :: b in reached <==> Reach(Cfg(blocks), root, b)
  {
    ghost var g := Cfg(blocks);
    reached := {root};
    var queue := [root];
    ReachSelf(g, root);
    while queue != []
      invariant root in reached && Frontier(g, root, reached, queue)
      decreases |g.Keys - reached|, |queue|
    {
      assert queue[0] in queue;
      var targets := TerminatorTargets(blocks[queue[0]].terminator);
      reached, queue := Discover(blocks.Keys, g, root, targets, reached, queue);
    }
    FrontierDone(g, root, reached);
  }

  type Values = set<ValueId>
  type Transfer = (Values, BasicBlock) -> Values

  /** A block only ever adds to what was established before it, and always the same values. */
  ghost predicate OnlyAdds(generated: Transfer) {
    forall s: Values, block: BasicBlock :: generated(s, block) == s + generated({}, block)
  }

  predicate DefinesValue(instruction: Instruction, v: ValueId) {
    instruction.Value? && instruction.result == v
  }

  predicate StoresInto(instruction: Instruction, slot: ValueId) {
    instruction.Store? && instruction.slot == slot
  }

  /** `entry`, and every result of a value instruction of `block`. */
  function DefinesAfter(entry: Values, block: BasicBlock): (after: Values)
    ensures forall v :: v in after <==>
                        v in entry
                        || exists i :: 0 <= i < |block.instructions| && DefinesValue(block.instructions[i], v)
  {
    entry + DefinedIn(block.instructions)
  }

  /** `entry`, and every slot a store of `block` writes. */
  function StoresAfter(entry: Values, block: BasicBlock): (after: Values)
    ensures forall v :: v in after <==>
                        v in entry
                        || exists i :: 0 <= i < |block.instructions| && StoresInto(block.instructions[i], v)
  {
    entry + StoredIn(block.instructions)
  }

  function DefinedIn(instructions: seq<Instruction>): (r: Values)
    ensures forall v :: v in r <==>
                        exists i :: 0 <= i < |instructions| && instructions[i].Value? && instructions[i].result == v
  {
    set i | 0 <= i < |instructions| && instructions[i].Value? :: instructions[i].result
  }

  function StoredIn(instructions: seq<Instruction>): (r: Values)
    ensures forall v :: v in r <==>
                        exists i :: 0 <= i < |instructions| && instructions[i].Store? && instructions[i].slot == v
  {
    set i | 0 <= i < |instructions| && instructions[i].Store? :: instructions[i].slot
  }

  /** Some block on `p` before its last one generates `v`. */
  ghost predicate GeneratedBefore(blocks: Blocks, generated: Transfer, v: ValueId, p: seq<BlockId>) {
    exists i :: 0 <= i < |p| - 1 && p[i] in blocks && v in generated({}, blocks[p[i]])
  }

  /** `v` holds at the start of `b` whichever way `b` is reached from the entry block. */
  ghost predicate OnEveryPath(blocks: Blocks, generated: Transfer, entry: Values, v: ValueId, b: BlockId) {
    forall p :: PathFromTo(Cfg(blocks), p, ENTRY_BLOCK, b) ==>
                  v in entry || GeneratedBefore(blocks, generated, v, p)
  }

  type States = map<BlockId, Values>

  ghost predicate ArrivesFrom(blocks: Blocks, generated: Transfer, state: States, v: ValueId, a: BlockId)
    requires a in blocks && a in state
  {
    v in state[a] + generated({}, blocks[a])
  }

  /** `v` is established at the end of every predecessor of `b`. */
  ghost predicate Incoming(blocks: Blocks, generated: Transfer, state: States, v: ValueId, b: BlockId)
    requires state.Keys <= blocks.Keys
  {
    forall a :: a in state && Edge(Cfg(blocks), a, b) ==> ArrivesFrom(blocks, generated, state, v, a)
  }

  /** The sum of the sizes of the states, which every narrowing lowers. */
  ghost function Total(state: States, ids: seq<BlockId>): nat
    requires forall id :: id in ids ==> id in state
  {
    if ids == [] then 0 else |state[ids[0]]| + Total(state, ids[1..])
  }

  lemma {:induction false} TotalUnchanged(state: States, ids: seq<BlockId>, b: BlockId, s: Values)
    requires forall id :: id in ids ==> id in state
    requires b !in ids
    ensures Total(state[b := s], ids) == Total(state, ids)
  {
    if ids != [] {
      TotalUnchanged(state, ids[1..], b, s);
    }
  }

  lemma {:induction false} TotalShrinks(state: States, ids: seq<BlockId>, b: BlockId, s: Values)
    requires forall id :: id in ids ==> id in state
    requires b in ids && s < state[b]
    requires forall i, j :: 0 <= i < j < |ids| ==> ids[i] != ids[j]
    ensures Total(state[b := s], ids) < Total(state, ids)
  {
    Smaller(s, state[b]);
    if ids[0] == b {
      TotalUnchanged(state, ids[1..], b, s);
    } else {
      TotalShrinks(state, ids[1..], b, s);
    }
  }

  lemma {:induction false} TotalBound(state: States, ids: seq<BlockId>, universe: Values)
    requires forall id :: id in ids ==> id in state && state[id] <= universe
    ensures Total(state, ids) <= |ids| * |universe|
  {
    if ids != [] {
      SubsetSize(state[ids[0]], universe);
      TotalBound(state, ids[1..], universe);
      assert |ids| * |universe| == |universe| + |ids[1..]| * |universe|;
    }
  }

  lemma SubsetSize<T>(a: set<T>, b: set<T>)
    requires a <= b
    ensures |a| <= |b|
  {
    if a != b { Smaller(a, b); }
  }

  type Predecessors = map<BlockId, set<BlockId>>

  ghost predicate Recorded(predecessors: Predecessors, a: BlockId, b: BlockId) {
    b in predecessors && a in predecessors[b]
  }

  function Record(predecessors: Predecessors, a: BlockId, b: BlockId): (r: Predecessors)
    ensures forall c, d :: Recorded(r, c, d) <==> Recorded(predecessors, c, d) || (c == a && d == b)
    ensures (forall d :: d in predecessors ==> predecessors[d] != {}) ==> forall d :: d in r ==> r[d] != {}
  {
    predecessors[b := (if b in predecessors then predecessors[b] else {}) + {a}]
  }

  /** `predecessors` records exactly the edges of the reachable blocks before position `n`. */
  ghost predicate RecordsEdges(g: Graph, reachable: seq<BlockId>, n: nat, predecessors: Predecessors)
    requires n <= |reachable|
  {
    && (forall b :: b in predecessors ==> predecessors[b] != {})
    && (forall a, b :: Recorded(predecessors, a, b) <==> (a in reachable[..n] && Edge(g, a, b)))
  }

  /** Which reachable blocks lead to each block. */
  method PredecessorsOf(reachable: seq<BlockId>, blocks: Blocks) returns (predecessors: Predecessors)
    requires AreReachableBlocks(blocks, reachable)
    ensures RecordsEdges(Cfg(blocks), reachable, |reachable|, predecessors)
  {
    var g := Cfg(blocks);
    predecessors := map[];
    for i := 0 to |reachable|
      invariant RecordsEdges(g, reachable, i, predecessors)
    {
      var id := reachable[i];
      assert BlockReachable(blocks, id);
      ReachInGraph(g, ENTRY_BLOCK, id);
      predecessors := RecordTargets(reachable, blocks, i, predecessors);
    }
    assert reachable[..|reachable|] == reachable;
  }

  method RecordTargets(reachable: seq<BlockId>, blocks: Blocks, n: nat, before: Predecessors)
    returns (predecessors: Predecessors)
    requires AreReachableBlocks(blocks, reachable)
    requires n < |reachable| && reachable[n] in blocks
    requires RecordsEdges(Cfg(blocks), reachable, n, before)
    ensures RecordsEdges(Cfg(blocks), reachable, n + 1, predecessors)
  {
    var g := Cfg(blocks);
    var id := reachable[n];
    assert id in reachable && BlockReachable(blocks, id);
    var targets := TerminatorTargets(blocks[id].terminator);
    predecessors := before;
    for j := 0 to |targets|
      invariant forall b :: b in predecessors ==> predecessors[b] != {}
      invariant forall a, b :: Recorded(predecessors, a, b) <==>
                               Recorded(before, a, b) || (a == id && b in targets[..j] && b in reachable)
    {
      var target := targets[j];
      assert forall b :: b in targets[..j + 1] <==> b in targets[..j] || b == target by {
        assert targets[..j + 1] == targets[..j] + [target];
      }
      if target in reachable {
        predecessors := Record(predecessors, id, target);
      }
    }
    assert targets[..|targets|] == targets;
    assert forall a :: a in reachable[..n + 1] <==> a in reachable[..n] || a == id by {
      assert reachable[..n + 1] == reachable[..n] + [id];
    }
    forall b
      ensures Edge(g, id, b) <==> b in targets && b in reachable
    {
      if Edge(g, id, b) { ReachThenEdge(g, ENTRY_BLOCK, id, b); }
      if b in reachable { ReachInGraph(g, ENTRY_BLOCK, b); }
    }
  }

  /** `incoming` is exactly what every block of `preds` establishes by its end. */
  ghost predicate IsMeet(preds: set<BlockId>, blocks: Blocks, state: States, generated: Transfer, incoming: Values)
    requires preds <= state.Keys <= blocks.Keys
  {
    forall v :: v in incoming <==> forall a :: a in preds ==> ArrivesFrom(blocks, generated, state, v, a)
  }

  lemma MeetOneMore(preds: set<BlockId>, pred: BlockId, blocks: Blocks, state: States, generated: Transfer,
                    incoming: Values)
    requires preds + {pred} <= state.Keys <= blocks.Keys && OnlyAdds(generated)
    requires IsMeet(preds, blocks, state, generated, incoming)
    ensures IsMeet(preds + {pred}, blocks, state, generated, incoming * generated(state[pred], blocks[pred]))
  {
    forall v
      ensures v in generated(state[pred], blocks[pred]) <==> ArrivesFrom(blocks, generated, state, v, pred)
    {
    }
  }

  /** The intersection of what the predecessors of a block leave behind. */
  method Meet(preds: set<BlockId>, blocks: Blocks, state: States, generated: Transfer) returns (incoming: Values)
    requires preds != {} && preds <= state.Keys <= blocks.Keys
    requires OnlyAdds(generated)
    ensures IsMeet(preds, blocks, state, generated, incoming)
  {
    var first :| first in preds;
    incoming := generated(state[first], blocks[first]);
    var rest := preds - {first};
    ghost var met := {first};
    while rest != {}
      invariant met <= preds && rest == preds - met && IsMeet(met, blocks, state, generated, incoming)
      decreases |rest|
    {
      var pred :| pred in rest;
      MeetOneMore(met, pred, blocks, state, generated, incoming);
      incoming := incoming * generated(state[pred], blocks[pred]);
      met := met + {pred};
      rest := rest - {pred};
    }
    assert met == preds;
  }

  /** What every intermediate state of the analysis satisfies. */
  ghost predicate Sound(reachable: seq<BlockId>, blocks: Blocks, universe: Values, entry: Values, generated: Transfer,
                        state: States)
  {
    && state.Keys <= blocks.Keys
    && (forall b :: b in state <==> b in reachable)
    && (ENTRY_BLOCK in state ==> state[ENTRY_BLOCK] == entry)
    && (forall b :: b in state ==> state[b] <= universe)
    && Descending(blocks, generated, state)
    && Witnessed(blocks, generated, entry, universe, state)
  }

  /** One narrowing: the state of a block other than the entry becomes what arrives there, which is strictly less. */
  ghost predicate Narrowing(blocks: Blocks, generated: Transfer, before: States, after: States) {
    before.Keys <= blocks.Keys
    && exists b :: b in before && b in after && b != ENTRY_BLOCK
                   && after == before[b := after[b]] && after[b] < before[b]
                   && forall v :: v in after[b] <==> Incoming(blocks, generated, before, v, b)
  }

  ghost predicate NarrowedAt(blocks: Blocks, generated: Transfer, trace: seq<States>, i: int) {
    0 <= i < |trace| - 1 ==> Narrowing(blocks, generated, trace[i], trace[i + 1])
  }

  /** `trace` leads from `first` to `last`, one narrowing at a time. */
  ghost predicate NarrowsTo(blocks: Blocks, generated: Transfer, trace: seq<States>, first: States, last: States) {
    && trace != [] && trace[0] == first && trace[|trace| - 1] == last
    && forall i {:trigger NarrowedAt(blocks, generated, trace, i)} :: NarrowedAt(blocks, generated, trace, i)
  }

  lemma NarrowedFurther(blocks: Blocks, generated: Transfer, trace: seq<States>, first: States, last: States,
                        next: States)
    requires NarrowsTo(blocks, generated, trace, first, last) && Narrowing(blocks, generated, last, next)
    ensures NarrowsTo(blocks, generated, trace + [next], first, next)
  {
    forall i
      ensures NarrowedAt(blocks, generated, trace + [next], i)
    {
      assert NarrowedAt(blocks, generated, trace, i);
    }
  }

  /** However the narrowings are chosen, there are at most as many as there are values to take out. */
  lemma {:induction false} NarrowingsBounded(blocks: Blocks, generated: Transfer, trace: seq<States>, first: States,
                                             last: States, ids: seq<BlockId>)
    requires NarrowsTo(blocks, generated, trace, first, last)
    requires (forall b :: b in first <==> b in ids) && forall i, j :: 0 <= i < j < |ids| ==> ids[i] != ids[j]
    ensures forall b :: b in last <==> b in ids
    ensures |trace| - 1 + Total(last, ids) <= Total(first, ids)
    decreases |trace|
  {
    if |trace| > 1 {
      var n := |trace| - 2;
      var shorter := trace[..n + 1];
      forall i
        ensures NarrowedAt(blocks, generated, shorter, i)
      {
        assert NarrowedAt(blocks, generated, trace, i);
      }
      NarrowingsBounded(blocks, generated, shorter, first, trace[n], ids);
      assert NarrowedAt(blocks, generated, trace, n);
      NarrowingShrinks(blocks, generated, trace[n], last, ids);
    }
  }

  lemma NarrowingShrinks(blocks: Blocks, generated: Transfer, before: States, after: States, ids: seq<BlockId>)
    requires Narrowing(blocks, generated, before, after)
    requires (forall b :: b in before <==> b in ids) && forall i, j :: 0 <= i < j < |ids| ==> ids[i] != ids[j]
    ensures forall b :: b in after <==> b in ids
    ensures Total(after, ids) < Total(before, ids)
  {
    var b :| b in before && b in after && after == before[b := after[b]] && after[b] < before[b];
    TotalShrinks(before, ids, b, after[b]);
  }

  /** Brings one block's state down to what its predecessors agree on. */
  method Narrow(id: BlockId, reachable: seq<BlockId>, blocks: Blocks, universe: Values, entry: Values,
                generated: Transfer, preds: set<BlockId>, before: States) returns (state: States)
    requires OnlyAdds(generated)
    requires Sound(reachable, blocks, universe, entry, generated, before)
    requires id in reachable && id != ENTRY_BLOCK
    requires preds != {} && forall a :: a in preds <==> a in reachable && Edge(Cfg(blocks), a, id)
    ensures Sound(reachable, blocks, universe, entry, generated, state)
    ensures state != before ==> Narrowing(blocks, generated, before, state)
    ensures state == before ==> forall v :: v in state[id] ==> Incoming(blocks, generated, state, v, id)
  {
    state := before;
    var incoming := Meet(preds, blocks, state, generated);
    IncomingIsMeet(blocks, generated, state, preds, id, incoming);
    if state[id] != incoming {
      NarrowKeepsWitnesses(blocks, generated, entry, universe, state, id, incoming);
      NarrowKeepsDescending(blocks, generated, state, id, incoming);
      state := state[id := incoming];
      assert state == before[id := state[id]];
    }
  }

  /** Where the analysis starts: nothing but `entry` at the entry block, everything elsewhere. */
  function Optimistic(reachable: seq<BlockId>, universe: Values, entry: Values): States {
    map b | b in reachable :: if b == ENTRY_BLOCK then entry else universe
  }

  /** The exact states of the analysis, and the narrowings that led to them. */
  method MustReach(reachable: seq<BlockId>, blocks: Blocks, universe: Values, entry: Values, generated: Transfer)
    returns (state: States, ghost trace: seq<States>)
    requires AreReachableBlocks(blocks, reachable)
    requires OnlyAdds(generated)
    requires entry <= universe
    requires forall b :: b in reachable && b in blocks ==> generated({}, blocks[b]) <= universe
    ensures forall b :: b in state <==> b in reachable
    ensures forall b :: b in state ==> state[b] <= universe
    ensures forall b, v :: b in state ==> (v in state[b] <==> OnEveryPath(blocks, generated, entry, v, b))
    ensures NarrowsTo(blocks, generated, trace, Optimistic(reachable, universe, entry), state)
    ensures |trace| - 1 <= |reachable| * |universe|
  {
    ReachableBlocksExist(blocks, reachable);
    var predecessors := PredecessorsOf(reachable, blocks);
    state := Optimistic(reachable, universe, entry);
    InitialStatesAreWitnessed(blocks, generated, entry, universe, state);
    TotalBound(state, reachable, universe);
    trace := [state];
    var changed := true;
    while changed
      invariant Sound(reachable, blocks, universe, entry, generated, state)
      invariant !changed ==> StableUpTo(reachable, |reachable|, blocks, generated, state)
      invariant NarrowsTo(blocks, generated, trace, Optimistic(reachable, universe, entry), state)
      decreases Total(state, reachable), changed
    {
      state, changed, trace := Sweep(reachable, blocks, universe, entry, generated, predecessors, state,
                                     Optimistic(reachable, universe, entry), trace);
    }
    StableIsExact(reachable, blocks, universe, entry, generated, state);
    NarrowingsBounded(blocks, generated, trace, Optimistic(reachable, universe, entry), state, reachable);
  }

  /** Narrows every block but the entry once, in ascending order, each in view of those before it. */
  method Sweep(reachable: seq<BlockId>, blocks: Blocks, universe: Values, entry: Values, generated: Transfer,
               predecessors: Predecessors, before: States, ghost first: States, ghost start: seq<States>)
    returns (state: States, changed: bool, ghost trace: seq<States>)
    requires AreReachableBlocks(blocks, reachable) && OnlyAdds(generated)
    requires Sound(reachable, blocks, universe, entry, generated, before)
    requires RecordsEdges(Cfg(blocks), reachable, |reachable|, predecessors)
    requires NarrowsTo(blocks, generated, start, first, before)
    ensures Sound(reachable, blocks, universe, entry, generated, state)
    ensures changed ==> Total(state, reachable) < Total(before, reachable)
    ensures !changed ==> state == before && StableUpTo(reachable, |reachable|, blocks, generated, state)
    ensures NarrowsTo(blocks, generated, trace, first, state)
  {
    state, changed, trace := before, false, start;
    for i := 0 to |reachable|
      invariant Sound(reachable, blocks, universe, entry, generated, state)
      invariant SweptUpTo(reachable, i, blocks, generated, before, state, changed)
      invariant NarrowsTo(blocks, generated, trace, first, state)
    {
      var narrowed;
      state, narrowed, trace := SweepNext(reachable, i, blocks, universe, entry, generated, predecessors, before, state,
                                          changed, first, trace);
      changed := changed || narrowed;
    }
  }

  /** Narrows the block after the first `i`, unless it is the entry. */
  method SweepNext(reachable: seq<BlockId>, i: nat, blocks: Blocks, universe: Values, entry: Values,
                   generated: Transfer, predecessors: Predecessors, ghost before: States, current: States,
                   ghost changed: bool, ghost first: States, ghost start: seq<States>)
    returns (state: States, narrowed: bool, ghost trace: seq<States>)
    requires AreReachableBlocks(blocks, reachable) && OnlyAdds(generated) && i < |reachable|
    requires forall b :: b in reachable ==> b in before
    requires Sound(reachable, blocks, universe, entry, generated, current)
    requires SweptUpTo(reachable, i, blocks, generated, before, current, changed)
    requires RecordsEdges(Cfg(blocks), reachable, |reachable|, predecessors)
    requires NarrowsTo(blocks, generated, start, first, current)
    ensures Sound(reachable, blocks, universe, entry, generated, state)
    ensures SweptUpTo(reachable, i + 1, blocks, generated, before, state, changed || narrowed)
    ensures NarrowsTo(blocks, generated, trace, first, state)
  {
    state, narrowed, trace := current, false, start;
    var id := reachable[i];
    if id != ENTRY_BLOCK {
      HasPredecessor(blocks, reachable, id, predecessors);
      state := Narrow(id, reachable, blocks, universe, entry, generated, predecessors[id], current);
      narrowed := state != current;
      if narrowed {
        NarrowedFurther(blocks, generated, start, first, current, state);
        trace := start + [state];
      }
    }
    SweptPast(reachable, i, blocks, generated, before, current, state, changed);
  }

  lemma SweptPast(reachable: seq<BlockId>, i: nat, blocks: Blocks, generated: Transfer, before: States,
                  current: States, state: States, changed: bool)
    requires StrictlyAscending(reachable) && i < |reachable| && state.Keys <= blocks.Keys
    requires current.Keys <= blocks.Keys && (forall b :: b in reachable ==> b in before)
    requires (forall b :: b in current <==> b in reachable) && forall b :: b in state <==> b in reachable
    requires SweptUpTo(reachable, i, blocks, generated, before, current, changed)
    requires if state != current then Narrowing(blocks, generated, current, state)
             else reachable[i] != ENTRY_BLOCK ==>
               forall v :: v in state[reachable[i]] ==> Incoming(blocks, generated, state, v, reachable[i])
    ensures SweptUpTo(reachable, i + 1, blocks, generated, before, state, changed || state != current)
  {
    if state != current {
      NarrowingShrinks(blocks, generated, current, state, reachable);
    }
  }

  /** The first `n` blocks have been looked at: some state was narrowed, or nothing there can be. */
  ghost predicate SweptUpTo(reachable: seq<BlockId>, n: nat, blocks: Blocks, generated: Transfer, before: States,
                            state: States, changed: bool)
    requires n <= |reachable| && state.Keys <= blocks.Keys
    requires forall b :: b in reachable ==> b in before && b in state
  {
    if changed then Total(state, reachable) < Total(before, reachable)
    else state == before && StableUpTo(reachable, n, blocks, generated, state)
  }

  ghost predicate StableUpTo(reachable: seq<BlockId>, n: nat, blocks: Blocks, generated: Transfer, state: States)
    requires n <= |reachable| && state.Keys <= blocks.Keys
  {
    forall k :: 0 <= k < n && reachable[k] != ENTRY_BLOCK && reachable[k] in state ==>
                  forall v :: v in state[reachable[k]] ==> Incoming(blocks, generated, state, v, reachable[k])
  }

  lemma ReachableBlocksExist(blocks: Blocks, reachable: seq<BlockId>)
    requires AreReachableBlocks(blocks, reachable)
    ensures forall b :: b in reachable ==> b in blocks
  {
    forall b | b in reachable
      ensures b in blocks
    {
      ReachInGraph(Cfg(blocks), ENTRY_BLOCK, b);
    }
  }

  lemma HasPredecessor(blocks: Blocks, reachable: seq<BlockId>, b: BlockId, predecessors: Predecessors)
    requires AreReachableBlocks(blocks, reachable) && b in reachable && b != ENTRY_BLOCK
    requires RecordsEdges(Cfg(blocks), reachable, |reachable|, predecessors)
    ensures b in predecessors
    ensures forall a :: a in predecessors[b] <==> a in reachable && Edge(Cfg(blocks), a, b)
  {
    var c := ReachLastStep(Cfg(blocks), ENTRY_BLOCK, b);
    assert reachable[..|reachable|] == reachable;
    assert BlockReachable(blocks, c);
    assert Recorded(predecessors, c, b);
    assert forall a :: a in predecessors[b] <==> Recorded(predecessors, a, b);
  }

  lemma StableIsExact(reachable: seq<BlockId>, blocks: Blocks, universe: Values, entry: Values, generated: Transfer,
                      state: States)
    requires AreReachableBlocks(blocks, reachable)
    requires Sound(reachable, blocks, universe, entry, generated, state)
    requires StableUpTo(reachable, |reachable|, blocks, generated, state)
    requires entry <= universe
    requires forall b :: b in reachable && b in blocks ==> generated({}, blocks[b]) <= universe
    ensures forall b, v :: b in state ==> (v in state[b] <==> OnEveryPath(blocks, generated, entry, v, b))
  {
    assert Stable(blocks, generated, state);
    forall b, v | b in state
      ensures v in state[b] <==> OnEveryPath(blocks, generated, entry, v, b)
    {
      if v in state[b] {
        forall p | PathFromTo(Cfg(blocks), p, ENTRY_BLOCK, b)
          ensures v in entry || GeneratedBefore(blocks, generated, v, p)
        {
          StableHoldsOnPath(blocks, generated, entry, state, v, p);
        }
      } else if v in universe {
        assert Avoidable(blocks, generated, entry, v, b);
      } else {
        NothingOutsideUniverse(blocks, generated, entry, universe, v, b);
      }
    }
  }

  /** Some path reaches `b` without `v` ever being established. */
  ghost predicate Avoidable(blocks: Blocks, generated: Transfer, entry: Values, v: ValueId, b: BlockId) {
    v !in entry && exists p :: PathFromTo(Cfg(blocks), p, ENTRY_BLOCK, b) && !GeneratedBefore(blocks, generated, v, p)
  }

  ghost predicate Witnessed(blocks: Blocks, generated: Transfer, entry: Values, universe: Values, state: States) {
    forall b, v {:trigger Avoidable(blocks, generated, entry, v, b)} ::
      b in state && v in universe && v !in state[b] ==> Avoidable(blocks, generated, entry, v, b)
  }

  /** What arrives at a block is never more than its state: a step can only narrow. */
  ghost predicate Descending(blocks: Blocks, generated: Transfer, state: States)
    requires state.Keys <= blocks.Keys
  {
    forall b, v {:trigger Incoming(blocks, generated, state, v, b)} ::
      b in state && b != ENTRY_BLOCK && v !in state[b] ==> !Incoming(blocks, generated, state, v, b)
  }

  ghost predicate Stable(blocks: Blocks, generated: Transfer, state: States)
    requires state.Keys <= blocks.Keys
  {
    forall b, v {:trigger Incoming(blocks, generated, state, v, b)} ::
      b in state && b != ENTRY_BLOCK && v in state[b] ==> Incoming(blocks, generated, state, v, b)
  }

  lemma InitialStatesAreWitnessed(blocks: Blocks, generated: Transfer, entry: Values, universe: Values, state: States)
    requires entry <= universe
    requires forall b :: b in state <==> BlockReachable(blocks, b)
    requires state.Keys <= blocks.Keys
    requires forall b :: b in state ==> state[b] == if b == ENTRY_BLOCK then entry else universe
    requires forall b :: b in state ==> generated({}, blocks[b]) <= universe
    ensures Witnessed(blocks, generated, entry, universe, state)
    ensures Descending(blocks, generated, state)
  {
    var g := Cfg(blocks);
    forall b, v | b in state && v in universe && v !in state[b]
      ensures Avoidable(blocks, generated, entry, v, b)
    {
      assert PathFromTo(g, [b], ENTRY_BLOCK, b);
      assert !GeneratedBefore(blocks, generated, v, [b]);
    }
    forall b, v | b in state && b != ENTRY_BLOCK && v !in state[b]
      ensures !Incoming(blocks, generated, state, v, b)
    {
      var a := ReachLastStep(g, ENTRY_BLOCK, b);
      assert !ArrivesFrom(blocks, generated, state, v, a);
    }
  }

  lemma IncomingIsMeet(blocks: Blocks, generated: Transfer, state: States, preds: set<BlockId>, b: BlockId,
                       incoming: Values)
    requires state.Keys <= blocks.Keys && preds <= state.Keys
    requires forall a :: a in preds <==> a in state && Edge(Cfg(blocks), a, b)
    requires forall v :: v in incoming <==> forall a :: a in preds ==> ArrivesFrom(blocks, generated, state, v, a)
    requires b in state && b != ENTRY_BLOCK && Descending(blocks, generated, state)
    ensures forall v :: v in incoming <==> Incoming(blocks, generated, state, v, b)
    ensures incoming <= state[b]
  {
    forall v
      ensures v in incoming <==> Incoming(blocks, generated, state, v, b)
    {
    }
  }

  lemma NarrowKeepsWitnesses(blocks: Blocks, generated: Transfer, entry: Values, universe: Values, state: States,
                             b: BlockId, incoming: Values)
    requires state.Keys <= blocks.Keys && b in state
    requires Witnessed(blocks, generated, entry, universe, state)
    requires forall v :: v in incoming <==> Incoming(blocks, generated, state, v, b)
    ensures Witnessed(blocks, generated, entry, universe, state[b := incoming])
  {
    forall v | v in universe && v !in incoming
      ensures Avoidable(blocks, generated, entry, v, b)
    {
      var a :| a in state && Edge(Cfg(blocks), a, b) && !ArrivesFrom(blocks, generated, state, v, a);
      assert Avoidable(blocks, generated, entry, v, a);
      var p :| PathFromTo(Cfg(blocks), p, ENTRY_BLOCK, a) && !GeneratedBefore(blocks, generated, v, p);
      PathExtend(Cfg(blocks), p, b);
      NotGeneratedOneStepOn(blocks, generated, v, p, b);
    }
  }

  lemma NotGeneratedOneStepOn(blocks: Blocks, generated: Transfer, v: ValueId, p: seq<BlockId>, b: BlockId)
    requires |p| > 0 && !GeneratedBefore(blocks, generated, v, p)
    requires p[|p| - 1] in blocks && v !in generated({}, blocks[p[|p| - 1]])
    ensures !GeneratedBefore(blocks, generated, v, p + [b])
  {
    var q := p + [b];
    forall i | 0 <= i < |q| - 1 && q[i] in blocks
      ensures v !in generated({}, blocks[q[i]])
    {
      assert q[i] == p[i];
    }
  }

  lemma NarrowKeepsDescending(blocks: Blocks, generated: Transfer, state: States, b: BlockId, incoming: Values)
    requires state.Keys <= blocks.Keys && b in state
    requires Descending(blocks, generated, state)
    requires forall v :: v in incoming <==> Incoming(blocks, generated, state, v, b)
    requires incoming <= state[b]
    ensures Descending(blocks, generated, state[b := incoming])
  {
    var narrowed := state[b := incoming];
    forall c, v | c in narrowed && c != ENTRY_BLOCK && v !in narrowed[c]
      ensures !Incoming(blocks, generated, narrowed, v, c)
    {
      assert !Incoming(blocks, generated, state, v, c);
      var a :| a in state && Edge(Cfg(blocks), a, c) && !ArrivesFrom(blocks, generated, state, v, a);
      assert !ArrivesFrom(blocks, generated, narrowed, v, a);
    }
  }

  /** A value in a stable state is established along every path to that block. */
  lemma {:induction false} StableHoldsOnPath(blocks: Blocks, generated: Transfer, entry: Values, state: States,
                                             v: ValueId, p: seq<BlockId>)
    requires state.Keys <= blocks.Keys && Stable(blocks, generated, state)
    requires forall b :: b in state <==> BlockReachable(blocks, b)
    requires ENTRY_BLOCK in state ==> state[ENTRY_BLOCK] == entry
    requires IsPath(Cfg(blocks), p) && p[0] == ENTRY_BLOCK
    requires p[|p| - 1] in state && v in state[p[|p| - 1]]
    ensures v in entry || GeneratedBefore(blocks, generated, v, p)
    decreases |p|
  {
    var g := Cfg(blocks);
    var b := p[|p| - 1];
    if b != ENTRY_BLOCK {
      var q := p[..|p| - 1];
      var a := p[|p| - 2];
      PathPrefix(g, p, |p| - 1);
      assert Step(g, p, |p| - 2);
      assert Reach(g, ENTRY_BLOCK, a);
      assert Incoming(blocks, generated, state, v, b);
      assert ArrivesFrom(blocks, generated, state, v, a);
      if v in generated({}, blocks[a]) {
        assert p[|p| - 2] in blocks;
      } else {
        StableHoldsOnPath(blocks, generated, entry, state, v, q);
        if GeneratedBefore(blocks, generated, v, q) {
          var i :| 0 <= i < |q| - 1 && q[i] in blocks && v in generated({}, blocks[q[i]]);
          assert p[i] == q[i];
        }
      }
    }
  }

  lemma NothingOutsideUniverse(blocks: Blocks, generated: Transfer, entry: Values, universe: Values, v: ValueId,
                               b: BlockId)
    requires BlockReachable(blocks, b) && v !in universe && entry <= universe
    requires forall c :: BlockReachable(blocks, c) && c in blocks ==> generated({}, blocks[c]) <= universe
    ensures !OnEveryPath(blocks, generated, entry, v, b)
  {
    var g := Cfg(blocks);
    var p :| PathFromTo(g, p, ENTRY_BLOCK, b);
    forall i | 0 <= i < |p| - 1 && p[i] in blocks
      ensures v !in generated({}, blocks[p[i]])
    {
      PathPrefix(g, p, i + 1);
    }
  }
}
