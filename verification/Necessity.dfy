/** What NIR verification contributes is needed: a program the backend accepts whose `alloc` comes after its store. */
module Necessity {
  import opened Wrappers
  import opened Numeric
  import opened Nir
  import opened Graphs
  import opened Ordered
  import opened Dataflow
  import opened Capability
  import opened NirSemantics
  import opened TypeSafety
  import opened Postorder
  import opened Bodies
  import opened CodeGeneration

  /** `bb0: %1 = 5; store %0, %1; %0 = alloc; %2 = load %0; return %2` */
  const LATE_ALLOC: BasicBlock := BasicBlock(
    0,
    [Value(1, I64Ty, Constant(IntConst(5))),
     Store(0, 1, Observe),
     Value(0, I64Ty, Alloc),
     Value(2, I64Ty, Load(0))],
    Return(Some(2)))

  const MAIN: Function := Function(0, ENTRY_NAME, 0, 0, [], I64Ty, 0, [LATE_ALLOC])

  const PROGRAM: Module := Module([MAIN])

  const BUILD: Build := Build(TARGET_TRIPLE, 0, map[], 0)

  const PLAN: NativePlan := NativePlan(0, IntScalar, [0], map[0 := [0]])

  const TYPES: Types := map[0 := I64Ty, 1 := I64Ty, 2 := I64Ty]

  const CONTEXT: Context := Context(map[0 := MAIN], MAIN, map[0 := LATE_ALLOC], TYPES, {0})

  lemma OnlyMain()
    ensures FunctionMap(PROGRAM.functions) == map[0 := MAIN]
    ensures BlockMap(MAIN.blocks) == map[0 := LATE_ALLOC]
  {
    assert PROGRAM.functions[1..] == [] && MAIN.blocks[1..] == [];
  }

  lemma NoEdges(g: Graph, a: Node, b: Node)
    requires a in g && forall c :: c in g ==> g[c] == []
    ensures Reach(g, a, b) <==> a == b
    ensures !ReachPlus(g, a, b)
  {
    ReachSelf(g, a);
    if Reach(g, a, b) && a != b {
      var c := ReachLastStep(g, a, b);
    }
  }

  lemma OnlyEntryBlock(b: BlockId)
    ensures BlockReachable(CONTEXT.blocks, b) <==> b == 0
  {
    NoEdges(Cfg(CONTEXT.blocks), 0, b);
  }

  /** The three definitions of the block. */
  lemma Definitions(b: BlockId, i: int, v: ValueId)
    ensures Defines(CONTEXT.blocks, b, i, v) <==>
            b == 0 && ((i == 0 && v == 1) || (i == 2 && v == 0) || (i == 3 && v == 2))
  {
    OnlyEntryBlock(b);
  }

  lemma FactsHold()
    ensures IsContext(CONTEXT.functions, MAIN, CONTEXT)
  {
    OnlyMain();
    forall b, i, v
      ensures Defines(CONTEXT.blocks, b, i, v)
              <==> b == 0 && ((i == 0 && v == 1) || (i == 2 && v == 0) || (i == 3 && v == 2))
    {
      Definitions(b, i, v);
    }
    assert Defines(CONTEXT.blocks, 0, 0, 1) && Defines(CONTEXT.blocks, 0, 2, 0) && Defines(CONTEXT.blocks, 0, 3, 2);
    assert AllocatedAt(CONTEXT.blocks, 0, 2, 0);
  }

  lemma DefinedOnceEach()
    ensures SingleDefinitions(MAIN, CONTEXT.blocks)
  {
    forall b, i, v
      ensures Defines(CONTEXT.blocks, b, i, v)
              <==> b == 0 && ((i == 0 && v == 1) || (i == 2 && v == 0) || (i == 3 && v == 2))
    {
      Definitions(b, i, v);
    }
    forall v
      ensures DefinedOnce(CONTEXT.blocks, v)
    {
    }
  }

  /** Every check of the block passes: the store has been seen on every path to the load. */
  lemma ChecksHold()
    ensures ContextOk(CONTEXT)
  {
    var insts := LATE_ALLOC.instructions;
    assert insts[..2][0] == insts[0] && insts[..1][0] == insts[0];
    assert 1 in LiveAt(CONTEXT, 0, 1);
    assert insts[..3][1] == insts[1];
    assert 0 in StoredAt(CONTEXT, 0, 3);
    assert insts[..4][3] == insts[3];
    assert 2 in LiveAt(CONTEXT, 0, 4);
    assert InstructionOk(CONTEXT, 0, 0) && InstructionOk(CONTEXT, 0, 1);
    assert InstructionOk(CONTEXT, 0, 2) && InstructionOk(CONTEXT, 0, 3);
    assert BlockOk(CONTEXT, 0);
    forall b | BlockReachable(CONTEXT.blocks, b) && b in CONTEXT.blocks
      ensures BlockOk(CONTEXT, b)
    {
      OnlyEntryBlock(b);
    }
  }

  lemma OneBlockReached()
    ensures ReachableSeq(CONTEXT.blocks) == [0]
  {
    forall b
      ensures BlockReachable(CONTEXT.blocks, b) <==> b == 0
    {
      OnlyEntryBlock(b);
    }
    AscendingUnique(ReachableSeq(CONTEXT.blocks), [0]);
  }

  lemma {:induction false} NothingCalled(instructions: seq<Instruction>)
    requires forall i :: 0 <= i < |instructions| ==> !(instructions[i].Value? && instructions[i].kind.Call?)
    ensures CalledBy(instructions) == []
  {
    if instructions != [] {
      NothingCalled(instructions[1..]);
    }
  }

  lemma NoCallees(blocks: Blocks, block: BasicBlock)
    requires 0 in blocks && blocks[0] == block && !block.terminator.Invoke? && CalledBy(block.instructions) == []
    ensures DirectCallees(blocks, [0]) == []
  {
    assert [0][1..] == [];
  }

  lemma CallsNobody(f: Function, blocks: Blocks, block: BasicBlock)
    requires blocks == BlockMap(f.blocks) && ReachableSeq(blocks) == [0] && 0 in blocks && blocks[0] == block
    requires !block.terminator.Invoke? && CalledBy(block.instructions) == []
    ensures CalleesOf(f) == []
  {
    NoCallees(blocks, block);
  }

  lemma OnlyNode(f: Function)
    requires CalleesOf(f) == []
    ensures CallGraph(map[0 := f]) == map[0 := []]
  {
  }

  lemma NoCalls()
    ensures CallGraph(map[0 := MAIN]) == map[0 := []]
  {
    OnlyMain();
    OneBlockReached();
    NothingCalled(LATE_ALLOC.instructions);
    CallsNobody(MAIN, CONTEXT.blocks, LATE_ALLOC);
    OnlyNode(MAIN);
  }

  lemma MainIsOk()
    ensures FunctionOk(map[0 := MAIN], BUILD, 0, true)
  {
    OnlyMain();
    DefinedOnceEach();
    FactsHold();
    ChecksHold();
    assert BodyOk(map[0 := MAIN], MAIN);
  }

  lemma OnlyMainIsReached(id: ItemId)
    ensures Reach(CallGraph(map[0 := MAIN]), 0, id) <==> id == 0
    ensures !ReachPlus(CallGraph(map[0 := MAIN]), 0, id)
  {
    NoCalls();
    NoEdges(map[0 := []], 0, id);
  }

  lemma IsInSubset()
    ensures InSubset(PROGRAM, BUILD, 0)
  {
    OnlyMain();
    MainIsOk();
    assert IsEntry(map[0 := MAIN], 0);
    forall id
      ensures Reach(CallGraph(map[0 := MAIN]), 0, id) <==> id == 0
      ensures !ReachPlus(CallGraph(map[0 := MAIN]), 0, id)
    {
      OnlyMainIsReached(id);
    }
  }

  lemma ConstantFits()
    ensures ConstantsFit(CONTEXT.blocks)
  {
    forall b, i, instruction | InstructionAt(CONTEXT.blocks, b, i, instruction) && IsIntConstant(instruction)
      ensures InI64(instruction.kind.value.literal)
    {
      OnlyEntryBlock(b);
    }
  }

  lemma AllocIsLate()
    ensures !AllocsDominate(CONTEXT.blocks)
  {
    OnlyEntryBlock(0);
    assert AllocatedAt(CONTEXT.blocks, 0, 2, 0) && StoredTo(CONTEXT.blocks, 0, 1, 0);
    assert !PositionDominates(CONTEXT.blocks, 0, 2, 0, 1);
  }

  /** The placeholder the `alloc` left is loaded as an `i64`. */
  lemma LoadsPlaceholder(limit: nat)
    requires limit > 0
    ensures StateAfter(PROGRAM, 0, limit, 4) == Stuck
  {
    OnlyMain();
    var functions := map[0 := MAIN];
    var s0 := Start(0, limit);
    var s1 := Running([], Frame(0, 0, 1, map[1 := IntDatum(5)], {}));
    var s2 := Running([], Frame(0, 0, 2, map[1 := IntDatum(5), 0 := IntDatum(5)], {0}));
    var s3 := Running([], Frame(0, 0, 3, map[1 := IntDatum(5), 0 := UnitDatum], {}));
    assert Advance(functions, limit, s0) == s1;
    assert Advance(functions, limit, s1) == s2;
    assert Advance(functions, limit, s2) == s3;
    assert Advance(functions, limit, s3) == Stuck;
    assert Run(functions, limit, s3, 1) == Stuck;
    assert Run(functions, limit, s2, 2) == Stuck;
    assert Run(functions, limit, s1, 3) == Stuck;
  }

  lemma PlanOfMain()
    ensures IsPlan(PROGRAM, 0, PLAN)
  {
    OnlyMain();
    forall id
      ensures Reach(CallGraph(map[0 := MAIN]), 0, id) <==> id == 0
    {
      OnlyMainIsReached(id);
    }
    forall b
      ensures BlockReachable(CONTEXT.blocks, b) <==> b == 0
    {
      OnlyEntryBlock(b);
    }
  }

  /** Whatever the order, the store is emitted before the `alloc`. */
  lemma EmittedLate(order: seq<BlockId>)
    ensures !AllocsFirst(CONTEXT.blocks, order)
  {
    OnlyEntryBlock(0);
    assert AllocatedAt(CONTEXT.blocks, 0, 2, 0) && StoredTo(CONTEXT.blocks, 0, 1, 0);
    assert !EmittedBefore(order, 0, 2, 0, 1);
  }

  /** The dominance of `alloc`s is not implied by what the backend checks: without it a run can load the
      placeholder, and the program's plan cannot be lowered. */
  lemma AllocDominanceIsNeeded(limit: nat)
    ensures InSubset(PROGRAM, BUILD, 0) && IsPlan(PROGRAM, 0, PLAN)
    ensures ConstantsFit(BlockMap(MAIN.blocks)) && !AllocsDominate(BlockMap(MAIN.blocks))
    ensures limit > 0 ==> StateAfter(PROGRAM, 0, limit, 4) == Stuck
    ensures !AllPlannedLower(FunctionMap(PROGRAM.functions), PLAN)
  {
    IsInSubset();
    PlanOfMain();
    ConstantFits();
    AllocIsLate();
    if limit > 0 {
      LoadsPlaceholder(limit);
    }
    OnlyMain();
    EmittedLate(EmissionOrder(CONTEXT.blocks, [0]));
    assert !PlannedLowers(map[0 := MAIN], PLAN, 0);
  }
}
