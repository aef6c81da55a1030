/** No run of an accepted program ever gets stuck.

    Two facts are taken from NIR verification, which the backend's own checks do not repeat: integer constants
    fit the executed domain, and each `alloc` dominates every store and load of its slot. */
module TypeSafety {
  import opened Wrappers
  import opened Numeric
  import opened Nir
  import opened Graphs
  import opened Dataflow
  import opened Capability
  import opened NirSemantics

  predicate IsIntConstant(instruction: Instruction) {
    instruction.Value? && instruction.kind.Constant? && instruction.kind.value.IntConst?
  }

  ghost predicate ConstantsFit(blocks: Blocks) {
    forall b, i, instruction {:trigger InstructionAt(blocks, b, i, instruction)} ::
      InstructionAt(blocks, b, i, instruction) && IsIntConstant(instruction) ==> InI64(instruction.kind.value.literal)
  }

  ghost predicate StoredTo(blocks: Blocks, b: BlockId, i: int, s: ValueId) {
    BlockReachable(blocks, b) && b in blocks && 0 <= i < |blocks[b].instructions|
    && blocks[b].instructions[i].Store? && blocks[b].instructions[i].slot == s
  }

  ghost predicate LoadedFrom(blocks: Blocks, b: BlockId, i: int, s: ValueId) {
    BlockReachable(blocks, b) && b in blocks && 0 <= i < |blocks[b].instructions|
    && blocks[b].instructions[i].Value? && blocks[b].instructions[i].kind.Load?
    && blocks[b].instructions[i].kind.slot == s
  }

  /** Position `i` of `b` comes before position `j` of `d` on every way to the latter. */
  ghost predicate PositionDominates(blocks: Blocks, b: BlockId, i: int, d: BlockId, j: int) {
    if b == d then i < j else Dominates(Cfg(blocks), ENTRY_BLOCK, b, d)
  }

  ghost predicate AllocsDominate(blocks: Blocks) {
    forall b, i, s, d, j ::
      AllocatedAt(blocks, b, i, s) && (StoredTo(blocks, d, j, s) || LoadedFrom(blocks, d, j, s)) ==>
        PositionDominates(blocks, b, i, d, j)
  }

  ghost predicate Verified(f: Function) {
    ConstantsFit(BlockMap(f.blocks)) && AllocsDominate(BlockMap(f.blocks))
  }

  /** The validator accepts the program, and NIR verification accepted what it reaches. */
  ghost predicate Accepted(m: Module, build: Build, entry: ItemId) {
    && InSubset(m, build, entry)
    && forall id :: Reach(CallGraph(FunctionMap(m.functions)), entry, id) && id in FunctionMap(m.functions) ==>
                      Verified(FunctionMap(m.functions)[id])
  }

  /** The facts the checks consulted; they are determined by the function. */
  ghost function ContextOf(functions: Functions, f: Function): (c: Context)
    requires BodyOk(functions, f)
    ensures IsContext(functions, f, c) && ContextOk(c)
  {
    var c :| IsContext(functions, f, c) && ContextOk(c);
    c
  }

  // What the analyses say about one position, from the positions before it.

  lemma OneBlockBack(blocks: Blocks, generated: Transfer, entry: Values, v: ValueId, b: BlockId, t: BlockId)
    requires Edge(Cfg(blocks), b, t) && OnEveryPath(blocks, generated, entry, v, t)
    ensures v in generated({}, blocks[b]) || OnEveryPath(blocks, generated, entry, v, b)
  {
    if v !in generated({}, blocks[b]) && v !in entry {
      forall p | PathFromTo(Cfg(blocks), p, ENTRY_BLOCK, b)
        ensures GeneratedBefore(blocks, generated, v, p)
      {
        PathExtend(Cfg(blocks), p, t);
        assert GeneratedBefore(blocks, generated, v, p + [t]);
        if !GeneratedBefore(blocks, generated, v, p) { NotGeneratedOneStepOn(blocks, generated, v, p, t); }
      }
    }
  }

  lemma NothingBeforeEntry(blocks: Blocks, generated: Transfer, entry: Values, v: ValueId)
    requires ENTRY_BLOCK in blocks && OnEveryPath(blocks, generated, entry, v, ENTRY_BLOCK)
    ensures v in entry
  {
    assert PathFromTo(Cfg(blocks), [ENTRY_BLOCK], ENTRY_BLOCK, ENTRY_BLOCK);
  }

  function NewlyDefined(instruction: Instruction): Values {
    if instruction.Value? then {instruction.result} else {}
  }

  function NewlyStored(instruction: Instruction): Values {
    if instruction.Store? then {instruction.slot} else {}
  }

  lemma LiveNext(c: Context, b: BlockId, i: nat)
    requires b in c.blocks && i < |c.blocks[b].instructions|
    ensures LiveAt(c, b, i + 1) <= LiveAt(c, b, i) + NewlyDefined(c.blocks[b].instructions[i])
  {
    var instructions := c.blocks[b].instructions;
    assert forall j :: 0 <= j < i ==> instructions[..i + 1][j] == instructions[..i][j];
  }

  lemma LiveAcross(c: Context, b: BlockId, t: BlockId)
    requires Edge(Cfg(c.blocks), b, t)
    ensures LiveAt(c, t, 0) <= LiveAt(c, b, |c.blocks[b].instructions|)
  {
    var instructions := c.blocks[b].instructions;
    assert instructions[..|instructions|] == instructions;
    forall v | v in LiveAt(c, t, 0)
      ensures v in LiveAt(c, b, |instructions|)
    {
      if v !in ParameterValues(c.current) {
        OneBlockBack(c.blocks, DefinesAfter, ParameterValues(c.current), v, b, t);
      }
    }
  }

  lemma LiveAtEntry(c: Context)
    requires ENTRY_BLOCK in c.blocks
    ensures LiveAt(c, ENTRY_BLOCK, 0) <= ParameterValues(c.current)
  {
    forall v | v in LiveAt(c, ENTRY_BLOCK, 0)
      ensures v in ParameterValues(c.current)
    {
      if v !in ParameterValues(c.current) {
        NothingBeforeEntry(c.blocks, DefinesAfter, ParameterValues(c.current), v);
      }
    }
  }

  lemma StoredNext(c: Context, b: BlockId, i: nat)
    requires b in c.blocks && i < |c.blocks[b].instructions|
    ensures StoredAt(c, b, i + 1) <= StoredAt(c, b, i) + NewlyStored(c.blocks[b].instructions[i])
  {
    var instructions := c.blocks[b].instructions;
    assert forall j :: 0 <= j < i ==> instructions[..i + 1][j] == instructions[..i][j];
  }

  lemma StoredAcross(c: Context, b: BlockId, t: BlockId)
    requires Edge(Cfg(c.blocks), b, t)
    ensures StoredAt(c, t, 0) <= StoredAt(c, b, |c.blocks[b].instructions|)
  {
    var instructions := c.blocks[b].instructions;
    assert instructions[..|instructions|] == instructions;
    forall s | s in StoredAt(c, t, 0)
      ensures s in StoredAt(c, b, |instructions|)
    {
      OneBlockBack(c.blocks, StoresAfter, {}, s, b, t);
    }
  }

  lemma StoredAtEntry(c: Context)
    requires ENTRY_BLOCK in c.blocks
    ensures StoredAt(c, ENTRY_BLOCK, 0) == {}
  {
    forall s | s in StoredAt(c, ENTRY_BLOCK, 0)
      ensures false
    {
      NothingBeforeEntry(c.blocks, StoresAfter, {}, s);
    }
  }

  lemma StoreNeedsAlloc(blocks: Blocks, b: BlockId, i: nat, s: ValueId, q: seq<BlockId>, d: BlockId)
    requires AllocsDominate(blocks) && AllocatedAt(blocks, b, i, s)
    requires PathFromTo(Cfg(blocks), q, ENTRY_BLOCK, d)
    ensures d in blocks && (s in StoredIn(blocks[d].instructions) ==> b in q)
  {
    assert d in q;
    forall j | StoredTo(blocks, d, j, s)
      ensures b in q
    {
      assert PositionDominates(blocks, b, i, d, j);
    }
    if s in StoredIn(blocks[d].instructions) {
      var j :| 0 <= j < |blocks[d].instructions| && blocks[d].instructions[j].Store?
          && blocks[d].instructions[j].slot == s;
      assert StoredTo(blocks, d, j, s);
    }
  }

  /** Where a slot is allocated, nothing is known to be stored in it, although no store is ever forgotten. */
  lemma AllocNotStored(c: Context, b: BlockId, i: nat, s: ValueId)
    requires AllocsDominate(c.blocks) && AllocatedAt(c.blocks, b, i, s)
    ensures s !in StoredAt(c, b, i + 1)
  {
    var g := Cfg(c.blocks);
    var instructions := c.blocks[b].instructions;
    var before := instructions[..i + 1];
    forall j | 0 <= j < |before|
      ensures !(before[j].Store? && before[j].slot == s)
    {
      assert !StoredTo(c.blocks, b, j, s);
    }
    var p :| PathFromTo(g, p, ENTRY_BLOCK, b);
    var k := FirstOccurrence(p, b);
    PathPrefix(g, p, k + 1);
    var q := p[..k + 1];
    forall n | 0 <= n < |q| - 1 && q[n] in c.blocks
      ensures s !in StoresAfter({}, c.blocks[q[n]])
    {
      PathPrefix(g, q, n + 1);
      StoreNeedsAlloc(c.blocks, b, i, s, q[..n + 1], q[n]);
      assert forall m :: 0 <= m < n + 1 ==> q[..n + 1][m] == p[..k][m];
    }
    assert PathFromTo(g, q, ENTRY_BLOCK, b);
  }

  // What one activation satisfies.

  ghost predicate Positioned(c: Context, frame: Frame) {
    BlockReachable(c.blocks, frame.block) && frame.block in c.blocks
    && frame.pc <= |c.blocks[frame.block].instructions|
  }

  /** A value holds a datum of its declared type; a slot does once it has been stored. */
  ghost predicate ValueOk(c: Context, frame: Frame, v: ValueId) {
    v in frame.values ==>
      v in c.types && (v !in c.slots || v in frame.stored ==> HasType(frame.values[v], c.types[v]))
  }

  ghost predicate ValuesOk(c: Context, frame: Frame) {
    forall v {:trigger ValueOk(c, frame, v)} :: ValueOk(c, frame, v)
  }

  ghost predicate Available(c: Context, frame: Frame)
    requires Positioned(c, frame)
  {
    && LiveAt(c, frame.block, frame.pc) <= frame.values.Keys
    && StoredAt(c, frame.block, frame.pc) <= frame.stored
    && frame.stored <= c.slots * frame.values.Keys
  }

  ghost predicate Holds(c: Context, frame: Frame) {
    Positioned(c, frame) && Available(c, frame) && ValuesOk(c, frame)
  }

  ghost predicate CheckedFunction(functions: Functions, id: ItemId) {
    id in functions && BodyOk(functions, functions[id]) && Verified(functions[id])
    && CheckParameters(functions[id].params) == None && ScalarOf(functions[id].returnType).Some?
  }

  ghost predicate FrameOk(functions: Functions, frame: Frame) {
    CheckedFunction(functions, frame.callee) && Holds(ContextOf(functions, functions[frame.callee]), frame)
  }

  lemma OperandHolds(c: Context, frame: Frame, v: ValueId)
    requires Holds(c, frame)
    requires Operand(c, LiveAt(c, frame.block, frame.pc), v).Ok?
    ensures v in frame.values
    ensures HasScalar(frame.values[v], Operand(c, LiveAt(c, frame.block, frame.pc), v).value)
  {
    assert ValueOk(c, frame, v);
  }

  lemma BinaryTyped(op: BinaryOp, left: Scalar, right: Scalar, result: Scalar, a: Datum, b: Datum)
    requires HasScalar(a, left) && HasScalar(b, right)
    requires BinaryFits(op, left, right, result)
    ensures !EvaluateBinary(op, a, b).Invalid?
    ensures EvaluateBinary(op, a, b).Computed? ==> HasScalar(EvaluateBinary(op, a, b).datum, result)
  {
  }

  /** The scalars an accepted binary operation may have. */
  predicate BinaryFits(op: BinaryOp, left: Scalar, right: Scalar, result: Scalar) {
    if IsRefused(op) then false
    else if IsInteger(op) then left == IntScalar && right == IntScalar && result == IntScalar
    else left == right && result == BoolScalar && !(IsOrdered(op) && left == UnitScalar)
  }

  /** A checked operation computes a value of its declared type, or overflows. */
  lemma EvaluationTyped(c: Context, frame: Frame, ty: Ty, kind: ValueKind)
    requires Holds(c, frame)
    requires CheckValue(c, LiveAt(c, frame.block, frame.pc), ty, kind) == None
    requires !kind.Alloc? && !kind.Call?
    requires kind.Load? ==> kind.slot in frame.stored
    requires kind.Constant? && kind.value.IntConst? ==> InI64(kind.value.literal)
    ensures !Evaluate(frame.values, kind).Invalid?
    ensures Evaluate(frame.values, kind).Computed? ==> HasType(Evaluate(frame.values, kind).datum, ty)
  {
    match kind
    case Load(slot) => assert ValueOk(c, frame, slot);
    case Binary(op, a, b) => {
      OperandHolds(c, frame, a);
      OperandHolds(c, frame, b);
      var live := LiveAt(c, frame.block, frame.pc);
      BinaryTyped(op, Operand(c, live, a).value, Operand(c, live, b).value, ScalarOf(ty).value,
                  frame.values[a], frame.values[b]);
    }
    case Neg(a) => OperandHolds(c, frame, a);
    case Not(a) => OperandHolds(c, frame, a);
    case _ =>
  }

  ghost predicate ValueInstructionAt(c: Context, frame: Frame, result: ValueId, ty: Ty, kind: ValueKind) {
    Positioned(c, frame) && frame.pc < |c.blocks[frame.block].instructions|
    && c.blocks[frame.block].instructions[frame.pc] == Value(result, ty, kind)
  }

  lemma DeclaredHere(functions: Functions, f: Function, c: Context, b: BlockId, i: nat, result: ValueId, ty: Ty,
                     kind: ValueKind)
    requires IsContext(functions, f, c) && SingleDefinitions(f, c.blocks)
    requires InstructionAt(c.blocks, b, i, Value(result, ty, kind))
    ensures result in c.types && c.types[result] == ty
    ensures result in c.slots <==> kind.Alloc?
  {
    assert Defines(c.blocks, b, i, result);
    assert Declares(f, c.blocks, result, ty);
    if result in c.slots {
      var d, j :| AllocatedAt(c.blocks, d, j, result);
      assert Defines(c.blocks, d, j, result) && DefinedOnce(c.blocks, result);
    } else if kind.Alloc? {
      assert AllocatedAt(c.blocks, b, i, result);
    }
  }

  lemma ResultDeclared(functions: Functions, f: Function, c: Context, frame: Frame, result: ValueId, ty: Ty,
                       kind: ValueKind)
    requires IsContext(functions, f, c) && SingleDefinitions(f, c.blocks)
    requires ValueInstructionAt(c, frame, result, ty, kind)
    ensures result in c.types && c.types[result] == ty
    ensures result in c.slots <==> kind.Alloc?
  {
    DeclaredHere(functions, f, c, frame.block, frame.pc, result, ty, kind);
  }

  /** Moving past one instruction keeps a frame in order if what the instruction defines or stores is. */
  lemma AdvanceKeeps(c: Context, frame: Frame, after: Frame)
    requires Holds(c, frame) && frame.pc < |c.blocks[frame.block].instructions|
    requires after.block == frame.block && after.pc == frame.pc + 1
    requires frame.values.Keys + NewlyDefined(c.blocks[frame.block].instructions[frame.pc]) <= after.values.Keys
    requires StoredAt(c, frame.block, frame.pc + 1) <= after.stored <= c.slots * after.values.Keys
    requires ValuesOk(c, after)
    ensures Holds(c, after)
  {
    LiveNext(c, frame.block, frame.pc);
  }

  lemma BindKeeps(c: Context, frame: Frame, result: ValueId, ty: Ty, kind: ValueKind, d: Datum)
    requires Holds(c, frame) && ValueInstructionAt(c, frame, result, ty, kind)
    requires result in c.types && c.types[result] == ty && result !in c.slots
    requires HasType(d, ty)
    ensures Holds(c, Bind(frame, result, d))
  {
    var after := Bind(frame, result, d);
    StoredNext(c, frame.block, frame.pc);
    forall v
      ensures ValueOk(c, after, v)
    {
      assert ValueOk(c, frame, v);
    }
    AdvanceKeeps(c, frame, after);
  }

  lemma AllocKeeps(c: Context, frame: Frame, result: ValueId, ty: Ty)
    requires AllocsDominate(c.blocks)
    requires Holds(c, frame) && ValueInstructionAt(c, frame, result, ty, Alloc)
    requires result in c.types && result in c.slots
    ensures Holds(c, Bind(frame, result, UnitDatum).(stored := frame.stored - {result}))
  {
    var after := Bind(frame, result, UnitDatum).(stored := frame.stored - {result});
    assert AllocatedAt(c.blocks, frame.block, frame.pc, result);
    StoredNext(c, frame.block, frame.pc);
    AllocNotStored(c, frame.block, frame.pc, result);
    forall v
      ensures ValueOk(c, after, v)
    {
      assert ValueOk(c, frame, v);
    }
    AdvanceKeeps(c, frame, after);
  }

  lemma StoreKeeps(c: Context, frame: Frame, slot: ValueId, value: ValueId)
    requires Holds(c, frame) && frame.pc < |c.blocks[frame.block].instructions|
    requires c.blocks[frame.block].instructions[frame.pc] == Store(slot, value, Observe)
    requires CheckInstruction(c, LiveAt(c, frame.block, frame.pc), Store(slot, value, Observe)) == None
    ensures value in frame.values
    ensures Holds(c, Bind(frame, slot, frame.values[value]).(stored := frame.stored + {slot}))
  {
    OperandHolds(c, frame, value);
    var after := Bind(frame, slot, frame.values[value]).(stored := frame.stored + {slot});
    StoredNext(c, frame.block, frame.pc);
    forall v
      ensures ValueOk(c, after, v)
    {
      assert ValueOk(c, frame, v);
    }
    AdvanceKeeps(c, frame, after);
  }

  lemma EnterKeeps(c: Context, frame: Frame, target: BlockId)
    requires Holds(c, frame) && frame.pc == |c.blocks[frame.block].instructions|
    requires target in c.blocks && target in TerminatorTargets(c.blocks[frame.block].terminator)
    ensures Holds(c, EnterBlock(frame, target))
  {
    var after := EnterBlock(frame, target);
    LiveAcross(c, frame.block, target);
    StoredAcross(c, frame.block, target);
    ReachThenEdge(Cfg(c.blocks), ENTRY_BLOCK, frame.block, target);
    forall v
      ensures ValueOk(c, after, v)
    {
      assert ValueOk(c, frame, v);
    }
  }

  // What the whole call stack satisfies.

  /** `caller` is at a call to the function `callee` runs, and expects the type it returns. */
  ghost predicate Waiting(functions: Functions, caller: Frame, callee: Frame) {
    match InstructionOf(functions, caller)
    case Some(Value(_, ty, Call(id, _, _, _))) =>
      id == callee.callee && id in functions && ScalarOf(functions[id].returnType) == ScalarOf(ty)
    case _ => false
  }

  ghost predicate Reachable(functions: Functions, entry: ItemId, frame: Frame) {
    Reach(CallGraph(functions), entry, frame.callee)
  }

  ghost predicate InOrder(functions: Functions, entry: ItemId, frame: Frame) {
    FrameOk(functions, frame) && Reachable(functions, entry, frame)
  }

  /** Frames that each satisfy `ok`, every one but the top waiting for the next, the outermost running `entry`. */
  ghost predicate Stacked(ok: Frame -> bool, waits: (Frame, Frame) -> bool, entry: ItemId, callers: seq<Frame>,
                          top: Frame)
    decreases |callers|
  {
    var n := |callers| - 1;
    && ok(top)
    && if n < 0 then top.callee == entry
       else waits(callers[n], top) && Stacked(ok, waits, entry, callers[..n], callers[n])
  }

  ghost function FramesInOrder(functions: Functions, entry: ItemId): Frame -> bool {
    frame => InOrder(functions, entry, frame)
  }

  ghost function FramesWaiting(functions: Functions): (Frame, Frame) -> bool {
    (caller, callee) => Waiting(functions, caller, callee)
  }

  ghost predicate StackOk(functions: Functions, entry: ItemId, callers: seq<Frame>, top: Frame) {
    Stacked(FramesInOrder(functions, entry), FramesWaiting(functions), entry, callers, top)
  }

  ghost predicate StateOk(functions: Functions, entry: ItemId, s: State) {
    match s
    case Running(callers, top) => StackOk(functions, entry, callers, top)
    case Returned(d) => entry in functions && HasType(d, functions[entry].returnType)
    case Failed(_) => true
    case Stuck => false
  }

  /** The functions a run can enter. */
  ghost function ReachableFunctions(functions: Functions, entry: ItemId): set<ItemId> {
    set id | id in functions && Reach(CallGraph(functions), entry, id)
  }

  /** What a run needs of the functions it can enter, and how deep they can nest. */
  ghost predicate Safe(functions: Functions, entry: ItemId, limit: nat) {
    && entry in functions && functions[entry].params == []
    && (forall id :: Reach(CallGraph(functions), entry, id) ==> CheckedFunction(functions, id))
    && (forall id :: Reach(CallGraph(functions), entry, id) ==> !ReachPlus(CallGraph(functions), id, id))
    && |ReachableFunctions(functions, entry)| <= limit
  }

  lemma AcceptedFunction(functions: Functions, build: Build, id: ItemId, isEntry: bool)
    requires FunctionOk(functions, build, id, isEntry) && Verified(functions[id])
    ensures CheckedFunction(functions, id)
  {
    FunctionOkParts(functions, build, id, isEntry);
  }

  lemma AcceptedIsSafe(m: Module, build: Build, entry: ItemId, plan: NativePlan, limit: nat)
    requires Accepted(m, build, entry) && IsPlan(m, entry, plan)
    requires |plan.functions| <= limit
    ensures Safe(FunctionMap(m.functions), entry, limit)
  {
    var functions := FunctionMap(m.functions);
    var g := CallGraph(functions);
    SubsetEntry(m, build, entry);
    forall id | Reach(g, entry, id)
      ensures CheckedFunction(functions, id)
    {
      SubsetFunction(m, build, entry, id);
      ReachInGraph(g, entry, id);
      AcceptedFunction(functions, build, id, id == entry);
    }
    SubsetFunction(m, build, entry, entry);
    FunctionOkParts(functions, build, entry, true);
    PlannedAreReachable(m, entry, plan);
    MembersBound(plan.functions);
  }

  lemma PlannedAreReachable(m: Module, entry: ItemId, plan: NativePlan)
    requires IsPlan(m, entry, plan)
    ensures ReachableFunctions(FunctionMap(m.functions), entry) == Members(plan.functions)
  {
    forall id | Reach(CallGraph(FunctionMap(m.functions)), entry, id)
      ensures id in FunctionMap(m.functions)
    {
      ReachInGraph(CallGraph(FunctionMap(m.functions)), entry, id);
    }
  }

  lemma {:induction false} MembersBound(s: seq<nat>)
    ensures |Members(s)| <= |s|
  {
    if s != [] {
      MembersBound(s[1..]);
      assert Members(s) == {s[0]} + Members(s[1..]);
    }
  }

  lemma {:induction false} CalleeIsCalled(blocks: Blocks, reachable: seq<BlockId>, b: BlockId, callee: ItemId)
    requires b in reachable && b in blocks && callee in BlockCallees(blocks[b])
    ensures callee in DirectCallees(blocks, reachable)
  {
    if reachable[0] != b {
      CalleeIsCalled(blocks, reachable[1..], b, callee);
    }
  }

  /** Each activation was called by the one before it, so the call graph has an edge between them. */
  lemma WaitingIsEdge(functions: Functions, caller: Frame, callee: Frame)
    requires FrameOk(functions, caller) && Waiting(functions, caller, callee)
    ensures Edge(CallGraph(functions), caller.callee, callee.callee)
  {
    var f := functions[caller.callee];
    var blocks := BlockMap(f.blocks);
    CalleeIsCalled(blocks, ReachableSeq(blocks), caller.block, callee.callee);
  }

  /** Every wait of a frame that is in order is an edge of `g`. */
  ghost predicate WaitsFollow(ok: Frame -> bool, waits: (Frame, Frame) -> bool, g: Graph) {
    forall a, b {:trigger waits(a, b)} :: ok(a) && waits(a, b) ==> Edge(g, a.callee, b.callee)
  }

  lemma {:induction false} CallersReachTop(ok: Frame -> bool, waits: (Frame, Frame) -> bool, g: Graph, entry: ItemId,
                                           callers: seq<Frame>, top: Frame, i: nat)
    requires Stacked(ok, waits, entry, callers, top) && WaitsFollow(ok, waits, g) && i < |callers|
    ensures ReachPlus(g, callers[i].callee, top.callee)
    decreases |callers|
  {
    var n := |callers| - 1;
    assert Stacked(ok, waits, entry, callers[..n], callers[n]);
    assert Edge(g, callers[n].callee, top.callee);
    if i < n {
      CallersReachTop(ok, waits, g, entry, callers[..n], callers[n], i);
      ReachPlusThenEdge(g, callers[i].callee, callers[n].callee, top.callee);
    } else {
      ReachSelf(g, top.callee);
    }
  }

  lemma ReachPlusThenEdge(g: Graph, a: Node, b: Node, c: Node)
    requires ReachPlus(g, a, b) && Edge(g, b, c)
    ensures ReachPlus(g, a, c)
  {
    var d :| Edge(g, a, d) && Reach(g, d, b);
    ReachThenEdge(g, d, b, c);
  }

  lemma {:induction false} EveryFrameOk(ok: Frame -> bool, waits: (Frame, Frame) -> bool, entry: ItemId,
                                        callers: seq<Frame>, top: Frame)
    requires Stacked(ok, waits, entry, callers, top)
    ensures ok(top) && forall i :: 0 <= i < |callers| ==> ok(callers[i])
    decreases |callers|
  {
    if callers != [] {
      var n := |callers| - 1;
      EveryFrameOk(ok, waits, entry, callers[..n], callers[n]);
    }
  }

  ghost predicate DistinctActive(callers: seq<Frame>, top: Frame) {
    && (forall i :: 0 <= i < |callers| ==> callers[i].callee != top.callee)
    && (forall i, j :: 0 <= i < j < |callers| ==> callers[i].callee != callers[j].callee)
  }

  ghost predicate NoCycles(g: Graph, ok: Frame -> bool) {
    forall a {:trigger ok(a)} :: ok(a) ==> !ReachPlus(g, a.callee, a.callee)
  }

  lemma {:induction false} ActiveAreDistinct(ok: Frame -> bool, waits: (Frame, Frame) -> bool, g: Graph, entry: ItemId,
                                             callers: seq<Frame>, top: Frame)
    requires Stacked(ok, waits, entry, callers, top) && WaitsFollow(ok, waits, g)
    requires NoCycles(g, ok)
    ensures DistinctActive(callers, top)
    decreases |callers|
  {
    forall i | 0 <= i < |callers|
      ensures callers[i].callee != top.callee
    {
      CallersReachTop(ok, waits, g, entry, callers, top, i);
    }
    if callers != [] {
      var n := |callers| - 1;
      ActiveAreDistinct(ok, waits, g, entry, callers[..n], callers[n]);
    }
  }

  lemma {:induction false} DistinctCallees(frames: seq<Frame>, ids: set<ItemId>)
    requires forall i, j :: 0 <= i < j < |frames| ==> frames[i].callee != frames[j].callee
    requires forall i :: 0 <= i < |frames| ==> frames[i].callee in ids
    ensures |frames| <= |ids|
  {
    if frames != [] {
      var rest := frames[1..];
      forall i | 0 <= i < |rest|
        ensures rest[i].callee in ids - {frames[0].callee}
      {
        assert rest[i] == frames[i + 1];
      }
      DistinctCallees(rest, ids - {frames[0].callee});
    }
  }

  lemma EdgesFollowed(functions: Functions, entry: ItemId)
    ensures WaitsFollow(FramesInOrder(functions, entry), FramesWaiting(functions), CallGraph(functions))
  {
    var ok, waits := FramesInOrder(functions, entry), FramesWaiting(functions);
    forall a, b | ok(a) && waits(a, b)
      ensures Edge(CallGraph(functions), a.callee, b.callee)
    {
      WaitingIsEdge(functions, a, b);
    }
  }

  lemma InOrderIsReachable(functions: Functions, entry: ItemId, limit: nat, frame: Frame)
    requires Safe(functions, entry, limit) && InOrder(functions, entry, frame)
    ensures frame.callee in ReachableFunctions(functions, entry)
    ensures !ReachPlus(CallGraph(functions), frame.callee, frame.callee)
  {
  }

  /** No function is active twice, so the stack is never deeper than the number of functions. */
  lemma DepthBounded(functions: Functions, entry: ItemId, limit: nat, callers: seq<Frame>, top: Frame)
    requires Safe(functions, entry, limit) && StackOk(functions, entry, callers, top)
    ensures DistinctActive(callers, top)
    ensures |callers| < |ReachableFunctions(functions, entry)|
  {
    var ok := FramesInOrder(functions, entry);
    forall frame | ok(frame)
      ensures frame.callee in ReachableFunctions(functions, entry)
      ensures !ReachPlus(CallGraph(functions), frame.callee, frame.callee)
    {
      InOrderIsReachable(functions, entry, limit, frame);
    }
    EdgesFollowed(functions, entry);
    ActiveWithin(ok, FramesWaiting(functions), CallGraph(functions), entry, callers, top,
                 ReachableFunctions(functions, entry));
  }

  lemma ActiveWithin(ok: Frame -> bool, waits: (Frame, Frame) -> bool, g: Graph, entry: ItemId, callers: seq<Frame>,
                     top: Frame, ids: set<ItemId>)
    requires Stacked(ok, waits, entry, callers, top) && WaitsFollow(ok, waits, g) && NoCycles(g, ok)
    requires forall frame {:trigger ok(frame)} :: ok(frame) ==> frame.callee in ids
    ensures DistinctActive(callers, top) && |callers| < |ids|
  {
    EveryFrameOk(ok, waits, entry, callers, top);
    ActiveAreDistinct(ok, waits, g, entry, callers, top);
    DistinctCallees(callers, ids - {top.callee});
  }

  lemma StackReplaced(ok: Frame -> bool, waits: (Frame, Frame) -> bool, entry: ItemId, callers: seq<Frame>, top: Frame,
                      after: Frame)
    requires Stacked(ok, waits, entry, callers, top)
    requires ok(after) && after.callee == top.callee
    requires forall f {:trigger waits(f, top)} :: waits(f, top) ==> waits(f, after)
    ensures Stacked(ok, waits, entry, callers, after)
  {
  }

  lemma StackPushed(ok: Frame -> bool, waits: (Frame, Frame) -> bool, entry: ItemId, callers: seq<Frame>, top: Frame,
                    callee: Frame)
    requires Stacked(ok, waits, entry, callers, top)
    requires ok(callee) && waits(top, callee)
    ensures Stacked(ok, waits, entry, callers + [top], callee)
  {
    assert (callers + [top])[..|callers|] == callers;
  }

  lemma StackPopped(ok: Frame -> bool, waits: (Frame, Frame) -> bool, entry: ItemId, callers: seq<Frame>, top: Frame)
    requires callers != [] && Stacked(ok, waits, entry, callers, top)
    ensures Stacked(ok, waits, entry, callers[..|callers| - 1], callers[|callers| - 1])
    ensures waits(callers[|callers| - 1], top)
  {
  }

  lemma TopOk(functions: Functions, entry: ItemId, callers: seq<Frame>, top: Frame)
    requires StackOk(functions, entry, callers, top)
    ensures InOrder(functions, entry, top)
    ensures callers == [] ==> top.callee == entry
  {
    assert FramesInOrder(functions, entry)(top);
  }

  lemma TopReplaced(functions: Functions, entry: ItemId, callers: seq<Frame>, top: Frame, after: Frame)
    requires StackOk(functions, entry, callers, top)
    requires FrameOk(functions, after) && after.callee == top.callee
    ensures StackOk(functions, entry, callers, after)
  {
    TopOk(functions, entry, callers, top);
    StackReplaced(FramesInOrder(functions, entry), FramesWaiting(functions), entry, callers, top, after);
  }

  lemma Pushed(functions: Functions, entry: ItemId, callers: seq<Frame>, top: Frame, callee: Frame)
    requires StackOk(functions, entry, callers, top) && FrameOk(functions, callee)
    requires Waiting(functions, top, callee)
    ensures StackOk(functions, entry, callers + [top], callee)
  {
    TopOk(functions, entry, callers, top);
    WaitingIsEdge(functions, top, callee);
    ReachThenEdge(CallGraph(functions), entry, top.callee, callee.callee);
    StackPushed(FramesInOrder(functions, entry), FramesWaiting(functions), entry, callers, top, callee);
  }

  lemma Popped(functions: Functions, entry: ItemId, callers: seq<Frame>, top: Frame)
    requires callers != [] && StackOk(functions, entry, callers, top)
    ensures StackOk(functions, entry, callers[..|callers| - 1], callers[|callers| - 1])
    ensures Waiting(functions, callers[|callers| - 1], top)
  {
    StackPopped(FramesInOrder(functions, entry), FramesWaiting(functions), entry, callers, top);
  }

  lemma {:induction false} ParametersBound(values: Environment, args: seq<ValueId>, params: seq<Param>)
    requires |args| == |params| && forall i :: 0 <= i < |args| ==> args[i] in values
    requires forall i, j :: 0 <= i < j < |params| ==> params[i].value != params[j].value
    ensures forall i :: 0 <= i < |params| ==>
                          params[i].value in BindParameters(values, args, params)
                          && BindParameters(values, args, params)[params[i].value] == values[args[i]]
    ensures forall v :: v in BindParameters(values, args, params) ==>
            exists i :: 0 <= i < |params| && params[i].value == v
  {
    if args != [] {
      var n := |args| - 1;
      ParametersBound(values, args[..n], params[..n]);
    }
  }

  /** A callee starts in order: it has exactly its parameters, each of its declared type. */
  lemma CalleeStarts(functions: Functions, callee: ItemId, values: Environment, args: seq<ValueId>)
    requires CheckedFunction(functions, callee)
    requires |args| == |functions[callee].params|
    requires forall i :: 0 <= i < |args| ==> args[i] in values
    requires forall i :: 0 <= i < |args| ==> HasType(values[args[i]], functions[callee].params[i].ty)
    ensures FrameOk(functions,
                    Frame(callee, ENTRY_BLOCK, 0, BindParameters(values, args, functions[callee].params), {}))
  {
    var f := functions[callee];
    var c := ContextOf(functions, f);
    var frame := Frame(callee, ENTRY_BLOCK, 0, BindParameters(values, args, f.params), {});
    ParametersBound(values, args, f.params);
    ReachSelf(Cfg(c.blocks), ENTRY_BLOCK);
    LiveAtEntry(c);
    StoredAtEntry(c);
    forall v
      ensures ValueOk(c, frame, v)
    {
      if v in frame.values {
        ParameterDeclared(functions, f, c, v);
      }
    }
  }

  lemma ParameterDeclared(functions: Functions, f: Function, c: Context, v: ValueId)
    requires IsContext(functions, f, c) && SingleDefinitions(f, c.blocks)
    requires v in ParameterValues(f)
    ensures v in c.types && v !in c.slots
    ensures forall i :: 0 <= i < |f.params| && f.params[i].value == v ==> c.types[v] == f.params[i].ty
  {
    forall i | 0 <= i < |f.params| && f.params[i].value == v
      ensures v in c.types && c.types[v] == f.params[i].ty
    {
      assert Declares(f, c.blocks, v, f.params[i].ty);
    }
    NotBothParameterAndSlot(f, c, v);
  }

  lemma NotBothParameterAndSlot(f: Function, c: Context, v: ValueId)
    requires SingleDefinitions(f, c.blocks) && AreSlots(c.blocks, c.slots)
    ensures v in c.slots ==> v !in ParameterValues(f)
  {
    if v in c.slots {
      var b, i :| AllocatedAt(c.blocks, b, i, v);
      assert Defines(c.blocks, b, i, v);
    }
  }

  /** The instruction a frame in order is at passed its checks. */
  lemma AtInstruction(functions: Functions, frame: Frame, c: Context)
    requires FrameOk(functions, frame) && c == ContextOf(functions, functions[frame.callee])
    ensures BlockOf(functions, frame) == Some(c.blocks[frame.block])
    ensures frame.pc < |c.blocks[frame.block].instructions| ==>
              InstructionOf(functions, frame) == Some(c.blocks[frame.block].instructions[frame.pc])
              && InstructionOk(c, frame.block, frame.pc)
              && InstructionAt(c.blocks, frame.block, frame.pc, c.blocks[frame.block].instructions[frame.pc])
    ensures frame.pc == |c.blocks[frame.block].instructions| ==>
              CheckTerminator(c, LiveAt(c, frame.block, frame.pc), c.blocks[frame.block].terminator) == None
  {
    assert BlockOk(c, frame.block);
  }

  lemma ValueStepKeeps(functions: Functions, entry: ItemId, limit: nat, callers: seq<Frame>, top: Frame,
                       result: ValueId, ty: Ty, kind: ValueKind)
    requires Safe(functions, entry, limit) && StackOk(functions, entry, callers, top)
    requires InstructionOf(functions, top) == Some(Value(result, ty, kind))
    requires FrameOk(functions, top)
    requires !kind.Call?
    ensures StateOk(functions, entry, StepValue(functions, limit, callers, top, result, ty, kind))
  {
    var f := functions[top.callee];
    var c := ContextOf(functions, f);
    AtInstruction(functions, top, c);
    ResultDeclared(functions, f, c, top, result, ty, kind);
    if kind.Alloc? {
      AllocKeeps(c, top, result, ty);
      TopReplaced(functions, entry, callers, top, Bind(top, result, UnitDatum).(stored := top.stored - {result}));
    } else {
      EvaluationTyped(c, top, ty, kind);
      match Evaluate(top.values, kind)
      case Computed(d) =>
        BindKeeps(c, top, result, ty, kind, d);
        TopReplaced(functions, entry, callers, top, Bind(top, result, d));
      case _ =>
    }
  }

  /** Everything a call checks of its arguments when it is made. */
  ghost predicate Enterable(functions: Functions, values: Environment, callee: ItemId, args: seq<ValueId>) {
    && callee in functions && |args| == |functions[callee].params|
    && (forall i :: 0 <= i < |args| ==> args[i] in values)
    && (forall i :: 0 <= i < |args| ==> HasType(values[args[i]], functions[callee].params[i].ty))
  }

  function Entered(functions: Functions, values: Environment, callee: ItemId, args: seq<ValueId>): Frame
    requires callee in functions && |args| == |functions[callee].params|
    requires forall i :: 0 <= i < |args| ==> args[i] in values
  {
    Frame(callee, ENTRY_BLOCK, 0, BindParameters(values, args, functions[callee].params), {})
  }

  lemma CallEnters(functions: Functions, limit: nat, callers: seq<Frame>, top: Frame, callee: ItemId,
                   args: seq<ValueId>)
    requires Enterable(functions, top.values, callee, args) && |callers| + 1 < limit
    ensures StepCall(functions, limit, callers, top, callee, args)
            == Running(callers + [top], Entered(functions, top.values, callee, args))
  {
  }

  lemma CallIsEnterable(functions: Functions, top: Frame, result: ValueId, ty: Ty, callee: ItemId, typeArgs: seq<Ty>,
                        args: seq<ValueId>, evidence: nat)
    requires FrameOk(functions, top)
    requires InstructionOf(functions, top) == Some(Value(result, ty, Call(callee, typeArgs, args, evidence)))
    ensures Enterable(functions, top.values, callee, args)
    ensures Waiting(functions, top, Entered(functions, top.values, callee, args))
  {
    var c := ContextOf(functions, functions[top.callee]);
    AtInstruction(functions, top, c);
    CallChecked(c, top, ty, callee, typeArgs, args, evidence);
  }

  lemma CalleeChecked(functions: Functions, entry: ItemId, limit: nat, caller: Frame, callee: Frame)
    requires Safe(functions, entry, limit) && InOrder(functions, entry, caller)
    requires Waiting(functions, caller, callee)
    ensures CheckedFunction(functions, callee.callee)
  {
    WaitingIsEdge(functions, caller, callee);
    ReachThenEdge(CallGraph(functions), entry, caller.callee, callee.callee);
  }

  lemma RoomToCall(functions: Functions, entry: ItemId, limit: nat, callers: seq<Frame>, top: Frame)
    requires Safe(functions, entry, limit) && StackOk(functions, entry, callers, top)
    ensures |callers| < limit
  {
    DepthBounded(functions, entry, limit, callers, top);
  }

  lemma CallStepKeeps(functions: Functions, entry: ItemId, limit: nat, callers: seq<Frame>, top: Frame,
                      result: ValueId, ty: Ty, callee: ItemId, typeArgs: seq<Ty>, args: seq<ValueId>, evidence: nat)
    requires Safe(functions, entry, limit) && StackOk(functions, entry, callers, top)
    requires InstructionOf(functions, top) == Some(Value(result, ty, Call(callee, typeArgs, args, evidence)))
    ensures Enterable(functions, top.values, callee, args)
    ensures StepCall(functions, limit, callers, top, callee, args)
            == Running(callers + [top], Entered(functions, top.values, callee, args))
    ensures StackOk(functions, entry, callers + [top], Entered(functions, top.values, callee, args))
  {
    TopOk(functions, entry, callers, top);
    CallIsEnterable(functions, top, result, ty, callee, typeArgs, args, evidence);
    var next := Entered(functions, top.values, callee, args);
    CalleeChecked(functions, entry, limit, top, next);
    CalleeStarts(functions, callee, top.values, args);
    Pushed(functions, entry, callers, top, next);
    RoomToCall(functions, entry, limit, callers + [top], next);
    CallEnters(functions, limit, callers, top, callee, args);
  }

  lemma CallChecked(c: Context, frame: Frame, ty: Ty, callee: ItemId, typeArgs: seq<Ty>, args: seq<ValueId>,
                    evidence: nat)
    requires Holds(c, frame)
    requires CheckValue(c, LiveAt(c, frame.block, frame.pc), ty, Call(callee, typeArgs, args, evidence)) == None
    ensures callee in c.functions && |args| == |c.functions[callee].params|
    ensures ScalarOf(c.functions[callee].returnType) == ScalarOf(ty)
    ensures forall i :: 0 <= i < |args| ==> args[i] in frame.values && args[i] !in c.slots
    ensures forall i :: 0 <= i < |args| ==> HasType(frame.values[args[i]], c.functions[callee].params[i].ty)
  {
    var live := LiveAt(c, frame.block, frame.pc);
    var params := c.functions[callee].params;
    forall i | 0 <= i < |args|
      ensures args[i] in frame.values && args[i] !in c.slots && HasType(frame.values[args[i]], params[i].ty)
    {
      assert ArgumentFits(c, live, args[i], params[i]);
      OperandHolds(c, frame, args[i]);
    }
  }

  /** A caller takes the value its callee returns, and is in order after the call. */
  lemma CallerResumes(functions: Functions, caller: Frame, callee: Frame, d: Datum)
    requires FrameOk(functions, caller) && Waiting(functions, caller, callee)
    requires callee.callee in functions && HasType(d, functions[callee.callee].returnType)
    ensures InstructionOf(functions, caller).Some? && InstructionOf(functions, caller).value.Value?
    ensures HasType(d, InstructionOf(functions, caller).value.ty)
    ensures FrameOk(functions, Bind(caller, InstructionOf(functions, caller).value.result, d))
  {
    var c := ContextOf(functions, functions[caller.callee]);
    AtInstruction(functions, caller, c);
    var instruction := InstructionOf(functions, caller).value;
    ResultDeclared(functions, functions[caller.callee], c, caller, instruction.result, instruction.ty,
                   instruction.kind);
    BindKeeps(c, caller, instruction.result, instruction.ty, instruction.kind, d);
  }

  lemma ReturnKeeps(functions: Functions, entry: ItemId, callers: seq<Frame>, top: Frame, d: Datum)
    requires StackOk(functions, entry, callers, top)
    requires top.callee in functions && HasType(d, functions[top.callee].returnType)
    ensures StateOk(functions, entry, StepReturn(functions, callers, d))
  {
    TopOk(functions, entry, callers, top);
    if callers != [] {
      var caller := callers[|callers| - 1];
      Popped(functions, entry, callers, top);
      TopOk(functions, entry, callers[..|callers| - 1], caller);
      CallerResumes(functions, caller, top, d);
      var result := InstructionOf(functions, caller).value.result;
      TopReplaced(functions, entry, callers[..|callers| - 1], caller, Bind(caller, result, d));
    }
  }

  lemma JumpKeeps(functions: Functions, entry: ItemId, callers: seq<Frame>, top: Frame, c: Context, target: BlockId)
    requires StackOk(functions, entry, callers, top) && FrameOk(functions, top)
    requires c == ContextOf(functions, functions[top.callee]) && top.pc == |c.blocks[top.block].instructions|
    requires target in c.blocks && target in TerminatorTargets(c.blocks[top.block].terminator)
    ensures StackOk(functions, entry, callers, EnterBlock(top, target))
  {
    EnterKeeps(c, top, target);
    TopReplaced(functions, entry, callers, top, EnterBlock(top, target));
  }

  /** What the terminator's own check gives: the operand it needs, and targets that exist. */
  ghost predicate TerminatorReady(c: Context, frame: Frame, terminator: Terminator) {
    match terminator
    case Return(None) => HasType(UnitDatum, c.current.returnType)
    case Return(Some(v)) => v in frame.values && v !in c.slots && HasType(frame.values[v], c.current.returnType)
    case Branch(target) => target in c.blocks
    case CondBranch(condition, thenBlock, elseBlock) =>
      condition in frame.values && condition !in c.slots && frame.values[condition].BoolDatum?
      && thenBlock in c.blocks && elseBlock in c.blocks
    case _ => false
  }

  lemma TerminatorChecked(c: Context, frame: Frame, terminator: Terminator)
    requires Holds(c, frame)
    requires CheckTerminator(c, LiveAt(c, frame.block, frame.pc), terminator) == None
    ensures TerminatorReady(c, frame, terminator)
  {
    match terminator
    case Return(Some(v)) => OperandHolds(c, frame, v);
    case CondBranch(condition, _, _) => OperandHolds(c, frame, condition);
    case _ =>
  }

  lemma TerminatorStepKeeps(functions: Functions, entry: ItemId, callers: seq<Frame>, top: Frame, c: Context)
    requires StackOk(functions, entry, callers, top) && FrameOk(functions, top)
    requires c == ContextOf(functions, functions[top.callee]) && top.pc == |c.blocks[top.block].instructions|
    ensures StateOk(functions, entry, StepTerminator(functions, callers, top, c.blocks[top.block].terminator))
  {
    AtInstruction(functions, top, c);
    TerminatorChecked(c, top, c.blocks[top.block].terminator);
    match c.blocks[top.block].terminator
    case Return(value) =>
      ReturnKeeps(functions, entry, callers, top, if value.Some? then top.values[value.value] else UnitDatum);
    case Branch(target) => JumpKeeps(functions, entry, callers, top, c, target);
    case CondBranch(condition, thenBlock, elseBlock) =>
      JumpKeeps(functions, entry, callers, top, c, if top.values[condition].b then thenBlock else elseBlock);
    case _ =>
  }

  lemma StoreStepKeeps(functions: Functions, entry: ItemId, callers: seq<Frame>, top: Frame, slot: ValueId,
                       value: ValueId)
    requires StackOk(functions, entry, callers, top) && FrameOk(functions, top)
    requires InstructionOf(functions, top) == Some(Store(slot, value, Observe))
    ensures value in top.values
    ensures StackOk(functions, entry, callers, Bind(top, slot, top.values[value]).(stored := top.stored + {slot}))
  {
    var c := ContextOf(functions, functions[top.callee]);
    AtInstruction(functions, top, c);
    StoreKeeps(c, top, slot, value);
    TopReplaced(functions, entry, callers, top, Bind(top, slot, top.values[value]).(stored := top.stored + {slot}));
  }

  /** What the instruction a frame is at can be. */
  ghost predicate Supported(instruction: Instruction) {
    instruction.Value? || (instruction.Store? && instruction.mode == Observe)
  }

  /** Either the frame is at a supported instruction or it is at the terminator of its block. */
  lemma WhereAt(functions: Functions, top: Frame, block: BasicBlock)
    requires FrameOk(functions, top) && BlockOf(functions, top) == Some(block)
    ensures top.pc <= |block.instructions|
    ensures top.pc < |block.instructions| ==>
              InstructionOf(functions, top) == Some(block.instructions[top.pc]) && Supported(block.instructions[top.pc])
  {
    AtInstruction(functions, top, ContextOf(functions, functions[top.callee]));
  }

  /** Every step from a state in order leads to a state in order, which `Stuck` is not. */
  lemma StepKeeps(functions: Functions, entry: ItemId, limit: nat, s: State)
    requires Safe(functions, entry, limit) && StateOk(functions, entry, s)
    ensures StateOk(functions, entry, Advance(functions, limit, s))
  {
    if s.Running? {
      TopOk(functions, entry, s.callers, s.top);
      RunningStepKeeps(functions, entry, limit, s.callers, s.top);
    }
  }

  lemma RunningStepKeeps(functions: Functions, entry: ItemId, limit: nat, callers: seq<Frame>, top: Frame)
    requires Safe(functions, entry, limit) && StackOk(functions, entry, callers, top) && FrameOk(functions, top)
    ensures StateOk(functions, entry, Advance(functions, limit, Running(callers, top)))
  {
    var c := ContextOf(functions, functions[top.callee]);
    var block := c.blocks[top.block];
    AtInstruction(functions, top, c);
    WhereAt(functions, top, block);
    if top.pc == |block.instructions| {
      TerminatorStepKeeps(functions, entry, callers, top, c);
    } else {
      InstructionStepKeeps(functions, entry, limit, callers, top, block.instructions[top.pc]);
    }
  }

  lemma AdvancesValue(functions: Functions, limit: nat, callers: seq<Frame>, top: Frame, result: ValueId, ty: Ty,
                      kind: ValueKind)
    requires InstructionOf(functions, top) == Some(Value(result, ty, kind))
    ensures Advance(functions, limit, Running(callers, top))
            == StepValue(functions, limit, callers, top, result, ty, kind)
  {
  }

  lemma AdvancesStore(functions: Functions, limit: nat, callers: seq<Frame>, top: Frame, slot: ValueId, value: ValueId)
    requires InstructionOf(functions, top) == Some(Store(slot, value, Observe)) && value in top.values
    ensures Advance(functions, limit, Running(callers, top))
            == Running(callers, Bind(top, slot, top.values[value]).(stored := top.stored + {slot}))
  {
  }

  lemma CallInstructionStepKeeps(functions: Functions, entry: ItemId, limit: nat, callers: seq<Frame>, top: Frame,
                                 result: ValueId, ty: Ty, callee: ItemId, typeArgs: seq<Ty>, args: seq<ValueId>,
                                 evidence: nat)
    requires Safe(functions, entry, limit) && StackOk(functions, entry, callers, top)
    requires InstructionOf(functions, top) == Some(Value(result, ty, Call(callee, typeArgs, args, evidence)))
    ensures StateOk(functions, entry,
                    StepValue(functions, limit, callers, top, result, ty, Call(callee, typeArgs, args, evidence)))
  {
    CallStepKeeps(functions, entry, limit, callers, top, result, ty, callee, typeArgs, args, evidence);
  }

  lemma ValueInstructionStepKeeps(functions: Functions, entry: ItemId, limit: nat, callers: seq<Frame>, top: Frame,
                                  result: ValueId, ty: Ty, kind: ValueKind)
    requires Safe(functions, entry, limit) && StackOk(functions, entry, callers, top) && FrameOk(functions, top)
    requires InstructionOf(functions, top) == Some(Value(result, ty, kind))
    ensures StateOk(functions, entry, StepValue(functions, limit, callers, top, result, ty, kind))
  {
    match kind
    case Call(callee, typeArgs, args, evidence) =>
      CallInstructionStepKeeps(functions, entry, limit, callers, top, result, ty, callee, typeArgs, args, evidence);
    case _ => ValueStepKeeps(functions, entry, limit, callers, top, result, ty, kind);
  }

  lemma InstructionStepKeeps(functions: Functions, entry: ItemId, limit: nat, callers: seq<Frame>, top: Frame,
                             instruction: Instruction)
    requires Safe(functions, entry, limit) && StackOk(functions, entry, callers, top) && FrameOk(functions, top)
    requires InstructionOf(functions, top) == Some(instruction) && Supported(instruction)
    ensures StateOk(functions, entry, Advance(functions, limit, Running(callers, top)))
  {
    match instruction
    case Value(result, ty, kind) =>
      AdvancesValue(functions, limit, callers, top, result, ty, kind);
      ValueInstructionStepKeeps(functions, entry, limit, callers, top, result, ty, kind);
    case Store(slot, value, _) =>
      StoreStepKeeps(functions, entry, callers, top, slot, value);
      AdvancesStore(functions, limit, callers, top, slot, value);
  }

  lemma StartOk(functions: Functions, entry: ItemId, limit: nat)
    requires Safe(functions, entry, limit) && Reach(CallGraph(functions), entry, entry)
    ensures StateOk(functions, entry, Start(entry, limit))
  {
    assert entry in ReachableFunctions(functions, entry);
    CalleeStarts(functions, entry, map[], []);
  }

  ghost predicate Stable(functions: Functions, limit: nat, holds: State -> bool) {
    forall s {:trigger holds(s)} :: holds(s) ==> holds(Advance(functions, limit, s))
  }

  /** What every step keeps holds throughout a run. */
  lemma {:induction false} RunInvariant(functions: Functions, limit: nat, holds: State -> bool, s: State, n: nat)
    requires Stable(functions, limit, holds) && holds(s)
    ensures holds(Run(functions, limit, s, n))
    decreases n
  {
    if n > 0 {
      RunInvariant(functions, limit, holds, s, n - 1);
      RunThenStep(functions, limit, s, n - 1);
    }
  }

  ghost function StatesInOrder(functions: Functions, entry: ItemId): State -> bool {
    s => StateOk(functions, entry, s)
  }

  lemma StepsKeep(functions: Functions, entry: ItemId, limit: nat)
    requires Safe(functions, entry, limit)
    ensures Stable(functions, limit, StatesInOrder(functions, entry))
  {
    var holds := StatesInOrder(functions, entry);
    forall s | holds(s)
      ensures holds(Advance(functions, limit, s))
    {
      StepKeeps(functions, entry, limit, s);
    }
  }

  lemma RunKeeps(functions: Functions, entry: ItemId, limit: nat, s: State, n: nat)
    requires Safe(functions, entry, limit) && StateOk(functions, entry, s)
    ensures StateOk(functions, entry, Run(functions, limit, s, n))
  {
    StepsKeep(functions, entry, limit);
    RunInvariant(functions, limit, StatesInOrder(functions, entry), s, n);
  }

  /** The state an accepted program is in after `n` steps. */
  ghost function StateAfter(m: Module, entry: ItemId, limit: nat, n: nat): State {
    Run(FunctionMap(m.functions), limit, Start(entry, limit), n)
  }

  lemma AcceptedRunOk(m: Module, build: Build, entry: ItemId, plan: NativePlan, limit: nat, n: nat)
    requires Accepted(m, build, entry) && IsPlan(m, entry, plan) && |plan.functions| <= limit
    ensures StateOk(FunctionMap(m.functions), entry, StateAfter(m, entry, limit, n))
  {
    var functions := FunctionMap(m.functions);
    AcceptedIsSafe(m, build, entry, plan, limit);
    ReachSelf(CallGraph(functions), entry);
    StartOk(functions, entry, limit);
    RunKeeps(functions, entry, limit, Start(entry, limit), n);
  }

  /** Within `n` steps the program has more than `limit` functions active, when as many may be as the plan has. */
  ghost predicate TooDeep(m: Module, plan: NativePlan, limit: nat, n: nat) {
    Exceeds(FunctionMap(m.functions), |plan.functions|, Start(plan.entry, |plan.functions|), n, limit)
  }

  lemma NotTooDeep(m: Module, plan: NativePlan, limit: nat, n: nat)
    requires !TooDeep(m, plan, limit, n)
    ensures Active(StateAfter(m, plan.entry, |plan.functions|, n)) <= limit
  {
  }

  lemma NeverMoreThanPlanned(m: Module, build: Build, plan: NativePlan, limit: nat, n: nat)
    requires Accepted(m, build, plan.entry) && IsPlan(m, plan.entry, plan) && |plan.functions| <= limit
    ensures !Exceeds(FunctionMap(m.functions), limit, Start(plan.entry, limit), n, |plan.functions|)
  {
    var functions := FunctionMap(m.functions);
    forall j: nat | j <= n
      ensures Active(Run(functions, limit, Start(plan.entry, limit), j)) <= |plan.functions|
    {
      AcceptedRunOk(m, build, plan.entry, plan, limit, j);
      AcceptedIsSafe(m, build, plan.entry, plan, |plan.functions|);
      var s := StateAfter(m, plan.entry, limit, j);
      if s.Running? {
        DepthInPlan(functions, plan.entry, plan, s.callers, s.top);
      }
    }
  }

  /** Whatever the limit: the run is the one that the number of planned functions allows, cut off where it gets too
      deep, which it never does when the limit is at least that number. */
  lemma AnyLimit(m: Module, build: Build, plan: NativePlan, limit: nat, n: nat)
    requires Accepted(m, build, plan.entry) && IsPlan(m, plan.entry, plan)
    ensures StateAfter(m, plan.entry, limit, n)
            == if TooDeep(m, plan, limit, n) then Stuck else StateAfter(m, plan.entry, |plan.functions|, n)
    ensures |plan.functions| <= limit ==> !TooDeep(m, plan, limit, n)
  {
    var functions := FunctionMap(m.functions);
    if limit <= |plan.functions| {
      StartAtSmaller(functions, limit, |plan.functions|, plan.entry, n);
    } else {
      StartAtSmaller(functions, |plan.functions|, limit, plan.entry, n);
      NeverMoreThanPlanned(m, build, plan, limit, n);
    }
    if |plan.functions| <= limit {
      NeverMoreThanPlanned(m, build, plan, |plan.functions|, n);
    }
  }

  /** A run of an accepted program is stuck if and only if it had more frames active than allowed; it never meets an
      undefined operand, a wrong scalar, a missing block, an unknown callee or a wrong number of arguments, and its
      result has the declared type. */
  lemma NeverStuck(m: Module, build: Build, plan: NativePlan, limit: nat, n: nat)
    requires Accepted(m, build, plan.entry) && IsPlan(m, plan.entry, plan)
    ensures StateAfter(m, plan.entry, limit, n) == Stuck <==> TooDeep(m, plan, limit, n)
    ensures |plan.functions| <= limit ==> !TooDeep(m, plan, limit, n)
    ensures StateAfter(m, plan.entry, limit, n).Returned? ==>
              HasScalar(StateAfter(m, plan.entry, limit, n).value, plan.entryResult)
  {
    AnyLimit(m, build, plan, limit, n);
    AcceptedRunOk(m, build, plan.entry, plan, |plan.functions|, n);
  }

  ghost predicate ActiveInPlan(plan: NativePlan, frame: Frame) {
    frame.callee in plan.functions && frame.callee in plan.reachableBlocks
    && frame.block in plan.reachableBlocks[frame.callee]
  }

  lemma InsideThePlan(m: Module, entry: ItemId, plan: NativePlan, frame: Frame)
    requires IsPlan(m, entry, plan) && InOrder(FunctionMap(m.functions), entry, frame)
    ensures ActiveInPlan(plan, frame)
  {
  }

  /** Execution stays inside the plan: every active function is in it, and so is the block it is in; no function
      is active twice. */
  lemma RunsInsideThePlan(m: Module, build: Build, plan: NativePlan, limit: nat, n: nat)
    requires Accepted(m, build, plan.entry) && IsPlan(m, plan.entry, plan)
    requires StateAfter(m, plan.entry, limit, n).Running?
    ensures InsidePlan(plan, limit,
                       StateAfter(m, plan.entry, limit, n).callers + [StateAfter(m, plan.entry, limit, n).top])
  {
    var s := StateAfter(m, plan.entry, limit, n);
    AnyLimit(m, build, plan, limit, n);
    AcceptedRunOk(m, build, plan.entry, plan, |plan.functions|, n);
    AcceptedIsSafe(m, build, plan.entry, plan, |plan.functions|);
    NotTooDeep(m, plan, limit, n);
    StackInside(m, plan, limit, s.callers, s.top);
  }

  /** No function is active twice, each active one is in the plan, and so is the block it is in. */
  ghost predicate InsidePlan(plan: NativePlan, limit: nat, frames: seq<Frame>) {
    && |frames| <= |plan.functions| && |frames| <= limit
    && (forall i, j :: 0 <= i < j < |frames| ==> frames[i].callee != frames[j].callee)
    && (forall i :: 0 <= i < |frames| ==> ActiveInPlan(plan, frames[i]))
  }

  lemma StackInside(m: Module, plan: NativePlan, limit: nat, callers: seq<Frame>, top: Frame)
    requires IsPlan(m, plan.entry, plan) && Safe(FunctionMap(m.functions), plan.entry, |plan.functions|)
    requires StackOk(FunctionMap(m.functions), plan.entry, callers, top) && |callers| < limit
    ensures InsidePlan(plan, limit, callers + [top])
  {
    DepthInPlan(FunctionMap(m.functions), plan.entry, plan, callers, top);
    FramesInside(m, plan.entry, plan, callers, top);
    ThenInPlan(plan, callers + [top]);
    FramesDistinct(callers, top);
  }

  lemma DepthInPlan(functions: Functions, entry: ItemId, plan: NativePlan, callers: seq<Frame>, top: Frame)
    requires Safe(functions, entry, |plan.functions|) && StackOk(functions, entry, callers, top)
    ensures DistinctActive(callers, top) && |callers| < |plan.functions|
  {
    DepthBounded(functions, entry, |plan.functions|, callers, top);
  }

  lemma FramesDistinct(callers: seq<Frame>, top: Frame)
    requires DistinctActive(callers, top)
    ensures forall i, j :: 0 <= i < j < |callers| + 1 ==> (callers + [top])[i].callee != (callers + [top])[j].callee
  {
  }

  lemma FramesInside(m: Module, entry: ItemId, plan: NativePlan, callers: seq<Frame>, top: Frame)
    requires IsPlan(m, entry, plan) && StackOk(FunctionMap(m.functions), entry, callers, top)
    ensures forall i :: 0 <= i < |callers| + 1 ==> FramesInPlan(plan)((callers + [top])[i])
  {
    var functions := FunctionMap(m.functions);
    forall frame | FramesInOrder(functions, entry)(frame)
      ensures FramesInPlan(plan)(frame)
    {
      InsideThePlan(m, entry, plan, frame);
    }
    EveryFrame(FramesInOrder(functions, entry), FramesInPlan(plan), FramesWaiting(functions), entry, callers, top);
  }

  lemma EveryFrame(ok: Frame -> bool, also: Frame -> bool, waits: (Frame, Frame) -> bool, entry: ItemId,
                   callers: seq<Frame>, top: Frame)
    requires Stacked(ok, waits, entry, callers, top)
    requires forall frame {:trigger also(frame)} :: ok(frame) ==> also(frame)
    ensures forall i :: 0 <= i < |callers| + 1 ==> also((callers + [top])[i])
  {
    EveryFrameOk(ok, waits, entry, callers, top);
    assert also(top);
  }

  ghost function FramesInPlan(plan: NativePlan): Frame -> bool {
    frame => ActiveInPlan(plan, frame)
  }

  lemma ThenInPlan(plan: NativePlan, frames: seq<Frame>)
    requires forall i :: 0 <= i < |frames| ==> FramesInPlan(plan)(frames[i])
    ensures forall i :: 0 <= i < |frames| ==> ActiveInPlan(plan, frames[i])
  {
  }

  /** No run ever loads the placeholder an `alloc` leaves: the slot was stored since. */
  lemma NoPlaceholderLoaded(m: Module, build: Build, plan: NativePlan, limit: nat, n: nat,
                            result: ValueId, ty: Ty, slot: ValueId)
    requires Accepted(m, build, plan.entry) && IsPlan(m, plan.entry, plan)
    requires StateAfter(m, plan.entry, limit, n).Running?
    requires InstructionOf(FunctionMap(m.functions), StateAfter(m, plan.entry, limit, n).top)
             == Some(Value(result, ty, Load(slot)))
    ensures slot in StateAfter(m, plan.entry, limit, n).top.stored
    ensures slot in StateAfter(m, plan.entry, limit, n).top.values
    ensures HasType(StateAfter(m, plan.entry, limit, n).top.values[slot], ty)
  {
    var s := StateAfter(m, plan.entry, limit, n);
    AnyLimit(m, build, plan, limit, n);
    AcceptedRunOk(m, build, plan.entry, plan, |plan.functions|, n);
    LoadFindsStored(FunctionMap(m.functions), plan.entry, s.callers, s.top, result, ty, slot);
  }

  lemma LoadFindsStored(functions: Functions, entry: ItemId, callers: seq<Frame>, top: Frame, result: ValueId, ty: Ty,
                        slot: ValueId)
    requires StackOk(functions, entry, callers, top)
    requires InstructionOf(functions, top) == Some(Value(result, ty, Load(slot)))
    ensures slot in top.stored && slot in top.values && HasType(top.values[slot], ty)
  {
    TopOk(functions, entry, callers, top);
    var c := ContextOf(functions, functions[top.callee]);
    AtInstruction(functions, top, c);
    LoadedIsTyped(c, top, result, ty, slot);
  }

  lemma LoadedIsTyped(c: Context, frame: Frame, result: ValueId, ty: Ty, slot: ValueId)
    requires Holds(c, frame) && ValueInstructionAt(c, frame, result, ty, Load(slot))
    requires InstructionOk(c, frame.block, frame.pc)
    ensures slot in frame.stored && slot in frame.values && HasType(frame.values[slot], ty)
  {
    assert ValueOk(c, frame, slot);
  }
}
