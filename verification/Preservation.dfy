/** The simulation over whole runs: the executable ends as the program does, and only then. */
module Preservation {
  import opened Wrappers
  import opened Numeric
  import opened Nir
  import opened Graphs
  import opened Dataflow
  import opened NirSemantics
  import opened Capability
  import opened TypeSafety
  import opened TargetIr
  import opened TargetRules
  import opened Lowering
  import opened Bodies
  import opened Fragments
  import opened Simulation
  import opened StarSimulation

  // Terminators.

  lemma AtExit(c: Context, targets: Functions, ids: set<BlockId>, frame: Frame, code: BlockCode)
    requires CodeMatches(c, targets, ids, frame, code) && frame.pc == |c.blocks[frame.block].instructions|
    ensures code == BlockCode([], ExitAt(c, ids, frame.block))
  {
  }

  lemma JumpTargetEmitted(c: Context, targets: Functions, ids: set<BlockId>, code: map<Label, BlockCode>,
                          target: BlockId)
    requires IsLoweredBody(c, targets, ids, code) && BlockReachable(c.blocks, target) && target in c.blocks
    ensures Main(target) in code
    ensures code[Main(target)] == CodeFrom(StepsAt(c, targets, target), ExitAt(c, ids, target), 0)
  {
    assert PlannedBlockEmitted(c, targets, ids, code, target);
  }

  /** The block a terminator transfers control to, if it does not return. */
  function JumpTarget(terminator: Terminator, values: Environment): Option<BlockId> {
    match terminator
    case Branch(target) => Some(target)
    case CondBranch(condition, thenBlock, elseBlock) =>
      if condition in values
         && values[condition].BoolDatum? then Some(if values[condition].b then thenBlock else elseBlock)
      else None
    case _ => None
  }

  lemma JumpExit(c: Context, ids: set<BlockId>, frame: Frame, locals: Locals)
    requires Holds(c, frame) && LocalsMatch(c, frame, locals)
    requires CheckTerminator(c, LiveAt(c, frame.block, frame.pc), c.blocks[frame.block].terminator) == None
    requires !c.blocks[frame.block].terminator.Return?
    requires forall target :: target in TerminatorTargets(c.blocks[frame.block].terminator) && target in c.blocks ==>
             target in ids
    ensures var terminator := c.blocks[frame.block].terminator;
            && JumpTarget(terminator, frame.values).Some?
            && JumpTarget(terminator, frame.values).value in c.blocks
            && JumpTarget(terminator, frame.values).value in TerminatorTargets(terminator)
            && match ExitAt(c, ids, frame.block)
               case Jump(target) => target == Main(JumpTarget(terminator, frame.values).value)
               case Brif(flag, thenLabel, elseLabel) =>
                 && flag in locals.registers && locals.registers[flag].I8?
                 && (if locals.registers[flag].byte != 0 then thenLabel else elseLabel)
                    == Main(JumpTarget(terminator, frame.values).value)
               case _ => false
  {
    match c.blocks[frame.block].terminator
    case CondBranch(condition, thenBlock, elseBlock) => OperandMatches(c, frame, locals, condition);
    case _ =>
  }

  lemma EnterMatches(c: Context, frame: Frame, locals: Locals, target: BlockId)
    requires LocalsMatch(c, frame, locals)
    ensures LocalsMatch(c, EnterBlock(frame, target), locals)
  {
    var next := EnterBlock(frame, target);
    forall v
      ensures RegisterOk(c, next, locals, v)
    {
      assert RegisterOk(c, frame, locals, v);
    }
    forall s
      ensures VariableOk(next, locals, s)
    {
      assert VariableOk(frame, locals, s);
    }
  }

  lemma PlannedTargets(w: Compilation, frame: Frame)
    requires FrameOk(w.functions, frame) && CompiledFunction(w, frame.callee) && BlocksPlanned(w, frame.callee)
    ensures var c := ContextOf(w.functions, w.functions[frame.callee]);
            forall target :: target in TerminatorTargets(c.blocks[frame.block].terminator) && target in c.blocks ==>
              target in CreatedBlocks(w, frame.callee) && BlockReachable(c.blocks, target)
  {
    var c := ContextOf(w.functions, w.functions[frame.callee]);
    forall target | target in TerminatorTargets(c.blocks[frame.block].terminator) && target in c.blocks
      ensures target in CreatedBlocks(w, frame.callee) && BlockReachable(c.blocks, target)
    {
      ReachThenEdge(Cfg(c.blocks), ENTRY_BLOCK, frame.block, target);
    }
  }

  ghost predicate BlocksPlanned(w: Compilation, id: ItemId) {
    id in w.functions && id in w.plan.reachableBlocks
    && AreReachableBlocks(BlockMap(w.functions[id].blocks), w.plan.reachableBlocks[id])
  }

  /** A branch and its code lead to the same block. */
  lemma JumpSimulated(w: Compilation, callers: seq<TargetFrame>, frame: Frame, top: TargetFrame)
    returns (after: TargetFrame)
    requires FrameMirrored(w, frame, top) && BlocksPlanned(w, frame.callee)
    requires var c := ContextOf(w.functions, w.functions[frame.callee]);
             frame.pc == |c.blocks[frame.block].instructions| && !c.blocks[frame.block].terminator.Return?
    ensures var terminator := ContextOf(w.functions, w.functions[frame.callee]).blocks[frame.block].terminator;
            && JumpTarget(terminator, frame.values).Some?
            && TargetStep(w.program, TRunning(callers, top)) == TRunning(callers, after)
            && FrameMirrored(w, EnterBlock(frame, JumpTarget(terminator, frame.values).value), after)
  {
    var c := ContextOf(w.functions, w.functions[frame.callee]);
    var ids, code := CreatedBlocks(w, frame.callee), w.program[frame.callee].code;
    AtInstruction(w.functions, frame, c);
    PlannedTargets(w, frame);
    JumpExit(c, ids, frame, top.locals);
    AtExit(c, Targets(w), ids, frame, top.code);
    var target := JumpTarget(c.blocks[frame.block].terminator, frame.values).value;
    JumpTargetEmitted(c, Targets(w), ids, code, target);
    after := top.(code := code[Main(target)]);
    EnterKeeps(c, frame, target);
    EnterMatches(c, frame, top.locals, target);
  }

  /** The datum a return gives back. */
  function ReturnedDatum(terminator: Terminator, values: Environment): Datum {
    match terminator
    case Return(Some(v)) => if v in values then values[v] else UnitDatum
    case _ => UnitDatum
  }

  lemma ReturnExit(c: Context, ids: set<BlockId>, frame: Frame, locals: Locals)
    requires Holds(c, frame) && LocalsMatch(c, frame, locals)
    requires CheckTerminator(c, LiveAt(c, frame.block, frame.pc), c.blocks[frame.block].terminator) == None
    requires c.blocks[frame.block].terminator.Return?
    ensures var d := ReturnedDatum(c.blocks[frame.block].terminator, frame.values);
            && HasType(d, c.current.returnType)
            && match ExitAt(c, ids, frame.block)
               case Ret(None) => WordOf(d) == None
               case Ret(Some(r)) => r in locals.registers && WordOf(d) == Some(locals.registers[r])
               case _ => false
  {
    match c.blocks[frame.block].terminator
    case Return(Some(v)) => OperandMatches(c, frame, locals, v);
    case _ =>
  }

  lemma AnswerType(f: Function, signature: Signature, d: Datum)
    requires SignatureOf(f) == Ok(signature) && HasType(d, f.returnType)
    ensures signature.answer == (if WordOf(d).Some? then Some(TypeOf(WordOf(d).value)) else None)
  {
  }

  lemma RetSteps(program: Program, callers: seq<TargetFrame>, top: TargetFrame, word: Option<Word>)
    requires top.code.insts == []
    requires match top.code.exit
             case Ret(None) => word == None
             case Ret(Some(r)) => r in top.locals.registers && word == Some(top.locals.registers[r])
             case _ => false
    ensures TargetStep(program, TRunning(callers, top)) == StepRet(program, callers, top, word)
  {
  }

  /** Returning hands the datum's word to `StepRet`, of the type the signature declares. */
  lemma ReturnStep(w: Compilation, callers: seq<TargetFrame>, frame: Frame, top: TargetFrame)
    requires FrameMirrored(w, frame, top)
    requires var c := ContextOf(w.functions, w.functions[frame.callee]);
             frame.pc == |c.blocks[frame.block].instructions| && c.blocks[frame.block].terminator.Return?
    ensures var terminator := ContextOf(w.functions, w.functions[frame.callee]).blocks[frame.block].terminator;
            var d := ReturnedDatum(terminator, frame.values);
            && HasType(d, w.functions[frame.callee].returnType)
            && TargetStep(w.program, TRunning(callers, top)) == StepRet(w.program, callers, top, WordOf(d))
            && w.program[frame.callee].signature.answer
               == (if WordOf(d).Some? then Some(TypeOf(WordOf(d).value)) else None)
  {
    var c := ContextOf(w.functions, w.functions[frame.callee]);
    var ids := CreatedBlocks(w, frame.callee);
    AtInstruction(w.functions, frame, c);
    ReturnExit(c, ids, frame, top.locals);
    AtExit(c, Targets(w), ids, frame, top.code);
    var d := ReturnedDatum(c.blocks[frame.block].terminator, frame.values);
    RetSteps(w.program, callers, top, WordOf(d));
    AnswerType(w.functions[frame.callee], w.program[frame.callee].signature, d);
  }

  lemma CallerCallShape(w: Compilation, frame: Frame, top: TargetFrame, callee: Frame) returns (dst: Option<Register>)
    requires FrameMirrored(w, frame, top) && Waiting(w.functions, frame, callee) && callee.callee in w.plan.functions
    ensures InstructionOf(w.functions, frame).Some? && InstructionOf(w.functions, frame).value.Value?
    ensures ScalarOf(w.functions[callee.callee].returnType).Some?
    ensures dst == if ScalarOf(w.functions[callee.callee].returnType) == Some(UnitScalar) then None
                   else Some(Reg(InstructionOf(w.functions, frame).value.result, 0))
    ensures top.code.insts != [] && top.code.insts[0].CallFunction? && top.code.insts[0].result == dst
    ensures var c := ContextOf(w.functions, w.functions[frame.callee]);
            frame.pc < |c.blocks[frame.block].instructions|
            && Rest(top.code) == CodeAfter(c, Targets(w), CreatedBlocks(w, frame.callee), frame)
  {
    var c := ContextOf(w.functions, w.functions[frame.callee]);
    AtInstruction(w.functions, frame, c);
    var call := InstructionOf(w.functions, frame).value;
    CallShape(c, Targets(w), frame, call.result, call.ty, call.kind.callee, call.kind.typeArgs, call.kind.args,
              call.kind.evidence);
    var scalar := ScalarOf(Targets(w)[call.kind.callee].returnType).value;
    CallHead(c, Targets(w), CreatedBlocks(w, frame.callee), frame, top.code, call.kind.callee, scalar, call.result,
             ArgumentRegisters(NativesOf(c), call.kind.args).value);
    dst := if scalar == UnitScalar then None else Some(Reg(call.result, 0));
  }

  /** A caller receives the word of what its callee returns, and goes on after the call. */
  lemma CallerReceives(w: Compilation, frame: Frame, top: TargetFrame, callee: Frame, d: Datum)
    returns (after: TargetFrame)
    requires FrameMirrored(w, frame, top) && Waiting(w.functions, frame, callee) && callee.callee in w.plan.functions
    requires HasType(d, w.functions[callee.callee].returnType)
    ensures InstructionOf(w.functions, frame).Some? && InstructionOf(w.functions, frame).value.Value?
    ensures top.code.insts != []
    ensures match (top.code.insts[0], WordOf(d))
            case (CallFunction(None, _, _), None) => after == top.(code := Rest(top.code))
            case (CallFunction(Some(dst), _, _), Some(word)) =>
              after == top.(code := Rest(top.code), locals := Set(top.locals, dst, word))
            case _ => false
    ensures FrameMirrored(w, Bind(frame, InstructionOf(w.functions, frame).value.result, d), after)
  {
    var dst := CallerCallShape(w, frame, top, callee);
    var call := InstructionOf(w.functions, frame).value;
    var locals := if WordOf(d).Some? then Set(top.locals, Reg(call.result, 0), WordOf(d).value) else top.locals;
    after := TargetFrame(top.callee, Rest(top.code), locals);
    AnswerArrives(w.functions[callee.callee], dst, d);
    ReceivedMirrors(w, frame, top, callee, d, call.result, call.ty, call.kind, Rest(top.code), locals);
  }

  lemma AnswerArrives(f: Function, dst: Option<Register>, d: Datum)
    requires HasType(d, f.returnType)
    requires dst == None <==> ScalarOf(f.returnType) == Some(UnitScalar)
    ensures dst == None <==> WordOf(d) == None
  {
  }

  lemma ReceivedMirrors(w: Compilation, frame: Frame, top: TargetFrame, callee: Frame, d: Datum, result: ValueId,
                        ty: Ty, kind: ValueKind, code: BlockCode, locals: Locals)
    requires FrameMirrored(w, frame, top) && Waiting(w.functions, frame, callee) && callee.callee in w.functions
    requires HasType(d, w.functions[callee.callee].returnType)
    requires InstructionOf(w.functions, frame) == Some(Value(result, ty, kind))
    requires locals == if WordOf(d).Some? then Set(top.locals, Reg(result, 0), WordOf(d).value) else top.locals
    requires var c := ContextOf(w.functions, w.functions[frame.callee]);
             && frame.pc < |c.blocks[frame.block].instructions|
             && code == CodeAfter(c, Targets(w), CreatedBlocks(w, frame.callee), frame)
    ensures FrameMirrored(w, Bind(frame, result, d), TargetFrame(top.callee, code, locals))
  {
    var c := ContextOf(w.functions, w.functions[frame.callee]);
    AtInstruction(w.functions, frame, c);
    ResultDeclared(w.functions, w.functions[frame.callee], c, frame, result, ty, kind);
    CallerResumes(w.functions, frame, callee, d);
    BindMatches(c, frame, top.locals, locals, result, d);
    BoundIsMirrored(w, frame, top, result, d, code, locals);
  }

  // One step, within a frame.

  /** After one NIR step that stays on the stack's top, the target's top mirrors the new frame. */
  ghost predicate TopStepped(w: Compilation, callers: seq<Frame>, targets: seq<TargetFrame>, s: State, t: TargetState) {
    match s
    case Running(below, top) => below == callers && t.TRunning? && t.callers == targets && FrameMirrored(w, top, t.top)
    case Failed(op) => t == TFailed(op)
    case _ => false
  }

  /** A step with no target instructions at least moves on within its block. */
  ghost predicate Moves(before: Frame, s: State, k: nat) {
    k == 0 ==> s.Running? && s.top.callee == before.callee && s.top.block == before.block && s.top.pc == before.pc + 1
  }

  lemma ValueInstructionFacts(functions: Functions, frame: Frame, result: ValueId, ty: Ty, kind: ValueKind, c: Context)
    requires FrameOk(functions, frame) && c == ContextOf(functions, functions[frame.callee])
    requires InstructionOf(functions, frame) == Some(Value(result, ty, kind))
    ensures ValueInstructionAt(c, frame, result, ty, kind) && InstructionOk(c, frame.block, frame.pc)
    ensures result in c.types && c.types[result] == ty && (result in c.slots <==> kind.Alloc?)
    ensures result !in LiveAt(c, frame.block, frame.pc)
    ensures kind.Constant? && kind.value.IntConst? ==> InI64(kind.value.literal)
    ensures ScalarOf(ty).Some?
  {
    AtInstruction(functions, frame, c);
    ResultDeclared(functions, functions[frame.callee], c, frame, result, ty, kind);
    assert Defines(c.blocks, frame.block, frame.pc, result);
    ResultNotLive(c, frame.block, frame.pc, result);
  }

  /** What a value instruction that stays in its frame steps to. */
  lemma StepsByEvaluation(functions: Functions, limit: nat, callers: seq<Frame>, frame: Frame, result: ValueId, ty: Ty,
                          kind: ValueKind)
    requires !kind.Call? && !kind.Alloc? && !Evaluate(frame.values, kind).Invalid?
    requires Evaluate(frame.values, kind).Computed? ==> HasType(Evaluate(frame.values, kind).datum, ty)
    ensures StepValue(functions, limit, callers, frame, result, ty, kind)
            == match Evaluate(frame.values, kind)
               case Computed(d) => Running(callers, Bind(frame, result, d))
               case Overflow(op) => Failed(op)
               case Invalid => Stuck
  {
  }

  /** A frame that has bound one more value is mirrored by the target frame past the code of that value. */
  lemma BoundIsMirrored(w: Compilation, frame: Frame, top: TargetFrame, result: ValueId, d: Datum, code: BlockCode,
                        locals: Locals)
    requires FrameMirrored(w, frame, top) && FrameOk(w.functions, Bind(frame, result, d))
    requires var c := ContextOf(w.functions, w.functions[frame.callee]);
             && frame.pc < |c.blocks[frame.block].instructions|
             && code == CodeAfter(c, Targets(w), CreatedBlocks(w, frame.callee), frame)
             && LocalsMatch(c, Bind(frame, result, d), locals)
    ensures FrameMirrored(w, Bind(frame, result, d), TargetFrame(top.callee, code, locals))
  {
  }

  lemma ComputedMirrored(w: Compilation, frame: Frame, top: TargetFrame, result: ValueId, ty: Ty, kind: ValueKind,
                         d: Datum, code: BlockCode, locals: Locals)
    requires FrameMirrored(w, frame, top) && !kind.Call? && !kind.Alloc? && HasType(d, ty)
    requires var c := ContextOf(w.functions, w.functions[frame.callee]);
             && ValueInstructionAt(c, frame, result, ty, kind)
             && result in c.types && c.types[result] == ty && result !in c.slots
             && code == CodeAfter(c, Targets(w), CreatedBlocks(w, frame.callee), frame)
             && LocalsMatch(c, Bind(frame, result, d), locals)
    ensures FrameMirrored(w, Bind(frame, result, d), TargetFrame(top.callee, code, locals))
  {
    BindKeeps(ContextOf(w.functions, w.functions[frame.callee]), frame, result, ty, kind, d);
    BoundIsMirrored(w, frame, top, result, d, code, locals);
  }

  lemma ValueStepMirrored(w: Compilation, limit: nat, callers: seq<Frame>, targets: seq<TargetFrame>, frame: Frame,
                          top: TargetFrame, result: ValueId, ty: Ty, kind: ValueKind, next: State)
    returns (k: nat, t: TargetState)
    requires FrameMirrored(w, frame, top) && !kind.Call? && !kind.Alloc?
    requires InstructionOf(w.functions, frame) == Some(Value(result, ty, kind))
    requires next == StepValue(w.functions, limit, callers, frame, result, ty, kind)
    ensures t == TargetRun(w.program, TRunning(targets, top), k)
    ensures TopStepped(w, callers, targets, next, t) && Moves(frame, next, k)
  {
    var c := ContextOf(w.functions, w.functions[frame.callee]);
    ValueInstructionFacts(w.functions, frame, result, ty, kind, c);
    EvaluationTyped(c, frame, ty, kind);
    StepsByEvaluation(w.functions, limit, callers, frame, result, ty, kind);
    var after: Locals;
    k, after := ValueSimulated(w.program, c, Targets(w), CreatedBlocks(w, frame.callee), targets, frame, top, result,
                               ty, kind);
    t := TargetRun(w.program, TRunning(targets, top), k);
    match Evaluate(frame.values, kind)
    case Computed(d) =>
      var code := CodeAfter(c, Targets(w), CreatedBlocks(w, frame.callee), frame);
      ComputedMirrored(w, frame, top, result, ty, kind, d, code, after);
    case _ =>
  }

  lemma AllocStepMirrored(w: Compilation, frame: Frame, top: TargetFrame, result: ValueId, ty: Ty)
    requires FrameMirrored(w, frame, top)
    requires InstructionOf(w.functions, frame) == Some(Value(result, ty, Alloc))
    ensures FrameMirrored(w, Bind(frame, result, UnitDatum).(stored := frame.stored - {result}), top)
  {
    var c := ContextOf(w.functions, w.functions[frame.callee]);
    ValueInstructionFacts(w.functions, frame, result, ty, Alloc, c);
    AllocSimulated(c, Targets(w), CreatedBlocks(w, frame.callee), frame, top, result, ty);
    AllocKeeps(c, frame, result, ty);
  }

  lemma StoreStepMirrored(w: Compilation, targets: seq<TargetFrame>, frame: Frame, top: TargetFrame, slot: ValueId,
                          value: ValueId) returns (k: nat, after: TargetFrame)
    requires FrameMirrored(w, frame, top)
    requires InstructionOf(w.functions, frame) == Some(Store(slot, value, Observe))
    ensures value in frame.values
    ensures TargetRun(w.program, TRunning(targets, top), k) == TRunning(targets, after)
    ensures FrameMirrored(w, Bind(frame, slot, frame.values[value]).(stored := frame.stored + {slot}), after)
  {
    var c := ContextOf(w.functions, w.functions[frame.callee]);
    AtInstruction(w.functions, frame, c);
    var locals: Locals;
    k, locals := StoreSimulated(w.program, c, Targets(w), CreatedBlocks(w, frame.callee), targets, frame, top, slot,
                                value);
    after := TargetFrame(top.callee, CodeAfter(c, Targets(w), CreatedBlocks(w, frame.callee), frame), locals);
    StoreKeeps(c, frame, slot, value);
  }

  // One step, with the stack.

  ghost predicate StacksMirror(mirrors: (Frame, TargetFrame) -> bool, callers: seq<Frame>, targets: seq<TargetFrame>) {
    |callers| == |targets| && forall i {:trigger callers[i]} :: 0 <= i < |callers| ==> mirrors(callers[i], targets[i])
  }

  ghost function Mirroring(w: Compilation): (Frame, TargetFrame) -> bool {
    (frame, target) => FrameMirrored(w, frame, target)
  }

  /** The target state stands for the NIR state: frame for frame, or the same end. */
  ghost predicate Related(w: Compilation, s: State, t: TargetState) {
    match s
    case Running(callers, top) =>
      t.TRunning? && StacksMirror(Mirroring(w), callers, t.callers) && FrameMirrored(w, top, t.top)
    case Returned(d) => t == TReturned(WordOf(d))
    case Failed(op) => t == TFailed(op)
    case Stuck => false
  }

  lemma SteppedIsRelated(w: Compilation, callers: seq<Frame>, targets: seq<TargetFrame>, s: State, t: TargetState)
    requires StacksMirror(Mirroring(w), callers, targets) && TopStepped(w, callers, targets, s, t)
    ensures Related(w, s, t)
  {
  }

  ghost predicate AllCompiled(w: Compilation, entry: ItemId) {
    forall id {:trigger Reach(CallGraph(w.functions), entry, id)} ::
      Reach(CallGraph(w.functions), entry, id) ==> CompiledFunction(w, id) && BlocksPlanned(w, id)
  }

  lemma StackPush(mirrors: (Frame, TargetFrame) -> bool, callers: seq<Frame>, targets: seq<TargetFrame>, top: Frame,
                  target: TargetFrame)
    requires StacksMirror(mirrors, callers, targets) && mirrors(top, target)
    ensures StacksMirror(mirrors, callers + [top], targets + [target])
  {
  }

  lemma StackPop(mirrors: (Frame, TargetFrame) -> bool, callers: seq<Frame>, targets: seq<TargetFrame>)
    requires StacksMirror(mirrors, callers, targets) && callers != []
    ensures StacksMirror(mirrors, callers[..|callers| - 1], targets[..|targets| - 1])
    ensures mirrors(callers[|callers| - 1], targets[|targets| - 1])
  {
    assert mirrors(callers[|callers| - 1], targets[|targets| - 1]);
  }

  lemma CallStepRelated(w: Compilation, entry: ItemId, limit: nat, callers: seq<Frame>, targets: seq<TargetFrame>,
                        frame: Frame,
                        top: TargetFrame, result: ValueId, ty: Ty, callee: ItemId, typeArgs: seq<Ty>,
                          args: seq<ValueId>,
                        evidence: nat, next: State, t: TargetState)
    requires Safe(w.functions, entry, limit) && StackOk(w.functions, entry, callers, frame) && AllCompiled(w, entry)
    requires StacksMirror(Mirroring(w), callers, targets) && FrameMirrored(w, frame, top)
    requires InstructionOf(w.functions, frame) == Some(Value(result, ty, Call(callee, typeArgs, args, evidence)))
    requires next == StepCall(w.functions, limit, callers, frame, callee, args)
    requires t == TargetRun(w.program, TRunning(targets, top), 2)
    ensures Related(w, next, t)
  {
    CallStepKeeps(w.functions, entry, limit, callers, frame, result, ty, callee, typeArgs, args, evidence);
    var entered := Entered(w.functions, frame.values, callee, args);
    CalleeIsCompiled(w, entry, limit, callers + [frame], entered);
    EnteredMirrors(w, callee, frame.values, args);
    CallSimulated(w, targets, frame, top, result, ty, callee, typeArgs, args, evidence);
    StackPush(Mirroring(w), callers, targets, frame, top);
    RelatedRunning(w, callers + [frame], entered, targets + [top],
                   EnteredTarget(w, callee, frame.values, args), next, t);
  }

  lemma RelatedRunning(w: Compilation, callers: seq<Frame>, top: Frame, targets: seq<TargetFrame>, target: TargetFrame,
                       s: State, t: TargetState)
    requires StacksMirror(Mirroring(w), callers, targets) && FrameMirrored(w, top, target)
    requires s == Running(callers, top) && t == TRunning(targets, target)
    ensures Related(w, s, t)
  {
  }

  lemma CalleeIsCompiled(w: Compilation, entry: ItemId, limit: nat, callers: seq<Frame>, top: Frame)
    requires Safe(w.functions, entry, limit) && StackOk(w.functions, entry, callers, top) && AllCompiled(w, entry)
    ensures CompiledFunction(w, top.callee) && BlocksPlanned(w, top.callee) && CheckedFunction(w.functions, top.callee)
  {
    TopOk(w.functions, entry, callers, top);
  }

  lemma ReturnStepRelated(w: Compilation, callers: seq<Frame>, targets: seq<TargetFrame>, frame: Frame,
                          top: TargetFrame, d: Datum)
    requires StacksMirror(Mirroring(w), callers, targets) && FrameMirrored(w, frame, top)
    requires callers != [] ==> Waiting(w.functions, callers[|callers| - 1], frame)
    requires HasType(d, w.functions[frame.callee].returnType)
    requires w.program[frame.callee].signature.answer
             == (if WordOf(d).Some? then Some(TypeOf(WordOf(d).value)) else None)
    ensures Related(w, StepReturn(w.functions, callers, d), StepRet(w.program, targets, top, WordOf(d)))
  {
    if callers != [] {
      var n := |callers| - 1;
      StackPop(Mirroring(w), callers, targets);
      var after := CallerReceives(w, callers[n], targets[n], frame, d);
      CallerResumes(w.functions, callers[n], frame, d);
      var call := InstructionOf(w.functions, callers[n]).value;
      assert StepReturn(w.functions, callers, d) == Running(callers[..n], Bind(callers[n], call.result, d));
      assert StepRet(w.program, targets, top, WordOf(d)) == TRunning(targets[..n], after);
    }
  }

  lemma AllocStepRelated(w: Compilation, limit: nat, callers: seq<Frame>, targets: seq<TargetFrame>, frame: Frame,
                         top: TargetFrame, result: ValueId, ty: Ty, next: State)
    requires StacksMirror(Mirroring(w), callers, targets) && FrameMirrored(w, frame, top)
    requires InstructionOf(w.functions, frame) == Some(Value(result, ty, Alloc))
    requires next == StepValue(w.functions, limit, callers, frame, result, ty, Alloc)
    ensures Related(w, next, TRunning(targets, top)) && Moves(frame, next, 0)
  {
    AllocStepMirrored(w, frame, top, result, ty);
    SteppedIsRelated(w, callers, targets, next, TRunning(targets, top));
  }

  lemma StepsIntoCall(functions: Functions, limit: nat, callers: seq<Frame>, frame: Frame, result: ValueId, ty: Ty,
                      callee: ItemId, typeArgs: seq<Ty>, args: seq<ValueId>, evidence: nat)
    ensures StepValue(functions, limit, callers, frame, result, ty, Call(callee, typeArgs, args, evidence))
            == StepCall(functions, limit, callers, frame, callee, args)
  {
  }

  lemma ValueStepRelated(w: Compilation, entry: ItemId, limit: nat, callers: seq<Frame>, targets: seq<TargetFrame>,
                         frame: Frame, top: TargetFrame, result: ValueId, ty: Ty, kind: ValueKind, next: State)
    returns (k: nat, t: TargetState)
    requires Safe(w.functions, entry, limit) && StackOk(w.functions, entry, callers, frame) && AllCompiled(w, entry)
    requires StacksMirror(Mirroring(w), callers, targets) && FrameMirrored(w, frame, top)
    requires InstructionOf(w.functions, frame) == Some(Value(result, ty, kind))
    requires next == StepValue(w.functions, limit, callers, frame, result, ty, kind)
    ensures t == TargetRun(w.program, TRunning(targets, top), k)
    ensures Related(w, next, t) && Moves(frame, next, k)
  {
    match kind
    case Call(callee, typeArgs, args, evidence) =>
      k, t := 2, TargetRun(w.program, TRunning(targets, top), 2);
      StepsIntoCall(w.functions, limit, callers, frame, result, ty, callee, typeArgs, args, evidence);
      CallStepRelated(w, entry, limit, callers, targets, frame, top, result, ty, callee, typeArgs, args, evidence,
                      next, t);
    case Alloc =>
      k, t := 0, TRunning(targets, top);
      AllocStepRelated(w, limit, callers, targets, frame, top, result, ty, next);
    case _ =>
      k, t := ValueStepMirrored(w, limit, callers, targets, frame, top, result, ty, kind, next);
      SteppedIsRelated(w, callers, targets, next, t);
  }

  lemma StoreStepRelated(w: Compilation, limit: nat, callers: seq<Frame>, targets: seq<TargetFrame>, frame: Frame,
                         top: TargetFrame, slot: ValueId, value: ValueId) returns (k: nat)
    requires StacksMirror(Mirroring(w), callers, targets) && FrameMirrored(w, frame, top)
    requires InstructionOf(w.functions, frame) == Some(Store(slot, value, Observe))
    ensures Related(w, Advance(w.functions, limit, Running(callers, frame)),
                    TargetRun(w.program, TRunning(targets, top), k))
    ensures Moves(frame, Advance(w.functions, limit, Running(callers, frame)), k)
  {
    var after: TargetFrame;
    k, after := StoreStepMirrored(w, targets, frame, top, slot, value);
    AdvancesStore(w.functions, limit, callers, frame, slot, value);
    SteppedIsRelated(w, callers, targets, Advance(w.functions, limit, Running(callers, frame)),
                     TRunning(targets, after));
  }

  lemma InstructionStepRelated(w: Compilation, entry: ItemId, limit: nat, callers: seq<Frame>,
                               targets: seq<TargetFrame>,
                               frame: Frame, top: TargetFrame, instruction: Instruction) returns (k: nat)
    requires Safe(w.functions, entry, limit) && StackOk(w.functions, entry, callers, frame) && AllCompiled(w, entry)
    requires StacksMirror(Mirroring(w), callers, targets) && FrameMirrored(w, frame, top)
    requires InstructionOf(w.functions, frame) == Some(instruction) && Supported(instruction)
    ensures Related(w, Advance(w.functions, limit, Running(callers, frame)),
                    TargetRun(w.program, TRunning(targets, top), k))
    ensures Moves(frame, Advance(w.functions, limit, Running(callers, frame)), k)
  {
    match instruction
    case Value(result, ty, kind) =>
      AdvancesValue(w.functions, limit, callers, frame, result, ty, kind);
      var t: TargetState;
      k, t := ValueStepRelated(w, entry, limit, callers, targets, frame, top, result, ty, kind,
                               Advance(w.functions, limit, Running(callers, frame)));
    case Store(slot, value, _) =>
      k := StoreStepRelated(w, limit, callers, targets, frame, top, slot, value);
  }

  lemma WaitingBelow(functions: Functions, entry: ItemId, callers: seq<Frame>, top: Frame)
    requires StackOk(functions, entry, callers, top)
    ensures callers != [] ==> Waiting(functions, callers[|callers| - 1], top)
  {
    if callers != [] {
      Popped(functions, entry, callers, top);
    }
  }

  /** The terminator step the NIR takes, by what the terminator does. */
  lemma TerminatorAdvances(functions: Functions, callers: seq<Frame>, frame: Frame, terminator: Terminator)
    requires frame.callee in functions
    requires terminator.Return? ==> HasType(ReturnedDatum(terminator, frame.values), functions[frame.callee].returnType)
    requires terminator.Return? && terminator.value.Some? ==> terminator.value.value in frame.values
    requires !terminator.Return? ==> JumpTarget(terminator, frame.values).Some?
    ensures StepTerminator(functions, callers, frame, terminator)
            == if terminator.Return? then StepReturn(functions, callers, ReturnedDatum(terminator, frame.values))
               else Running(callers, EnterBlock(frame, JumpTarget(terminator, frame.values).value))
  {
  }

  lemma ExitStepRelated(w: Compilation, callers: seq<Frame>, targets: seq<TargetFrame>, frame: Frame, top: TargetFrame,
                        c: Context)
    requires StacksMirror(Mirroring(w), callers, targets) && FrameMirrored(w, frame, top)
    requires callers != [] ==> Waiting(w.functions, callers[|callers| - 1], frame)
    requires BlocksPlanned(w, frame.callee)
    requires c == ContextOf(w.functions, w.functions[frame.callee]) && frame.pc == |c.blocks[frame.block].instructions|
    ensures Related(w, StepTerminator(w.functions, callers, frame, c.blocks[frame.block].terminator),
                    TargetStep(w.program, TRunning(targets, top)))
  {
    var terminator := c.blocks[frame.block].terminator;
    AtInstruction(w.functions, frame, c);
    TerminatorChecked(c, frame, terminator);
    if terminator.Return? {
      ReturnStep(w, targets, frame, top);
      TerminatorAdvances(w.functions, callers, frame, terminator);
      ReturnStepRelated(w, callers, targets, frame, top, ReturnedDatum(terminator, frame.values));
    } else {
      var after := JumpSimulated(w, targets, frame, top);
      TerminatorAdvances(w.functions, callers, frame, terminator);
      SteppedIsRelated(w, callers, targets, StepTerminator(w.functions, callers, frame, terminator),
                       TRunning(targets, after));
    }
  }

  lemma RunningStepRelated(w: Compilation, entry: ItemId, limit: nat, callers: seq<Frame>, targets: seq<TargetFrame>,
                           frame: Frame, top: TargetFrame) returns (k: nat)
    requires Safe(w.functions, entry, limit) && StackOk(w.functions, entry, callers, frame) && AllCompiled(w, entry)
    requires StacksMirror(Mirroring(w), callers, targets) && FrameMirrored(w, frame, top)
    ensures Related(w, Advance(w.functions, limit, Running(callers, frame)),
                    TargetRun(w.program, TRunning(targets, top), k))
    ensures Moves(frame, Advance(w.functions, limit, Running(callers, frame)), k)
  {
    var c := ContextOf(w.functions, w.functions[frame.callee]);
    AtInstruction(w.functions, frame, c);
    var block := c.blocks[frame.block];
    WhereAt(w.functions, frame, block);
    if frame.pc < |block.instructions| {
      k := InstructionStepRelated(w, entry, limit, callers, targets, frame, top, block.instructions[frame.pc]);
    } else {
      CalleeIsCompiled(w, entry, limit, callers, frame);
      WaitingBelow(w.functions, entry, callers, frame);
      ExitStepRelated(w, callers, targets, frame, top, c);
      k := 1;
      assert TargetRun(w.program, TRunning(targets, top), 1) == TargetStep(w.program, TRunning(targets, top));
    }
  }

  // Runs.

  /** How many instructions the innermost frame's block has still to execute. */
  function Remaining(functions: Functions, s: State): nat {
    match s
    case Running(_, top) =>
      (match BlockOf(functions, top)
       case Some(block) => if top.pc <= |block.instructions| then |block.instructions| - top.pc else 0
       case None => 0)
    case _ => 0
  }

  /** Every NIR step is matched by target steps; by none only if the rest of the block gets shorter. */
  lemma StepRelated(w: Compilation, entry: ItemId, limit: nat, s: State, t: TargetState) returns (k: nat)
    requires Safe(w.functions, entry, limit) && StateOk(w.functions, entry, s) && AllCompiled(w, entry)
    requires Related(w, s, t)
    ensures Related(w, Advance(w.functions, limit, s), TargetRun(w.program, t, k))
    ensures k == 0 && s.Running? ==> Remaining(w.functions, Advance(w.functions, limit, s)) < Remaining(w.functions, s)
  {
    if s.Running? {
      k := RunningStepRelated(w, entry, limit, s.callers, t.callers, s.top, t.top);
      if k == 0 {
        FewerRemain(w, s.top, Advance(w.functions, limit, s));
        RemainingOf(w.functions, s);
      }
    } else {
      k := 0;
    }
  }

  lemma RemainingOf(functions: Functions, s: State)
    requires s.Running?
    ensures Remaining(functions, s) == RemainingIn(functions, s.top)
  {
  }

  function RemainingIn(functions: Functions, frame: Frame): nat {
    match BlockOf(functions, frame)
    case Some(block) => if frame.pc <= |block.instructions| then |block.instructions| - frame.pc else 0
    case None => 0
  }

  lemma FewerRemain(w: Compilation, before: Frame, s: State)
    requires s.Running? && FrameOk(w.functions, s.top)
    requires s.top.callee == before.callee && s.top.block == before.block && s.top.pc == before.pc + 1
    ensures Remaining(w.functions, s) < RemainingIn(w.functions, before)
  {
    AtInstruction(w.functions, s.top, ContextOf(w.functions, w.functions[s.top.callee]));
  }

  /** What a run of compiled code relies on throughout. */
  ghost predicate Sound(w: Compilation, entry: ItemId, limit: nat) {
    Safe(w.functions, entry, limit) && AllCompiled(w, entry)
  }

  ghost predicate InStep(w: Compilation, entry: ItemId, s: State, t: TargetState) {
    StateOk(w.functions, entry, s) && Related(w, s, t)
  }

  lemma OneStep(w: Compilation, entry: ItemId, limit: nat, s: State, t: TargetState) returns (k: nat)
    requires Sound(w, entry, limit) && InStep(w, entry, s, t)
    ensures InStep(w, entry, Advance(w.functions, limit, s), TargetRun(w.program, t, k))
    ensures k == 0 && s.Running? ==> Remaining(w.functions, Advance(w.functions, limit, s)) < Remaining(w.functions, s)
  {
    k := StepRelated(w, entry, limit, s, t);
    StepKeeps(w.functions, entry, limit, s);
  }

  lemma EndedTogether(w: Compilation, s: State, t: TargetState)
    requires Related(w, s, t)
    ensures s.Running? <==> t.TRunning?
    ensures t != TStuck
  {
  }

  ghost function Advancing(functions: Functions, limit: nat): State -> State {
    s => Advance(functions, limit, s)
  }

  ghost function TargetStepping(program: Program): TargetState -> TargetState {
    t => TargetStep(program, t)
  }

  lemma {:induction false} RunIterates(functions: Functions, limit: nat, s: State, n: nat)
    ensures Run(functions, limit, s, n) == Iterate(Advancing(functions, limit), s, n)
    decreases n
  {
    if n > 0 {
      RunIterates(functions, limit, Advance(functions, limit, s), n - 1);
    }
  }

  lemma {:induction false} TargetRunIterates(program: Program, t: TargetState, n: nat)
    ensures TargetRun(program, t, n) == Iterate(TargetStepping(program), t, n)
    decreases n
  {
    if n > 0 {
      TargetRunIterates(program, TargetStep(program, t), n - 1);
    }
  }

  /** The interpreter of the NIR and the machine running its code. */
  ghost function Machines(w: Compilation, entry: ItemId, limit: nat): Pair<State, TargetState> {
    Pair(Advancing(w.functions, limit), TargetStepping(w.program), (s, t) => InStep(w, entry, s, t),
         (s: State) => !s.Running?, (t: TargetState) => !t.TRunning?, s => Remaining(w.functions, s))
  }

  lemma MachinesSimulate(w: Compilation, entry: ItemId, limit: nat)
    requires Sound(w, entry, limit)
    ensures Simulates(Machines(w, entry, limit))
    ensures forall t {:trigger Machines(w, entry, limit).done(t)} ::
              Machines(w, entry, limit).done(t) ==> Machines(w, entry, limit).second(t) == t
  {
    var p := Machines(w, entry, limit);
    forall s, t
      ensures Matched(p, s, t)
    {
      if p.related(s, t) {
        var j := OneStep(w, entry, limit, s, t);
        TargetRunIterates(w.program, t, j);
        assert Answered(p, s, t, j);
        EndedTogether(w, s, t);
      }
    }
  }

  /** The entry wrapper's call of the compiled entry function. */
  function TargetStart(program: Program, entry: ItemId): TargetState {
    if entry in program && Prologue in program[entry].code then
      TRunning([], TargetFrame(entry, program[entry].code[Prologue], Locals(map[], map[])))
    else TStuck
  }

  lemma StartsInStep(w: Compilation, entry: ItemId, limit: nat)
    requires Sound(w, entry, limit) && Reach(CallGraph(w.functions), entry, entry)
    ensures TargetStart(w.program, entry).TRunning?
    ensures InStep(w, entry, Start(entry, limit), TargetStep(w.program, TargetStart(w.program, entry)))
  {
    StartOk(w.functions, entry, limit);
    assert CompiledFunction(w, entry);
    EnteredMirrors(w, entry, map[], []);
    PrologueJumps(w, [], entry, Locals(map[], map[]));
  }

  // What a run ends with.

  ghost predicate ProgramEnds(functions: Functions, limit: nat, entry: ItemId, end: State) {
    exists n :: Run(functions, limit, Start(entry, limit), n) == end
  }

  ghost predicate ProgramReturns(functions: Functions, limit: nat, entry: ItemId, d: Datum) {
    ProgramEnds(functions, limit, entry, Returned(d))
  }

  ghost predicate ProgramFails(functions: Functions, limit: nat, entry: ItemId, op: CheckedOp) {
    ProgramEnds(functions, limit, entry, Failed(op))
  }

  ghost predicate TargetReturns(program: Program, entry: ItemId, word: Option<Word>) {
    exists k :: TargetRun(program, TargetStart(program, entry), k) == TReturned(word)
  }

  ghost predicate TargetFails(program: Program, entry: ItemId, op: CheckedOp) {
    exists k :: TargetRun(program, TargetStart(program, entry), k) == TFailed(op)
  }

  /** Forwards: however far the program runs, the executable gets to the corresponding state. */
  lemma EndsAreKept(w: Compilation, entry: ItemId, limit: nat, n: nat) returns (k: nat)
    requires Sound(w, entry, limit) && Reach(CallGraph(w.functions), entry, entry)
    ensures Related(w, Run(w.functions, limit, Start(entry, limit), n),
                    TargetRun(w.program, TargetStart(w.program, entry), k))
  {
    StartsInStep(w, entry, limit);
    k := KeepsFrom(w, entry, limit, Start(entry, limit), TargetStep(w.program, TargetStart(w.program, entry)), n);
    OneStepFirst(w.program, TargetStart(w.program, entry), k);
    k := k + 1;
  }

  lemma KeepsFrom(w: Compilation, entry: ItemId, limit: nat, s: State, t: TargetState, n: nat) returns (k: nat)
    requires Sound(w, entry, limit) && InStep(w, entry, s, t)
    ensures Related(w, Run(w.functions, limit, s, n), TargetRun(w.program, t, k))
  {
    MachinesSimulate(w, entry, limit);
    k := Follows(Machines(w, entry, limit), s, t, n);
    RunIterates(w.functions, limit, s, n);
    TargetRunIterates(w.program, t, k);
  }

  lemma OneStepFirst(program: Program, t: TargetState, k: nat)
    ensures TargetRun(program, t, k + 1) == TargetRun(program, TargetStep(program, t), k)
  {
  }

  ghost function InStepWith(w: Compilation, entry: ItemId, s: State): TargetState -> bool {
    t => InStep(w, entry, s, t)
  }

  lemma StartsHolding(w: Compilation, entry: ItemId, limit: nat)
    requires Sound(w, entry, limit) && Reach(CallGraph(w.functions), entry, entry)
    ensures TargetStart(w.program, entry).TRunning?
    ensures InStepWith(w, entry, Start(entry, limit))(TargetStep(w.program, TargetStart(w.program, entry)))
  {
    StartsInStep(w, entry, limit);
  }

  /** A run that ended took a first step, whatever holds of the state that step led to. */
  lemma AfterFirst(program: Program, start: TargetState, k: nat, end: TargetState, holds: TargetState -> bool)
    returns (first: TargetState, j: nat)
    requires start.TRunning? && holds(TargetStep(program, start))
    requires !end.TRunning? && end == TargetRun(program, start, k)
    ensures holds(first) && end == TargetRun(program, first, j)
  {
    first, j := TargetStep(program, start), k - 1;
  }

  /** Backwards: however the executable ends, the program ends the same way. */
  lemma EndsAreReached(w: Compilation, entry: ItemId, limit: nat, k: nat, end: TargetState) returns (n: nat)
    requires Sound(w, entry, limit) && Reach(CallGraph(w.functions), entry, entry)
    requires !end.TRunning? && end == TargetRun(w.program, TargetStart(w.program, entry), k)
    ensures Related(w, Run(w.functions, limit, Start(entry, limit), n), end)
  {
    StartsHolding(w, entry, limit);
    var first, j := AfterFirst(w.program, TargetStart(w.program, entry), k, end,
                               InStepWith(w, entry, Start(entry, limit)));
    n := EndsFrom(w, entry, limit, Start(entry, limit), first, j, end);
  }

  lemma EndsFrom(w: Compilation, entry: ItemId, limit: nat, s: State, t: TargetState, k: nat, end: TargetState)
    returns (n: nat)
    requires Sound(w, entry, limit) && InStep(w, entry, s, t)
    requires !end.TRunning? && end == TargetRun(w.program, t, k)
    ensures Related(w, Run(w.functions, limit, s, n), end)
  {
    MachinesSimulate(w, entry, limit);
    TargetRunIterates(w.program, t, k);
    n := EndsWhereFirstDoes(Machines(w, entry, limit), s, t, k);
    RunIterates(w.functions, limit, s, n);
  }

  lemma LoweringIsSound(m: Module, build: Build, plan: NativePlan, program: Program, limit: nat)
    requires Accepted(m, build, plan.entry) && IsPlan(m, plan.entry, plan) && |plan.functions| <= limit
    requires IsLoweredProgram(FunctionMap(m.functions), plan, program)
    ensures Sound(Compilation(FunctionMap(m.functions), plan, program), plan.entry, limit)
    ensures Reach(CallGraph(FunctionMap(m.functions)), plan.entry, plan.entry)
  {
    var functions := FunctionMap(m.functions);
    AcceptedIsSafe(m, build, plan.entry, plan, limit);
    ReachSelf(CallGraph(functions), plan.entry);
    forall id | Reach(CallGraph(functions), plan.entry, id)
      ensures CompiledFunction(Compilation(functions, plan, program), id)
      ensures BlocksPlanned(Compilation(functions, plan, program), id)
    {
      ReachInGraph(CallGraph(functions), plan.entry, id);
      PlannedIsCompiled(m, plan, program, id);
    }
  }

  lemma PlannedIsCompiled(m: Module, plan: NativePlan, program: Program, id: ItemId)
    requires IsPlan(m, plan.entry, plan) && IsLoweredProgram(FunctionMap(m.functions), plan, program)
    requires Reach(CallGraph(FunctionMap(m.functions)), plan.entry, id) && id in FunctionMap(m.functions)
    ensures CompiledFunction(Compilation(FunctionMap(m.functions), plan, program), id)
    ensures BlocksPlanned(Compilation(FunctionMap(m.functions), plan, program), id)
  {
  }

  lemma ReturnsTogether(w: Compilation, entry: ItemId, limit: nat, d: Datum)
    requires Sound(w, entry, limit) && Reach(CallGraph(w.functions), entry, entry)
    ensures ProgramReturns(w.functions, limit, entry, d) <==> TargetReturns(w.program, entry, WordOf(d))
  {
    if ProgramReturns(w.functions, limit, entry, d) {
      var n :| Run(w.functions, limit, Start(entry, limit), n) == Returned(d);
      var k := EndsAreKept(w, entry, limit, n);
      assert TargetRun(w.program, TargetStart(w.program, entry), k) == TReturned(WordOf(d));
    }
    if TargetReturns(w.program, entry, WordOf(d)) {
      var k :| TargetRun(w.program, TargetStart(w.program, entry), k) == TReturned(WordOf(d));
      var n := EndsAreReached(w, entry, limit, k, TReturned(WordOf(d)));
      var s := Run(w.functions, limit, Start(entry, limit), n);
      assert s.Returned? && WordOf(s.value) == WordOf(d);
      WordOfIsInjective(s.value, d);
    }
  }

  lemma FailsTogether(w: Compilation, entry: ItemId, limit: nat, op: CheckedOp)
    requires Sound(w, entry, limit) && Reach(CallGraph(w.functions), entry, entry)
    ensures ProgramFails(w.functions, limit, entry, op) <==> TargetFails(w.program, entry, op)
  {
    if ProgramFails(w.functions, limit, entry, op) {
      var n :| Run(w.functions, limit, Start(entry, limit), n) == Failed(op);
      var k := EndsAreKept(w, entry, limit, n);
      assert TargetRun(w.program, TargetStart(w.program, entry), k) == TFailed(op);
    }
    if TargetFails(w.program, entry, op) {
      var k :| TargetRun(w.program, TargetStart(w.program, entry), k) == TFailed(op);
      var n := EndsAreReached(w, entry, limit, k, TFailed(op));
      assert Run(w.functions, limit, Start(entry, limit), n) == Failed(op);
    }
  }

  /** The program never has more than `limit` functions active. */
  ghost predicate Shallow(m: Module, plan: NativePlan, limit: nat) {
    forall n :: !TooDeep(m, plan, limit, n)
  }

  lemma EndsOnce(functions: Functions, limit: nat, s: State, n: nat, j: nat)
    requires !Run(functions, limit, s, n).Running? && n <= j
    ensures Run(functions, limit, s, j) == Run(functions, limit, s, n)
  {
    RunAdds(functions, limit, s, n, j - n);
    OverStays(functions, limit, Run(functions, limit, s, n), j - n);
  }

  /** Once a run has ended it gets no deeper. */
  lemma ShallowToTheEnd(m: Module, plan: NativePlan, limit: nat, n: nat)
    requires !StateAfter(m, plan.entry, |plan.functions|, n).Running? && !TooDeep(m, plan, limit, n)
    ensures Shallow(m, plan, limit)
  {
    var functions, start := FunctionMap(m.functions), Start(plan.entry, |plan.functions|);
    forall j: nat
      ensures Active(Run(functions, |plan.functions|, start, j)) <= limit
    {
      if j > n {
        EndsOnce(functions, |plan.functions|, start, n, j);
      }
    }
  }

  /** A run ends under a limit as it ends when no limit is met, provided it is shallow enough. */
  lemma EndsAtAnyLimit(m: Module, build: Build, plan: NativePlan, limit: nat, end: State)
    requires Accepted(m, build, plan.entry) && IsPlan(m, plan.entry, plan) && !end.Running? && end != Stuck
    ensures ProgramEnds(FunctionMap(m.functions), limit, plan.entry, end)
            <==> ProgramEnds(FunctionMap(m.functions), |plan.functions|, plan.entry, end) && Shallow(m, plan, limit)
  {
    var functions := FunctionMap(m.functions);
    if n :| Run(functions, limit, Start(plan.entry, limit), n) == end {
      AnyLimit(m, build, plan, limit, n);
      ShallowToTheEnd(m, plan, limit, n);
    }
    if n :| Run(functions, |plan.functions|, Start(plan.entry, |plan.functions|), n) == end && Shallow(m, plan, limit) {
      AnyLimit(m, build, plan, limit, n);
    }
  }

  /** The executable of an accepted program returns exactly what the program returns, fails with exactly the
      operator it fails with, runs on when it runs on, and is never stuck. A limit on the frames of the interpreter
      makes a difference exactly when the run exceeds it, which takes more functions than the limit. */
  lemma LoweringPreservesMeaning(m: Module, build: Build, plan: NativePlan, program: Program, limit: nat)
    requires Accepted(m, build, plan.entry) && IsPlan(m, plan.entry, plan)
    requires IsLoweredProgram(FunctionMap(m.functions), plan, program)
    ensures forall d :: ProgramReturns(FunctionMap(m.functions), limit, plan.entry, d)
                        <==> TargetReturns(program, plan.entry, WordOf(d)) && Shallow(m, plan, limit)
    ensures forall op :: ProgramFails(FunctionMap(m.functions), limit, plan.entry, op)
                         <==> TargetFails(program, plan.entry, op) && Shallow(m, plan, limit)
    ensures forall k :: TargetRun(program, TargetStart(program, plan.entry), k) != TStuck
    ensures |plan.functions| <= limit ==> Shallow(m, plan, limit)
  {
    forall d
      ensures ProgramReturns(FunctionMap(m.functions), limit, plan.entry, d)
              <==> TargetReturns(program, plan.entry, WordOf(d)) && Shallow(m, plan, limit)
    {
      ReturnsAtAnyLimit(m, build, plan, program, limit, d);
    }
    forall op
      ensures ProgramFails(FunctionMap(m.functions), limit, plan.entry, op)
              <==> TargetFails(program, plan.entry, op) && Shallow(m, plan, limit)
    {
      FailsAtAnyLimit(m, build, plan, program, limit, op);
    }
    forall k
      ensures TargetRun(program, TargetStart(program, plan.entry), k) != TStuck
    {
      LoweredNotStuck(m, build, plan, program, k);
    }
    LargeIsShallow(m, build, plan, limit);
  }

  lemma ReturnsAtAnyLimit(m: Module, build: Build, plan: NativePlan, program: Program, limit: nat, d: Datum)
    requires Accepted(m, build, plan.entry) && IsPlan(m, plan.entry, plan)
    requires IsLoweredProgram(FunctionMap(m.functions), plan, program)
    ensures ProgramReturns(FunctionMap(m.functions), limit, plan.entry, d)
            <==> TargetReturns(program, plan.entry, WordOf(d)) && Shallow(m, plan, limit)
  {
    LoweringIsSound(m, build, plan, program, |plan.functions|);
    ReturnsTogether(Compilation(FunctionMap(m.functions), plan, program), plan.entry, |plan.functions|, d);
    EndsAtAnyLimit(m, build, plan, limit, Returned(d));
  }

  lemma FailsAtAnyLimit(m: Module, build: Build, plan: NativePlan, program: Program, limit: nat, op: CheckedOp)
    requires Accepted(m, build, plan.entry) && IsPlan(m, plan.entry, plan)
    requires IsLoweredProgram(FunctionMap(m.functions), plan, program)
    ensures ProgramFails(FunctionMap(m.functions), limit, plan.entry, op)
            <==> TargetFails(program, plan.entry, op) && Shallow(m, plan, limit)
  {
    LoweringIsSound(m, build, plan, program, |plan.functions|);
    FailsTogether(Compilation(FunctionMap(m.functions), plan, program), plan.entry, |plan.functions|, op);
    EndsAtAnyLimit(m, build, plan, limit, Failed(op));
  }

  lemma LoweredNotStuck(m: Module, build: Build, plan: NativePlan, program: Program, k: nat)
    requires Accepted(m, build, plan.entry) && IsPlan(m, plan.entry, plan)
    requires IsLoweredProgram(FunctionMap(m.functions), plan, program)
    ensures TargetRun(program, TargetStart(program, plan.entry), k) != TStuck
  {
    LoweringIsSound(m, build, plan, program, |plan.functions|);
    TargetNotStuck(Compilation(FunctionMap(m.functions), plan, program), plan.entry, |plan.functions|, k);
  }

  /** Nothing the executable of an accepted program is ever about to do is malformed: no register or variable is read
      before it is written, no word is used at another type, and every call and return fits the signature declared. */
  lemma NothingMalformed(m: Module, build: Build, plan: NativePlan, program: Program, k: nat)
    requires Accepted(m, build, plan.entry) && IsPlan(m, plan.entry, plan)
    requires IsLoweredProgram(FunctionMap(m.functions), plan, program)
    ensures var t := TargetRun(program, TargetStart(program, plan.entry), k);
            t.TRunning? ==> !Malformed(program, t.callers, t.top)
  {
    LoweredNotStuck(m, build, plan, program, k + 1);
    NextUnlessMalformed(program, TargetStart(program, plan.entry), k);
  }

  lemma LargeIsShallow(m: Module, build: Build, plan: NativePlan, limit: nat)
    requires Accepted(m, build, plan.entry) && IsPlan(m, plan.entry, plan)
    ensures |plan.functions| <= limit ==> Shallow(m, plan, limit)
  {
    forall n | |plan.functions| <= limit
      ensures !TooDeep(m, plan, limit, n)
    {
      AnyLimit(m, build, plan, limit, n);
    }
  }

  lemma TargetNotStuck(w: Compilation, entry: ItemId, limit: nat, k: nat)
    requires Sound(w, entry, limit) && Reach(CallGraph(w.functions), entry, entry)
    ensures TargetRun(w.program, TargetStart(w.program, entry), k) != TStuck
  {
    var t := TargetRun(w.program, TargetStart(w.program, entry), k);
    if !t.TRunning? {
      var n := EndsAreReached(w, entry, limit, k, t);
      EndedTogether(w, Run(w.functions, limit, Start(entry, limit), n), t);
    }
  }

  // What the parent process observes.

  /** What every failure handler passes to `exit`. */
  const RUNTIME_FAILURE_STATUS: nat := 70

  /** The C status the entry wrapper hands back for what the compiled entry function returned. */
  function WrapperStatus(entryResult: Scalar, word: Option<Word>): Option<int> {
    match (entryResult, word)
    case (UnitScalar, None) => Some(0)
    case (IntScalar, Some(I64(n))) => Some(Reduce32(n))
    case _ => None
  }

  function Observed(entryResult: Scalar, t: TargetState): Option<nat> {
    match t
    case TReturned(word) =>
      (match WrapperStatus(entryResult, word)
       case Some(status) => Some(ObservedStatus(status))
       case None => None)
    case TFailed(_) => Some(RUNTIME_FAILURE_STATUS)
    case _ => None
  }

  /** What a finished run's status should be. */
  function ExpectedStatus(s: State): nat
    requires s.Returned? || s.Failed?
  {
    match s
    case Returned(IntDatum(n)) => n % 256
    case Returned(_) => 0
    case Failed(_) => 70
  }

  predicate Ended(t: TargetState) {
    t.TReturned? || t.TFailed?
  }

  /** A parent process observes nothing of an executable that has not ended. */
  lemma ObservedOnlyAtTheEnd(entryResult: Scalar, t: TargetState)
    ensures Observed(entryResult, t).Some? ==> Ended(t)
  {
  }

  lemma StatusOfRelated(w: Compilation, entryResult: Scalar, s: State, t: TargetState)
    requires Related(w, s, t) && (s.Returned? || s.Failed?) && entryResult in {IntScalar, UnitScalar}
    requires s.Returned? ==> HasScalar(s.value, entryResult)
    ensures Ended(t) && Observed(entryResult, t) == Some(ExpectedStatus(s))
  {
    match s
    case Returned(IntDatum(n)) => ReducedStatusIsModulo256(n);
    case _ =>
  }

  lemma {:induction false} EndedRests(program: Program, t: TargetState, k: nat)
    requires Ended(t)
    ensures TargetRun(program, t, k) == t
    decreases k
  {
    if k > 0 {
      EndedRests(program, t, k - 1);
    }
  }

  lemma EndsInOneState(program: Program, start: TargetState, j: nat, k: nat)
    requires Ended(TargetRun(program, start, j)) && Ended(TargetRun(program, start, k))
    ensures TargetRun(program, start, j) == TargetRun(program, start, k)
  {
    var first, last := if j < k then j else k, if j < k then k else j;
    TargetRunAdds(program, start, first, last - first);
    EndedRests(program, TargetRun(program, start, first), last - first);
  }

  /** The executable ends with this status, and with no other. */
  ghost predicate ExitsWith(program: Program, entry: ItemId, entryResult: Scalar, status: nat) {
    && (exists k :: Ended(TargetRun(program, TargetStart(program, entry), k)))
    && forall k :: Ended(TargetRun(program, TargetStart(program, entry), k)) ==>
                     Observed(entryResult, TargetRun(program, TargetStart(program, entry), k)) == Some(status)
  }

  lemma EndGivesStatus(program: Program, entry: ItemId, entryResult: Scalar, k: nat, status: nat)
    requires Ended(TargetRun(program, TargetStart(program, entry), k))
    requires Observed(entryResult, TargetRun(program, TargetStart(program, entry), k)) == Some(status)
    ensures ExitsWith(program, entry, entryResult, status)
  {
    forall j: nat | Ended(TargetRun(program, TargetStart(program, entry), j))
      ensures TargetRun(program, TargetStart(program, entry), j) == TargetRun(program, TargetStart(program, entry), k)
    {
      EndsInOneState(program, TargetStart(program, entry), j, k);
    }
  }

  /** The status is the returned integer modulo 256, 0 for `unit`, and 70 for a runtime failure. */
  lemma ExitStatusIsTheResult(m: Module, build: Build, plan: NativePlan, program: Program, limit: nat, n: nat)
    requires Accepted(m, build, plan.entry) && IsPlan(m, plan.entry, plan)
    requires IsLoweredProgram(FunctionMap(m.functions), plan, program)
    requires !StateAfter(m, plan.entry, limit, n).Running? && !TooDeep(m, plan, limit, n)
    ensures StateAfter(m, plan.entry, limit, n).Returned? || StateAfter(m, plan.entry, limit, n).Failed?
    ensures ExitsWith(program, plan.entry, plan.entryResult, ExpectedStatus(StateAfter(m, plan.entry, limit, n)))
  {
    var w, s := Compilation(FunctionMap(m.functions), plan, program), StateAfter(m, plan.entry, limit, n);
    AnyLimit(m, build, plan, limit, n);
    LoweringIsSound(m, build, plan, program, |plan.functions|);
    NeverStuck(m, build, plan, limit, n);
    EntryResultIsSupported(m, build, plan);
    var k := EndsAreKept(w, plan.entry, |plan.functions|, n);
    StatusOfRelated(w, plan.entryResult, s, TargetRun(program, TargetStart(program, plan.entry), k));
    EndGivesStatus(program, plan.entry, plan.entryResult, k, ExpectedStatus(s));
  }

  lemma EntryResultIsSupported(m: Module, build: Build, plan: NativePlan)
    requires Accepted(m, build, plan.entry) && IsPlan(m, plan.entry, plan)
    ensures plan.entryResult in {IntScalar, UnitScalar}
  {
    EntryHasScalar(m, build, plan.entry);
    PlannedScalar(m, plan.entry, plan);
  }
}
