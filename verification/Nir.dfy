/** The Napitia IR: functions made of basic blocks, values named within one function. */
module Nir {
  import opened Wrappers

  type ValueId = nat
  type BlockId = nat
  type ItemId = nat
  type SourceId = nat

  /** Every block graph is entered here. */
  const ENTRY_BLOCK: BlockId := 0

  /** The types the backend classifies; `OtherTy` stands for every type it has no scalar for. */
  datatype Ty = I64Ty | BoolTy | UnitTy | OtherTy(tag: nat)

  datatype Scalar = IntScalar | BoolScalar | UnitScalar

  function ScalarOf(ty: Ty): Option<Scalar> {
    match ty
    case I64Ty => Some(IntScalar)
    case BoolTy => Some(BoolScalar)
    case UnitTy => Some(UnitScalar)
    case OtherTy(_) => None
  }

  /** A constant of unbounded magnitude; `OtherConst` stands for floats, characters and strings. */
  datatype Const = IntConst(literal: int) | BoolConst(flag: bool) | UnitConst | OtherConst(tag: nat)

  /** The operators with an overflow test and a failure handler. */
  datatype CheckedOp = AddOp | SubOp | MulOp | NegOp

  datatype BinaryOp =
    | Add | Sub | Mul | Div | Rem
    | BitAnd | BitOr | BitXor | Shl | Shr
    | Eq | Ne | Lt | Le | Gt | Ge

  /** `UnsupportedKind` stands for the aggregate, resource and observation kinds. */
  datatype ValueKind =
    | Alloc
    | Constant(value: Const)
    | Load(slot: ValueId)
    | Binary(op: BinaryOp, left: ValueId, right: ValueId)
    | Neg(operand: ValueId)
    | Not(operand: ValueId)
    | Call(callee: ItemId, typeArgs: seq<Ty>, args: seq<ValueId>, evidence: nat)
    | ProtocolCall(tag: nat)
    | UnsupportedKind(tag: nat)

  datatype OwnershipMode = Observe | Transfer

  /** `UnsupportedInstruction` stands for `drop`, `decompose`, `store.place` and `end.observe`. */
  datatype Instruction =
    | Value(result: ValueId, ty: Ty, kind: ValueKind)
    | Store(slot: ValueId, value: ValueId, mode: OwnershipMode)
    | UnsupportedInstruction(tag: nat)

  datatype Terminator =
    | Return(value: Option<ValueId>)
    | Branch(target: BlockId)
    | CondBranch(condition: ValueId, thenBlock: BlockId, elseBlock: BlockId)
    | Switch(scrutinee: ValueId, cases: seq<BlockId>)
    | Invoke(callee: ItemId, okTarget: BlockId, errTargets: seq<BlockId>)
    | Raise(raised: ValueId)

  datatype BasicBlock = BasicBlock(id: BlockId, instructions: seq<Instruction>, terminator: Terminator)

  datatype Param = Param(value: ValueId, ty: Ty, take: bool)

  /** Generic parameters, capability requirements and raised effects are only ever counted. */
  datatype Function = Function(
    id: ItemId,
    name: string,
    typeParams: nat,
    requirements: nat,
    params: seq<Param>,
    returnType: Ty,
    raises: nat,
    blocks: seq<BasicBlock>)

  datatype Module = Module(functions: seq<Function>)

  /** Control can leave a block for `b`, whether or not the terminator is supported. */
  predicate GoesTo(terminator: Terminator, b: BlockId) {
    || (terminator.Branch? && b == terminator.target)
    || (terminator.CondBranch? && (b == terminator.thenBlock || b == terminator.elseBlock))
    || (terminator.Switch? && b in terminator.cases)
    || (terminator.Invoke? && (b == terminator.okTarget || b in terminator.errTargets))
  }

  /** The edges a terminator contributes to the control-flow graph, repeated targets included. */
  function TerminatorTargets(terminator: Terminator): (targets: seq<BlockId>)
    ensures forall b :: b in targets <==> GoesTo(terminator, b)
  {
    match terminator
    case Return(_) => []
    case Raise(_) => []
    case Branch(target) => [target]
    case CondBranch(_, thenBlock, elseBlock) => [thenBlock, elseBlock]
    case Switch(_, cases) => cases
    case Invoke(_, okTarget, errTargets) => [okTarget] + errTargets
  }

  type Blocks = map<BlockId, BasicBlock>

  /** The blocks keyed by id; with a repeated id the first one stays. */
  function BlockMap(blocks: seq<BasicBlock>): Blocks {
    if blocks == [] then map[] else BlockMap(blocks[1..])[blocks[0].id := blocks[0]]
  }

  lemma {:induction false} BlockMapHolds(blocks: seq<BasicBlock>, id: BlockId)
    ensures id in BlockMap(blocks) ==> BlockMap(blocks)[id] in blocks && BlockMap(blocks)[id].id == id
    ensures id in BlockMap(blocks) <==> exists b :: b in blocks && b.id == id
  {
    if blocks != [] {
      BlockMapHolds(blocks[1..], id);
      assert forall b :: b in blocks <==> b == blocks[0] || b in blocks[1..];
    }
  }

  predicate DistinctBlockIds(blocks: seq<BasicBlock>) {
    forall i, j :: 0 <= i < j < |blocks| ==> blocks[i].id != blocks[j].id
  }

  type Functions = map<ItemId, Function>

  function FunctionMap(functions: seq<Function>): Functions {
    if functions == [] then map[] else FunctionMap(functions[1..])[functions[0].id := functions[0]]
  }

  lemma {:induction false} FunctionMapHolds(functions: seq<Function>, id: ItemId)
    ensures id in FunctionMap(functions) ==>
            FunctionMap(functions)[id] in functions && FunctionMap(functions)[id].id == id
    ensures id in FunctionMap(functions) <==> exists f :: f in functions && f.id == id
  {
    if functions != [] {
      FunctionMapHolds(functions[1..], id);
      assert forall f :: f in functions <==> f == functions[0] || f in functions[1..];
    }
  }

  predicate DistinctFunctionIds(functions: seq<Function>) {
    forall i, j :: 0 <= i < j < |functions| ==> functions[i].id != functions[j].id
  }
}
