/** What each check refuses and with which code, stated over the fields of what is checked. */
module Gates {
  import opened Wrappers
  import opened Nir
  import opened Dataflow
  import opened Capability

  predicate IsNative(ty: Ty) {
    ty == I64Ty || ty == BoolTy || ty == UnitTy
  }

  /** Scalars tell native types apart, and no other type has one. */
  lemma ScalarsAreNativeTypes(a: Ty, b: Ty)
    ensures ScalarOf(a).Some? <==> IsNative(a)
    ensures IsNative(a) ==> (ScalarOf(a) == ScalarOf(b) <==> a == b)
    ensures ScalarOf(a) == Some(IntScalar) <==> a == I64Ty
    ensures ScalarOf(a) == Some(BoolScalar) <==> a == BoolTy
    ensures ScalarOf(a) == Some(UnitScalar) <==> a == UnitTy
  {
  }

  // Operands.

  /** `v` can be used as a value: it is no slot, it is available, and its type is native. */
  ghost predicate Ordinary(c: Context, live: Values, v: ValueId) {
    v !in c.slots && v in live && v in c.types && IsNative(c.types[v])
  }

  ghost predicate OperandRefused(c: Context, live: Values, v: ValueId, code: Code) {
    || (code == SlotUsedAsValue && v in c.slots)
    || (code == UnverifiedNir && v !in c.slots && (v !in live || v !in c.types))
    || (code == UnsupportedType && v !in c.slots && v in live && v in c.types && !IsNative(c.types[v]))
  }

  lemma OperandGate(c: Context, live: Values, v: ValueId)
    ensures Operand(c, live, v).Ok? <==> Ordinary(c, live, v)
    ensures Operand(c, live, v).Ok? ==> ScalarOf(c.types[v]) == Some(Operand(c, live, v).value)
    ensures forall code :: Operand(c, live, v) == Err(code) <==> OperandRefused(c, live, v, code)
  {
  }

  /** `code` is that of the first of two operands that is refused. */
  ghost predicate EitherRefused(c: Context, live: Values, a: ValueId, b: ValueId, code: Code) {
    OperandRefused(c, live, a, code) || (Ordinary(c, live, a) && OperandRefused(c, live, b, code))
  }

  // Values.

  ghost predicate ConstantRefused(ty: Ty, value: Const, code: Code) {
    || (code == UnsupportedType && value.OtherConst?)
    || (code == UnverifiedNir && value.IntConst? && ty != I64Ty)
    || (code == UnverifiedNir && value.BoolConst? && ty != BoolTy)
    || (code == UnverifiedNir && value.UnitConst? && ty != UnitTy)
  }

  ghost predicate BinaryRefused(c: Context, live: Values, ty: Ty, op: BinaryOp, a: ValueId, b: ValueId, code: Code) {
    if op == Div || op == Rem || op == Shl || op == Shr then code == UnsupportedOperator
    else if !Ordinary(c, live, a) || !Ordinary(c, live, b) then EitherRefused(c, live, a, b, code)
    else if op == Add || op == Sub || op == Mul || op == BitAnd || op == BitOr || op == BitXor then
      code == UnverifiedNir && !(c.types[a] == I64Ty && c.types[b] == I64Ty && ty == I64Ty)
    else
      || (code == UnverifiedNir && (c.types[a] != c.types[b] || ty != BoolTy))
      || (code == UnsupportedOperator && op != Eq && op != Ne
          && c.types[a] == UnitTy && c.types[b] == UnitTy && ty == BoolTy)
  }

  lemma BinaryGate(c: Context, live: Values, ty: Ty, result: Scalar, op: BinaryOp, a: ValueId, b: ValueId, code: Code)
    requires ScalarOf(ty) == Some(result)
    ensures CheckBinary(c, live, result, op, a, b) == Some(code) <==> BinaryRefused(c, live, ty, op, a, b, code)
  {
    OperandGate(c, live, a);
    OperandGate(c, live, b);
    if Ordinary(c, live, a) && Ordinary(c, live, b) {
      ScalarsAreNativeTypes(c.types[a], c.types[b]);
      ScalarsAreNativeTypes(c.types[a], ty);
      ScalarsAreNativeTypes(c.types[b], ty);
      ScalarsAreNativeTypes(ty, ty);
    }
  }

  ghost predicate NegRefused(c: Context, live: Values, ty: Ty, a: ValueId, code: Code) {
    || OperandRefused(c, live, a, code)
    || (code == UnverifiedNir && Ordinary(c, live, a) && !(c.types[a] == I64Ty && ty == I64Ty))
  }

  ghost predicate NotRefused(c: Context, live: Values, ty: Ty, a: ValueId, code: Code) {
    || OperandRefused(c, live, a, code)
    || (code == UnverifiedNir && Ordinary(c, live, a) && (c.types[a] != ty || ty == UnitTy))
  }

  ghost predicate LoadRefused(c: Context, ty: Ty, slot: ValueId, code: Code) {
    code == UnverifiedNir && !(slot in c.slots && slot in c.types && c.types[slot] == ty)
  }

  // Calls.

  ghost predicate ArgumentMatches(c: Context, live: Values, arg: ValueId, ty: Ty) {
    Ordinary(c, live, arg) && c.types[arg] == ty
  }

  ghost predicate ArgumentRefused(c: Context, live: Values, arg: ValueId, ty: Ty, code: Code) {
    || OperandRefused(c, live, arg, code)
    || (code == CallSignatureMismatch && Ordinary(c, live, arg) && c.types[arg] != ty)
  }

  /** Position `k` is the first whose argument is refused. */
  ghost predicate FirstArgumentRefused(c: Context, live: Values, args: seq<ValueId>, params: seq<Param>, k: int,
                                       code: Code)
    requires |args| == |params|
  {
    && 0 <= k < |args| && ArgumentRefused(c, live, args[k], params[k].ty, code)
    && forall j :: 0 <= j < k ==> ArgumentMatches(c, live, args[j], params[j].ty)
  }

  lemma ArgumentGate(c: Context, live: Values, arg: ValueId, param: Param)
    ensures ArgumentFits(c, live, arg, param) <==> ArgumentMatches(c, live, arg, param.ty)
    ensures ArgumentMatches(c, live, arg, param.ty) ==> forall code :: !ArgumentRefused(c, live, arg, param.ty, code)
  {
    OperandGate(c, live, arg);
    if Ordinary(c, live, arg) {
      ScalarsAreNativeTypes(c.types[arg], param.ty);
    }
  }

  lemma {:induction false} ArgumentsGate(c: Context, live: Values, args: seq<ValueId>, params: seq<Param>, code: Code)
    requires |args| == |params|
    ensures CheckArguments(c, live, args, params) == Some(code)
            <==> exists k :: FirstArgumentRefused(c, live, args, params, k, code)
  {
    if args != [] {
      OperandGate(c, live, args[0]);
      ArgumentGate(c, live, args[0], params[0]);
      ArgumentsGate(c, live, args[1..], params[1..], code);
      if ArgumentMatches(c, live, args[0], params[0].ty) {
        ScalarsAreNativeTypes(c.types[args[0]], params[0].ty);
        LaterArguments(c, live, args, params, code);
      } else if ArgumentRefused(c, live, args[0], params[0].ty, code) {
        assert FirstArgumentRefused(c, live, args, params, 0, code);
      }
    }
  }

  lemma LaterArguments(c: Context, live: Values, args: seq<ValueId>, params: seq<Param>, code: Code)
    requires |args| == |params| > 0 && ArgumentMatches(c, live, args[0], params[0].ty)
    ensures (exists k :: FirstArgumentRefused(c, live, args, params, k, code))
            <==> exists k :: FirstArgumentRefused(c, live, args[1..], params[1..], k, code)
  {
    ArgumentGate(c, live, args[0], params[0]);
    if k :| FirstArgumentRefused(c, live, args, params, k, code) {
      assert FirstArgumentRefused(c, live, args[1..], params[1..], k - 1, code);
    }
    if k :| FirstArgumentRefused(c, live, args[1..], params[1..], k, code) {
      assert args[1..][k] == args[k + 1] && params[1..][k] == params[k + 1];
      forall j | 0 <= j < k + 1
        ensures ArgumentMatches(c, live, args[j], params[j].ty)
      {
        if j > 0 { assert args[1..][j - 1] == args[j] && params[1..][j - 1] == params[j]; }
      }
      assert FirstArgumentRefused(c, live, args, params, k + 1, code);
    }
  }

  ghost predicate CallRefused(c: Context, live: Values, ty: Ty, callee: ItemId, typeArgs: seq<Ty>, args: seq<ValueId>,
                              evidence: nat, code: Code)
  {
    if typeArgs != [] then code == GenericCode
    else if evidence != 0 then code == CapabilityDispatch
    else if callee !in c.functions then code == UnknownCallee
    else if |args| != |c.functions[callee].params| then code == CallSignatureMismatch
    else
      var target := c.functions[callee];
      || (exists k :: FirstArgumentRefused(c, live, args, target.params, k, code))
      || (code == CallSignatureMismatch && target.returnType != ty
          && forall j :: 0 <= j < |args| ==> ArgumentMatches(c, live, args[j], target.params[j].ty))
  }

  lemma CallGate(c: Context, live: Values, ty: Ty, result: Scalar, callee: ItemId, typeArgs: seq<Ty>,
                 args: seq<ValueId>, evidence: nat, code: Code)
    requires ScalarOf(ty) == Some(result)
    ensures CheckCall(c, live, result, callee, typeArgs, args, evidence) == Some(code)
            <==> CallRefused(c, live, ty, callee, typeArgs, args, evidence, code)
  {
    if typeArgs == [] && evidence == 0 && callee in c.functions && |args| == |c.functions[callee].params| {
      var target := c.functions[callee];
      ArgumentsGate(c, live, args, target.params, code);
      ScalarsAreNativeTypes(ty, target.returnType);
      forall j | 0 <= j < |args|
        ensures ArgumentFits(c, live, args[j], target.params[j])
                <==> ArgumentMatches(c, live, args[j], target.params[j].ty)
        ensures ArgumentMatches(c, live, args[j], target.params[j].ty) ==>
                  !ArgumentRefused(c, live, args[j], target.params[j].ty, code)
      {
        ArgumentGate(c, live, args[j], target.params[j]);
      }
    }
  }

  // Instructions.

  ghost predicate ValueRefused(c: Context, live: Values, ty: Ty, kind: ValueKind, code: Code) {
    if !IsNative(ty) then code == UnsupportedType
    else match kind
         case Alloc => false
         case Constant(value) => ConstantRefused(ty, value, code)
         case Load(slot) => LoadRefused(c, ty, slot, code)
         case Binary(op, a, b) => BinaryRefused(c, live, ty, op, a, b, code)
         case Neg(a) => NegRefused(c, live, ty, a, code)
         case Not(a) => NotRefused(c, live, ty, a, code)
         case Call(callee, typeArgs, args, evidence) =>
           CallRefused(c, live, ty, callee, typeArgs, args, evidence, code)
         case ProtocolCall(_) => code == CapabilityDispatch
         case UnsupportedKind(_) => code == Code.UnsupportedInstruction
  }

  lemma ValueGate(c: Context, live: Values, ty: Ty, kind: ValueKind, code: Code)
    ensures CheckValue(c, live, ty, kind) == Some(code) <==> ValueRefused(c, live, ty, kind, code)
  {
    ScalarsAreNativeTypes(ty, ty);
    if IsNative(ty) {
      match kind
      case Load(slot) => if slot in c.types { ScalarsAreNativeTypes(ty, c.types[slot]); }
      case Binary(op, a, b) => BinaryGate(c, live, ty, ScalarOf(ty).value, op, a, b, code);
      case Neg(a) => UnaryGate(c, live, ty, a);
      case Not(a) => UnaryGate(c, live, ty, a);
      case Call(callee, typeArgs, args, evidence) =>
        CallGate(c, live, ty, ScalarOf(ty).value, callee, typeArgs, args, evidence, code);
      case _ =>
    }
  }

  lemma UnaryGate(c: Context, live: Values, ty: Ty, a: ValueId)
    ensures Operand(c, live, a).Ok? <==> Ordinary(c, live, a)
    ensures forall code :: Operand(c, live, a) == Err(code) <==> OperandRefused(c, live, a, code)
    ensures Operand(c, live, a).Ok? && IsNative(ty) ==>
              (Some(Operand(c, live, a).value) == ScalarOf(ty) <==> c.types[a] == ty)
              && (Operand(c, live, a).value == IntScalar <==> c.types[a] == I64Ty)
              && (Operand(c, live, a).value == UnitScalar <==> c.types[a] == UnitTy)
              && (Operand(c, live, a).value == BoolScalar <==> c.types[a] == BoolTy)
  {
    OperandGate(c, live, a);
    if Ordinary(c, live, a) {
      ScalarsAreNativeTypes(c.types[a], ty);
    }
  }

  ghost predicate StoreRefused(c: Context, live: Values, slot: ValueId, value: ValueId, mode: OwnershipMode,
                               code: Code)
  {
    if mode == Transfer then code == Code.UnsupportedInstruction
    else if slot !in c.slots then code == UnverifiedNir
    else
      || OperandRefused(c, live, value, code)
      || (code == UnverifiedNir && Ordinary(c, live, value) && !(slot in c.types && c.types[slot] == c.types[value]))
  }

  ghost predicate InstructionRefused(c: Context, live: Values, instruction: Instruction, code: Code) {
    match instruction
    case Value(_, ty, kind) => ValueRefused(c, live, ty, kind, code)
    case Store(slot, value, mode) => StoreRefused(c, live, slot, value, mode, code)
    case UnsupportedInstruction(_) => code == Code.UnsupportedInstruction
  }

  /** An instruction is refused with exactly the code its fields call for. */
  lemma InstructionGate(c: Context, live: Values, instruction: Instruction, code: Code)
    ensures CheckInstruction(c, live, instruction) == Some(code) <==> InstructionRefused(c, live, instruction, code)
  {
    match instruction
    case Value(_, ty, kind) => ValueGate(c, live, ty, kind, code);
    case Store(slot, value, _) =>
      OperandGate(c, live, value);
      if Ordinary(c, live, value) && slot in c.types { ScalarsAreNativeTypes(c.types[value], c.types[slot]); }
    case _ =>
  }

  // Terminators.

  ghost predicate TerminatorRefused(c: Context, live: Values, terminator: Terminator, code: Code) {
    match terminator
    case Return(None) => code == UnverifiedNir && c.current.returnType != UnitTy
    case Return(Some(v)) =>
      || OperandRefused(c, live, v, code)
      || (code == UnverifiedNir && Ordinary(c, live, v) && c.types[v] != c.current.returnType)
    case Branch(target) => code == UnverifiedNir && target !in c.blocks
    case CondBranch(condition, thenBlock, elseBlock) =>
      || OperandRefused(c, live, condition, code)
      || (code == UnverifiedNir && Ordinary(c, live, condition)
          && (c.types[condition] != BoolTy || thenBlock !in c.blocks || elseBlock !in c.blocks))
    case _ => code == Code.UnsupportedTerminator
  }

  lemma TerminatorGate(c: Context, live: Values, terminator: Terminator, code: Code)
    ensures CheckTerminator(c, live, terminator) == Some(code) <==> TerminatorRefused(c, live, terminator, code)
  {
    match terminator
    case Return(None) => ScalarsAreNativeTypes(c.current.returnType, UnitTy);
    case Return(Some(v)) =>
      OperandGate(c, live, v);
      if Ordinary(c, live, v) { ScalarsAreNativeTypes(c.types[v], c.current.returnType); }
    case CondBranch(condition, _, _) => UnaryGate(c, live, BoolTy, condition);
    case _ =>
  }

  // Signatures.

  predicate ParameterIsNative(param: Param) {
    !param.take && IsNative(param.ty)
  }

  /** Position `k` is the first parameter with no native form: one that takes, or one of a foreign type. */
  ghost predicate FirstParameterRefused(params: seq<Param>, k: int, code: Code) {
    && 0 <= k < |params| && !ParameterIsNative(params[k])
    && code == (if params[k].take then Code.UnsupportedInstruction else UnsupportedType)
    && forall j :: 0 <= j < k ==> ParameterIsNative(params[j])
  }

  lemma {:induction false} ParametersGate(params: seq<Param>, code: Code)
    ensures CheckParameters(params) == Some(code) <==> exists k :: FirstParameterRefused(params, k, code)
  {
    if params != [] {
      ScalarsAreNativeTypes(params[0].ty, params[0].ty);
      ParametersGate(params[1..], code);
      if ParameterIsNative(params[0]) {
        if k :| FirstParameterRefused(params, k, code) {
          assert FirstParameterRefused(params[1..], k - 1, code);
        }
        if k :| FirstParameterRefused(params[1..], k, code) {
          assert params[1..][k] == params[k + 1];
          assert forall j :: 1 <= j < k + 1 ==> params[j] == params[1..][j - 1];
          assert FirstParameterRefused(params, k + 1, code);
        }
      } else if CheckParameters(params) == Some(code) {
        assert FirstParameterRefused(params, 0, code);
      }
    }
  }

  lemma ParametersAccepted(params: seq<Param>)
    ensures CheckParameters(params) == None <==> forall j :: 0 <= j < |params| ==> ParameterIsNative(params[j])
  {
    forall j | 0 <= j < |params|
      ensures ParameterIsNative(params[j]) <==> !params[j].take && ScalarOf(params[j].ty).Some?
    {
      ScalarsAreNativeTypes(params[j].ty, params[j].ty);
    }
  }

  predicate AllParametersNative(f: Function) {
    forall j :: 0 <= j < |f.params| ==> ParameterIsNative(f.params[j])
  }

  /** The first reason, in the order of the checks, that a declaration has no native form. */
  ghost predicate SignatureRefused(f: Function, isEntry: bool, code: Code) {
    if f.typeParams != 0 then code == GenericCode
    else if f.requirements != 0 then code == CapabilityDispatch
    else if f.raises != 0 then code == FallibleFunction
    else if isEntry && |f.params| > 0 then code == EntryParameters
    else if isEntry && f.returnType != I64Ty && f.returnType != UnitTy then code == EntryReturnType
    else
      || (exists k :: FirstParameterRefused(f.params, k, code))
      || (code == UnsupportedType && AllParametersNative(f) && !IsNative(f.returnType))
  }

  /** A declaration that has a native form. */
  predicate NativeSignature(f: Function, isEntry: bool) {
    && f.typeParams == 0 && f.requirements == 0 && f.raises == 0
    && AllParametersNative(f) && IsNative(f.returnType)
    && (isEntry ==> f.params == [] && f.returnType != BoolTy)
  }

  lemma SignatureGate(f: Function, isEntry: bool, code: Code)
    ensures CheckSignature(f, isEntry) == Some(code) <==> SignatureRefused(f, isEntry, code)
    ensures CheckSignature(f, isEntry) == None <==> NativeSignature(f, isEntry)
  {
    ScalarsAreNativeTypes(f.returnType, f.returnType);
    ParametersGate(f.params, code);
    ParametersAccepted(f.params);
  }

  /** A function recorded as coming from another source than the one being built. */
  predicate ForeignOrigin(build: Build, id: ItemId) {
    id in build.origins && build.origins[id] != build.source
  }

  lemma OriginGate(build: Build, id: ItemId)
    ensures OriginOk(build, id) <==> !ForeignOrigin(build, id)
  {
  }
}
