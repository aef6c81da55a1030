/** Exactly when an instruction or a terminator has no code, and what is reported then. */
module LoweringRules {
  import opened Wrappers
  import opened Nir
  import opened TargetIr
  import opened Lowering

  /** `v` has not been lowered yet. */
  predicate Late(natives: Natives, v: ValueId, error: LoweringError) {
    v !in natives && error == UsedBeforeLowered(v)
  }

  predicate NotInteger(natives: Natives, v: ValueId, error: LoweringError) {
    Late(natives, v, error) || (v in natives && !natives[v].NativeInt? && error == NotAnI64(v))
  }

  /** The first of two operands that is no integer. */
  predicate NotIntegers(natives: Natives, a: ValueId, b: ValueId, error: LoweringError) {
    NotInteger(natives, a, error) || (a in natives && natives[a].NativeInt? && NotInteger(natives, b, error))
  }

  predicate EitherLate(natives: Natives, a: ValueId, b: ValueId, error: LoweringError) {
    Late(natives, a, error) || (a in natives && Late(natives, b, error))
  }

  predicate BothIntegers(natives: Natives, a: ValueId, b: ValueId) {
    a in natives && b in natives && natives[a].NativeInt? && natives[b].NativeInt?
  }

  predicate BothBooleans(natives: Natives, a: ValueId, b: ValueId) {
    a in natives && b in natives && natives[a].NativeBool? && natives[b].NativeBool?
  }

  predicate BothUnits(natives: Natives, a: ValueId, b: ValueId) {
    a in natives && b in natives && natives[a].NativeUnit? && natives[b].NativeUnit?
  }

  predicate BinaryHasNoCode(natives: Natives, op: BinaryOp, a: ValueId, b: ValueId, error: LoweringError) {
    if op == Div || op == Rem || op == Shl || op == Shr then error == UnsupportedByBackend
    else if op == Add || op == Sub || op == Mul || op == BitAnd || op == BitOr || op == BitXor then
      NotIntegers(natives, a, b, error)
    else
      || EitherLate(natives, a, b, error)
      || (error == NotComparable(a, b) && a in natives && b in natives
          && !BothIntegers(natives, a, b) && !BothBooleans(natives, a, b)
          && !((op == Eq || op == Ne) && BothUnits(natives, a, b)))
  }

  predicate ConstantHasNoCode(value: Const, error: LoweringError) {
    || (value.OtherConst? && error == UnsupportedByBackend)
    || (value.IntConst? && error == NotAnInteger(value.literal)
        && !(-0x8000_0000_0000_0000 <= value.literal <= 0x7fff_ffff_ffff_ffff))
  }

  /** Position `k` holds the first argument that cannot be passed. */
  predicate FirstUnpassable(natives: Natives, args: seq<ValueId>, k: int, error: LoweringError) {
    && 0 <= k < |args|
    && (Late(natives, args[k], error)
        || (args[k] in natives && natives[args[k]].NativeSlot? && error == SlotAsArgument(args[k])))
    && forall j :: 0 <= j < k ==> args[j] in natives && !natives[args[j]].NativeSlot?
  }

  predicate Passable(natives: Natives, args: seq<ValueId>) {
    forall j :: 0 <= j < |args| ==> args[j] in natives && !natives[args[j]].NativeSlot?
  }

  ghost predicate CallHasNoCode(natives: Natives, targets: Functions, callee: ItemId, args: seq<ValueId>,
                                error: LoweringError)
  {
    if callee !in targets then error == AbsentCallee(callee)
    else
      || (exists k :: FirstUnpassable(natives, args, k, error))
      || (Passable(natives, args) && targets[callee].returnType.OtherTy? && error == UnsupportedByBackend)
  }

  /** A value that has no code, and the error its lowering reports. */
  ghost predicate ValueHasNoCode(natives: Natives, targets: Functions, ty: Ty, kind: ValueKind, error: LoweringError) {
    if ty.OtherTy? then error == UnsupportedByBackend
    else match kind
         case Alloc => false
         case Constant(value) => ConstantHasNoCode(value, error)
         case Load(slot) =>
           Late(natives, slot, error) || (slot in natives && !natives[slot].NativeSlot? && error == NotASlot(slot))
         case Binary(op, a, b) => BinaryHasNoCode(natives, op, a, b, error)
         case Neg(a) => NotInteger(natives, a, error)
         case Not(a) =>
           Late(natives, a, error)
           || (a in natives && (natives[a].NativeUnit? || natives[a].NativeSlot?) && error == CannotInvert(a))
         case Call(callee, _, args, _) => CallHasNoCode(natives, targets, callee, args, error)
         case _ => error == UnsupportedByBackend
  }

  lemma {:induction false} ArgumentsUnlessUnpassable(natives: Natives, args: seq<ValueId>, error: LoweringError)
    ensures ArgumentRegisters(natives, args) == Err(error) <==> exists k :: FirstUnpassable(natives, args, k, error)
    ensures ArgumentRegisters(natives, args).Ok? <==> Passable(natives, args)
  {
    if args != [] {
      var last := |args| - 1;
      ArgumentsUnlessUnpassable(natives, args[..last], error);
      if k :| FirstUnpassable(natives, args, k, error) {
        assert k < last ==> FirstUnpassable(natives, args[..last], k, error);
      }
      if k :| FirstUnpassable(natives, args[..last], k, error) {
        assert FirstUnpassable(natives, args, k, error);
      }
      if Passable(natives, args[..last]) {
        forall j | 0 <= j < last
          ensures args[j] in natives && !natives[args[j]].NativeSlot?
        {
          assert args[..last][j] == args[j];
        }
        assert ArgumentRegisters(natives, args) == Err(error) ==> FirstUnpassable(natives, args, last, error);
      }
    }
  }

  /** A value has no code exactly when the rules say so, and reports exactly what they say. */
  lemma ValueHasCodeUnless(natives: Natives, targets: Functions, result: ValueId, ty: Ty, kind: ValueKind,
                           error: LoweringError)
    ensures ValueCode(natives, targets, result, ty, kind) == Err(error)
            <==> ValueHasNoCode(natives, targets, ty, kind, error)
  {
    if !ty.OtherTy? {
      match kind
      case Binary(op, a, b) => BinaryHasCodeUnless(natives, op, result, a, b, error);
      case Call(callee, _, args, _) => ArgumentsUnlessUnpassable(natives, args, error);
      case _ =>
    }
  }

  lemma IntegersHaveCodeUnless(natives: Natives, op: BinaryOp, result: ValueId, a: ValueId, b: ValueId,
                               error: LoweringError)
    requires op in {Add, Sub, Mul, BitAnd, BitOr, BitXor}
    ensures BinaryCode(natives, op, result, a, b) == Err(error) <==> NotIntegers(natives, a, b, error)
  {
  }

  lemma ComparesUnless(natives: Natives, cc: IntCC, unitAnswer: bool, result: ValueId, a: ValueId, b: ValueId,
                       error: LoweringError)
    ensures CompareCode(natives, cc, unitAnswer, result, a, b) == Err(error)
            <==> EitherLate(natives, a, b, error)
                 || (error == NotComparable(a, b) && a in natives && b in natives && !BothIntegers(natives, a, b)
                     && !BothBooleans(natives, a, b) && !BothUnits(natives, a, b))
  {
  }

  lemma OrdersUnless(natives: Natives, signed: IntCC, unsigned: IntCC, result: ValueId, a: ValueId, b: ValueId,
                     error: LoweringError)
    ensures OrderedCode(natives, signed, unsigned, result, a, b) == Err(error)
            <==> EitherLate(natives, a, b, error)
                 || (error == NotComparable(a, b) && a in natives && b in natives && !BothIntegers(natives, a, b)
                     && !BothBooleans(natives, a, b))
  {
  }

  lemma BinaryHasCodeUnless(natives: Natives, op: BinaryOp, result: ValueId, a: ValueId, b: ValueId,
                            error: LoweringError)
    ensures BinaryCode(natives, op, result, a, b) == Err(error) <==> BinaryHasNoCode(natives, op, a, b, error)
  {
    match op
    case Eq => ComparesUnless(natives, Equal, true, result, a, b, error);
    case Ne => ComparesUnless(natives, NotEqual, false, result, a, b, error);
    case Lt => OrdersUnless(natives, SignedLess, UnsignedLess, result, a, b, error);
    case Le => OrdersUnless(natives, SignedLessOrEqual, UnsignedLessOrEqual, result, a, b, error);
    case Gt => OrdersUnless(natives, SignedGreater, UnsignedGreater, result, a, b, error);
    case Ge => OrdersUnless(natives, SignedGreaterOrEqual, UnsignedGreaterOrEqual, result, a, b, error);
    case Div =>
    case Rem =>
    case Shl =>
    case Shr =>
    case _ => IntegersHaveCodeUnless(natives, op, result, a, b, error);
  }

  /** The slot can hold the value: both are `unit`, or both are held in the same kind of word. */
  predicate CanHold(target: Native, stored: Native) {
    target.NativeSlot?
    && ((target.variable.None? && target.scalar.UnitScalar? && stored.NativeUnit?)
        || (target.variable.Some? && target.scalar.IntScalar? && stored.NativeInt?)
        || (target.variable.Some? && target.scalar.BoolScalar? && stored.NativeBool?))
  }

  predicate StoreHasNoCode(natives: Natives, slot: ValueId, value: ValueId, error: LoweringError) {
    || EitherLate(natives, slot, value, error)
    || (slot in natives && value in natives && !CanHold(natives[slot], natives[value])
        && error == if natives[slot].NativeSlot? then CannotHold(slot) else NotASlot(slot))
  }

  lemma StoreHasCodeUnless(natives: Natives, slot: ValueId, value: ValueId, error: LoweringError)
    ensures StoreCode(natives, slot, value) == Err(error) <==> StoreHasNoCode(natives, slot, value, error)
  {
  }

  predicate ExitHasNoCode(natives: Natives, blocks: set<BlockId>, terminator: Terminator, error: LoweringError) {
    match terminator
    case Return(None) => false
    case Return(Some(v)) =>
      Late(natives, v, error) || (v in natives && natives[v].NativeSlot? && error == SlotAsArgument(v))
    case Branch(target) => target !in blocks && error == BlockNeverCreated(target)
    case CondBranch(condition, yes, no) =>
      || Late(natives, condition, error)
      || (condition in natives
          && if !natives[condition].NativeBool? then error == NotABool(condition)
             else if yes !in blocks then error == BlockNeverCreated(yes)
             else no !in blocks && error == BlockNeverCreated(no))
    case _ => error == UnsupportedByBackend
  }

  lemma ExitHasCodeUnless(natives: Natives, blocks: set<BlockId>, terminator: Terminator, error: LoweringError)
    ensures ExitCode(natives, blocks, terminator) == Err(error) <==> ExitHasNoCode(natives, blocks, terminator, error)
  {
  }

  /** A function has a signature exactly when its parameters and its result are of native types. */
  lemma {:induction false} ParametersHaveTypesUnless(params: seq<Param>)
    ensures ParameterTypes(params).Ok? <==> forall i :: 0 <= i < |params| ==> !params[i].ty.OtherTy?
    ensures ParameterTypes(params).Ok? || ParameterTypes(params) == Err(UnsupportedByBackend)
  {
    if params != [] {
      ParametersHaveTypesUnless(params[..|params| - 1]);
    }
  }

  lemma SignatureUnless(f: Function)
    ensures SignatureOf(f).Ok? <==> (forall i :: 0 <= i < |f.params| ==> !f.params[i].ty.OtherTy?)
                                    && !f.returnType.OtherTy?
    ensures SignatureOf(f).Ok? || SignatureOf(f) == Err(UnsupportedByBackend)
  {
    ParametersHaveTypesUnless(f.params);
  }
}
