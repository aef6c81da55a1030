/** The checks refuse nothing the interpreter could do with operands of the checked types, and nothing it could not. */
module Exactness {
  import opened Wrappers
  import opened Numeric
  import opened Nir
  import opened Dataflow
  import opened Capability
  import opened Gates
  import opened NirSemantics
  import opened InterpreterRules

  function DefaultOf(ty: Ty): (d: Datum)
    ensures IsNative(ty) ==> forall other :: IsOf(d, other) <==> other == ty
  {
    match ty
    case I64Ty => IntDatum(0)
    case BoolTy => BoolDatum(false)
    case _ => UnitDatum
  }

  ghost predicate TypedAs(c: Context, values: Environment, v: ValueId) {
    v in values && v in c.types && IsOf(values[v], c.types[v])
  }

  /** The evaluation went through: it overflowed, or computed a datum of the declared type. */
  predicate GoesThrough(e: Evaluation, ty: Ty) {
    e.Overflow? || (e.Computed? && IsOf(e.datum, ty))
  }

  lemma BinaryGoesThrough(op: BinaryOp, x: Datum, y: Datum, left: Ty, right: Ty, ty: Ty)
    requires IsOf(x, left) && IsOf(y, right) && IsNative(ty)
    ensures GoesThrough(EvaluateBinary(op, x, y), ty) ==>
              op != Div && op != Rem && op != Shl && op != Shr && left == right
    ensures op in {Add, Sub, Mul} && GoesThrough(EvaluateBinary(op, x, y), ty) ==> left == I64Ty
    ensures op in {BitAnd, BitOr, BitXor} && GoesThrough(EvaluateBinary(op, x, y), ty) ==> left == I64Ty && ty == I64Ty
    ensures op in {Eq, Ne, Lt, Le, Gt, Ge} && GoesThrough(EvaluateBinary(op, x, y), ty) ==> ty == BoolTy
    ensures op in {Lt, Le, Gt, Ge} && GoesThrough(EvaluateBinary(op, x, y), ty) ==> left != UnitTy
    ensures left == right && left == I64Ty && ty == I64Ty && op in {Add, Sub, Mul, BitAnd, BitOr, BitXor} ==>
              GoesThrough(EvaluateBinary(op, x, y), ty)
    ensures left == right && ty == BoolTy && (op in {Eq, Ne} || (op in {Lt, Le, Gt, Ge} && left != UnitTy)) ==>
              GoesThrough(EvaluateBinary(op, x, y), ty)
  {
  }

  /** A binary operation on ordinary operands is accepted exactly when it goes through on all data of their types. */
  lemma BinaryGateIsExact(c: Context, live: Values, ty: Ty, op: BinaryOp, a: ValueId, b: ValueId)
    requires IsNative(ty) && Ordinary(c, live, a) && Ordinary(c, live, b)
    ensures CheckValue(c, live, ty, Binary(op, a, b)) == None
            <==> forall values :: TypedAs(c, values, a) && TypedAs(c, values, b) ==>
                   GoesThrough(Evaluate(values, Binary(op, a, b)), ty)
  {
    BinaryAccepted(c, live, ty, op, a, b);
    forall values | TypedAs(c, values, a) && TypedAs(c, values, b)
      ensures CheckValue(c, live, ty, Binary(op, a, b)) == None ==> GoesThrough(Evaluate(values, Binary(op, a, b)), ty)
    {
      BinaryGoesThrough(op, values[a], values[b], c.types[a], c.types[b], ty);
    }
    var defaults: Environment := map[a := DefaultOf(c.types[a]), b := DefaultOf(c.types[b])];
    assert TypedAs(c, defaults, a) && TypedAs(c, defaults, b);
    BinaryGoesThrough(op, defaults[a], defaults[b], c.types[a], c.types[b], ty);
    ArithmeticOfDefaults(op, ty);
  }

  lemma ArithmeticOfDefaults(op: BinaryOp, ty: Ty)
    ensures op in {Add, Sub, Mul} && GoesThrough(EvaluateBinary(op, IntDatum(0), IntDatum(0)), ty) ==> ty == I64Ty
  {
  }

  lemma BinaryAccepted(c: Context, live: Values, ty: Ty, op: BinaryOp, a: ValueId, b: ValueId)
    requires IsNative(ty) && Ordinary(c, live, a) && Ordinary(c, live, b)
    ensures CheckValue(c, live, ty, Binary(op, a, b)) == None
            <==> c.types[a] == c.types[b]
                 && if op in {Add, Sub, Mul, BitAnd, BitOr, BitXor} then c.types[a] == I64Ty && ty == I64Ty
                    else ty == BoolTy && (op in {Eq, Ne} || (op in {Lt, Le, Gt, Ge} && c.types[a] != UnitTy))
  {
    ValueGate(c, live, ty, Binary(op, a, b), UnverifiedNir);
    ValueGate(c, live, ty, Binary(op, a, b), UnsupportedOperator);
    forall code
      ensures CheckValue(c, live, ty, Binary(op, a, b)) == Some(code) ==> code in {UnverifiedNir, UnsupportedOperator}
    {
      ValueGate(c, live, ty, Binary(op, a, b), code);
    }
  }

  lemma NegGateIsExact(c: Context, live: Values, ty: Ty, a: ValueId)
    requires IsNative(ty) && Ordinary(c, live, a)
    ensures CheckValue(c, live, ty, Neg(a)) == None
            <==> forall values :: TypedAs(c, values, a) ==> GoesThrough(Evaluate(values, Neg(a)), ty)
  {
    UnaryGate(c, live, ty, a);
    ScalarsAreNativeTypes(ty, ty);
    assert TypedAs(c, map[a := DefaultOf(c.types[a])], a);
  }

  lemma NotGateIsExact(c: Context, live: Values, ty: Ty, a: ValueId)
    requires IsNative(ty) && Ordinary(c, live, a)
    ensures CheckValue(c, live, ty, Not(a)) == None
            <==> forall values :: TypedAs(c, values, a) ==> GoesThrough(Evaluate(values, Not(a)), ty)
  {
    UnaryGate(c, live, ty, a);
    ScalarsAreNativeTypes(ty, ty);
    assert TypedAs(c, map[a := DefaultOf(c.types[a])], a);
  }

  /** A constant of the executed domain is accepted exactly when it is a datum of its declared type. */
  lemma ConstantGateIsExact(c: Context, live: Values, ty: Ty, value: Const)
    requires IsNative(ty) && (value.IntConst? ==> InI64(value.literal))
    ensures CheckValue(c, live, ty, Constant(value)) == None
            <==> GoesThrough(Evaluate(map[], Constant(value)), ty)
  {
    ScalarsAreNativeTypes(ty, ty);
  }

  /** A call of ordinary arguments is accepted exactly when it is plain, its result is what is declared, and the
      callee can be entered with any data of the arguments' types. */
  lemma CallGateIsExact(c: Context, live: Values, ty: Ty, callee: ItemId, typeArgs: seq<Ty>, args: seq<ValueId>,
                        evidence: nat)
    requires IsNative(ty) && forall i :: 0 <= i < |args| ==> Ordinary(c, live, args[i])
    ensures CheckValue(c, live, ty, Call(callee, typeArgs, args, evidence)) == None
            <==> && typeArgs == [] && evidence == 0
                 && callee in c.functions && c.functions[callee].returnType == ty
                 && forall values :: (forall i :: 0 <= i < |args| ==> TypedAs(c, values, args[i])) ==>
                      CanEnter(c.functions, 1, 0, values, callee, args)
  {
    CallAccepted(c, live, ty, callee, typeArgs, args, evidence);
    if callee in c.functions && |args| == |c.functions[callee].params| {
      DefaultsEnter(c, live, args, callee);
    } else {
      var defaults := map v | v in c.types :: DefaultOf(c.types[v]);
      assert !CanEnter(c.functions, 1, 0, defaults, callee, args);
      assert forall i :: 0 <= i < |args| ==> TypedAs(c, defaults, args[i]);
    }
  }

  lemma CallAccepted(c: Context, live: Values, ty: Ty, callee: ItemId, typeArgs: seq<Ty>, args: seq<ValueId>,
                     evidence: nat)
    requires IsNative(ty) && forall i :: 0 <= i < |args| ==> Ordinary(c, live, args[i])
    ensures CheckValue(c, live, ty, Call(callee, typeArgs, args, evidence)) == None
            <==> && typeArgs == [] && evidence == 0
                 && callee in c.functions && |args| == |c.functions[callee].params|
                 && c.functions[callee].returnType == ty
                 && forall i :: 0 <= i < |args| ==> ArgumentMatches(c, live, args[i], c.functions[callee].params[i].ty)
  {
    ScalarsAreNativeTypes(ty, ty);
    if callee in c.functions && |args| == |c.functions[callee].params| {
      ScalarsAreNativeTypes(ty, c.functions[callee].returnType);
      forall i | 0 <= i < |args|
        ensures ArgumentFits(c, live, args[i], c.functions[callee].params[i])
                <==> ArgumentMatches(c, live, args[i], c.functions[callee].params[i].ty)
      {
        ArgumentGate(c, live, args[i], c.functions[callee].params[i]);
      }
    }
  }

  lemma DefaultsEnter(c: Context, live: Values, args: seq<ValueId>, callee: ItemId)
    requires callee in c.functions && |args| == |c.functions[callee].params|
    requires forall i :: 0 <= i < |args| ==> Ordinary(c, live, args[i])
    ensures (forall i :: 0 <= i < |args| ==> ArgumentMatches(c, live, args[i], c.functions[callee].params[i].ty))
            <==> forall values :: (forall i :: 0 <= i < |args| ==> TypedAs(c, values, args[i])) ==>
                   CanEnter(c.functions, 1, 0, values, callee, args)
  {
    var defaults: Environment := map v | v in c.types :: DefaultOf(c.types[v]);
    assert forall i :: 0 <= i < |args| ==> TypedAs(c, defaults, args[i]);
    if CanEnter(c.functions, 1, 0, defaults, callee, args) {
      forall i | 0 <= i < |args|
        ensures ArgumentMatches(c, live, args[i], c.functions[callee].params[i].ty)
      {
        assert Ordinary(c, live, args[i]);
        assert IsOf(defaults[args[i]], c.functions[callee].params[i].ty);
      }
    }
  }

  /** Returning an ordinary value is accepted exactly when all its data are of the declared result type. */
  lemma ReturnGateIsExact(c: Context, live: Values, v: ValueId)
    requires Ordinary(c, live, v)
    ensures CheckTerminator(c, live, Return(Some(v))) == None
            <==> forall values :: TypedAs(c, values, v) ==> IsOf(values[v], c.current.returnType)
  {
    OperandGate(c, live, v);
    ScalarsAreNativeTypes(c.types[v], c.current.returnType);
    assert TypedAs(c, map[v := DefaultOf(c.types[v])], v);
  }

  /** Branching on an ordinary value is accepted exactly when it is always a boolean and both targets are declared. */
  lemma BranchGateIsExact(c: Context, live: Values, v: ValueId, yes: BlockId, no: BlockId)
    requires Ordinary(c, live, v)
    ensures CheckTerminator(c, live, CondBranch(v, yes, no)) == None
            <==> yes in c.blocks && no in c.blocks
                 && forall values: Environment :: TypedAs(c, values, v) ==> values[v].BoolDatum?
  {
    UnaryGate(c, live, BoolTy, v);
    assert TypedAs(c, map[v := DefaultOf(c.types[v])], v);
  }
}
