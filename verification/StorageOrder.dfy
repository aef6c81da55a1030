/** Neither the verdict nor the refusals nor the plan nor the order of emission depends on how a module is stored. */
module StorageOrder {
  import opened Nir
  import opened Graphs
  import opened Ordered
  import opened Dataflow
  import opened Postorder
  import opened Capability
  import opened Gates
  import opened Refusals

  /** The same function, its blocks stored in another order. */
  ghost predicate SameBlocks(f: Function, g: Function) {
    g == f.(blocks := g.blocks) && multiset(f.blocks) == multiset(g.blocks)
  }

  /** The same module, its functions and the blocks of each stored in another order. */
  ghost predicate SameStored(m: Module, n: Module) {
    exists middle :: BlocksReordered(m.functions, middle) && multiset(middle) == multiset(n.functions)
  }

  ghost predicate BlocksReordered(a: seq<Function>, b: seq<Function>) {
    |a| == |b| && forall i {:trigger b[i]} :: 0 <= i < |a| ==> SameBlocks(a[i], b[i])
  }

  // Keyed by id, stored order disappears.

  lemma {:induction false} OnceEach(blocks: seq<BasicBlock>, b: BasicBlock)
    requires DistinctBlockIds(blocks)
    ensures multiset(blocks)[b] <= 1
  {
    if blocks != [] {
      assert blocks == [blocks[0]] + blocks[1..];
      OnceEach(blocks[1..], b);
      if b == blocks[0] {
        assert forall i :: 0 <= i < |blocks[1..]| ==> blocks[1..][i] == blocks[i + 1];
        assert b !in blocks[1..];
      }
    }
  }

  lemma TwiceThere(blocks: seq<BasicBlock>, i: nat, j: nat)
    requires i < j < |blocks| && blocks[i] == blocks[j]
    ensures multiset(blocks)[blocks[i]] >= 2
  {
    assert blocks == blocks[..j] + blocks[j..];
    assert blocks[i] in blocks[..j] by { assert blocks[..j][i] == blocks[i]; }
    assert blocks[i] in blocks[j..] by { assert blocks[j..][0] == blocks[j]; }
  }

  lemma DistinctBlocksKept(a: seq<BasicBlock>, b: seq<BasicBlock>)
    requires multiset(a) == multiset(b) && DistinctBlockIds(a)
    ensures DistinctBlockIds(b)
  {
    forall i, j | 0 <= i < j < |b|
      ensures b[i].id != b[j].id
    {
      assert b[i] in multiset(b) && b[j] in multiset(b);
      assert b[i] in a && b[j] in a;
      if b[i] == b[j] {
        TwiceThere(b, i, j);
        OnceEach(a, b[i]);
      }
    }
  }

  lemma SameBlockMap(a: seq<BasicBlock>, b: seq<BasicBlock>)
    requires multiset(a) == multiset(b) && DistinctBlockIds(a)
    ensures BlockMap(a) == BlockMap(b)
  {
    assert forall x :: x in a <==> x in multiset(a);
    assert forall x :: x in b <==> x in multiset(b);
    forall id
      ensures id in BlockMap(a) <==> id in BlockMap(b)
      ensures id in BlockMap(a) && id in BlockMap(b) ==> BlockMap(a)[id] == BlockMap(b)[id]
    {
      BlockMapHolds(a, id);
      BlockMapHolds(b, id);
    }
  }

  lemma KeyedAlike(f: Function, g: Function)
    requires SameBlocks(f, g)
    ensures BlocksKeyed(f) <==> BlocksKeyed(g)
    ensures BlocksKeyed(f) ==> BlockMap(f.blocks) == BlockMap(g.blocks)
  {
    if DistinctBlockIds(f.blocks) {
      DistinctBlocksKept(f.blocks, g.blocks);
      SameBlockMap(f.blocks, g.blocks);
    }
    if DistinctBlockIds(g.blocks) {
      DistinctBlocksKept(g.blocks, f.blocks);
    }
  }

  lemma {:induction false} FunctionOnceEach(functions: seq<Function>, f: Function)
    requires DistinctFunctionIds(functions)
    ensures multiset(functions)[f] <= 1
  {
    if functions != [] {
      assert functions == [functions[0]] + functions[1..];
      FunctionOnceEach(functions[1..], f);
      if f == functions[0] {
        assert forall i :: 0 <= i < |functions[1..]| ==> functions[1..][i] == functions[i + 1];
        assert f !in functions[1..];
      }
    }
  }

  lemma FunctionTwiceThere(functions: seq<Function>, i: nat, j: nat)
    requires i < j < |functions| && functions[i] == functions[j]
    ensures multiset(functions)[functions[i]] >= 2
  {
    assert functions == functions[..j] + functions[j..];
    assert functions[i] in functions[..j] by { assert functions[..j][i] == functions[i]; }
    assert functions[i] in functions[j..] by { assert functions[j..][0] == functions[j]; }
  }

  lemma DistinctFunctionsKept(a: seq<Function>, b: seq<Function>)
    requires multiset(a) == multiset(b) && DistinctFunctionIds(a)
    ensures DistinctFunctionIds(b)
  {
    forall i, j | 0 <= i < j < |b|
      ensures b[i].id != b[j].id
    {
      assert b[i] in multiset(b) && b[j] in multiset(b);
      assert b[i] in a && b[j] in a;
      if b[i] == b[j] {
        FunctionTwiceThere(b, i, j);
        FunctionOnceEach(a, b[i]);
      }
    }
  }

  lemma SameFunctionMap(a: seq<Function>, b: seq<Function>)
    requires multiset(a) == multiset(b) && DistinctFunctionIds(a)
    ensures FunctionMap(a) == FunctionMap(b)
  {
    assert forall x :: x in a <==> x in multiset(a);
    assert forall x :: x in b <==> x in multiset(b);
    forall id
      ensures id in FunctionMap(a) <==> id in FunctionMap(b)
      ensures id in FunctionMap(a) && id in FunctionMap(b) ==> FunctionMap(a)[id] == FunctionMap(b)[id]
    {
      FunctionMapHolds(a, id);
      FunctionMapHolds(b, id);
    }
  }

  /** The same ids, each with the same function up to the order of its blocks. */
  ghost predicate SameFunctions(a: Functions, b: Functions) {
    a.Keys == b.Keys && forall id {:trigger b[id]} :: id in a ==> SameBlocks(a[id], b[id])
  }

  lemma {:induction false} ReorderedMap(a: seq<Function>, b: seq<Function>)
    requires BlocksReordered(a, b)
    ensures SameFunctions(FunctionMap(a), FunctionMap(b))
  {
    if a != [] {
      assert b[0] == b[0] && SameBlocks(a[0], b[0]);
      forall i | 0 <= i < |a[1..]|
        ensures SameBlocks(a[1..][i], b[1..][i])
      {
        assert b[1..][i] == b[i + 1];
      }
      ReorderedMap(a[1..], b[1..]);
    }
  }

  lemma DistinctWhenReordered(a: seq<Function>, b: seq<Function>)
    requires BlocksReordered(a, b)
    ensures DistinctFunctionIds(a) <==> DistinctFunctionIds(b)
  {
    assert forall i :: 0 <= i < |a| ==> a[i].id == b[i].id by {
      forall i | 0 <= i < |a|
        ensures a[i].id == b[i].id
      {
        assert SameBlocks(a[i], b[i]);
      }
    }
  }

  lemma StoredAlike(m: Module, n: Module)
    requires SameStored(m, n)
    ensures DistinctFunctionIds(m.functions) <==> DistinctFunctionIds(n.functions)
    ensures DistinctFunctionIds(m.functions) ==> SameFunctions(FunctionMap(m.functions), FunctionMap(n.functions))
  {
    var middle :| BlocksReordered(m.functions, middle) && multiset(middle) == multiset(n.functions);
    DistinctWhenReordered(m.functions, middle);
    if DistinctFunctionIds(middle) {
      DistinctFunctionsKept(middle, n.functions);
      SameFunctionMap(middle, n.functions);
      ReorderedMap(m.functions, middle);
    }
    if DistinctFunctionIds(n.functions) {
      DistinctFunctionsKept(n.functions, middle);
    }
  }

  // The checks see the same program.

  lemma CalleesAlike(f: Function, g: Function)
    requires SameBlocks(f, g)
    ensures CalleesOf(f) == CalleesOf(g)
  {
    KeyedAlike(f, g);
  }

  lemma GraphAlike(a: Functions, b: Functions)
    requires SameFunctions(a, b)
    ensures CallGraph(a) == CallGraph(b)
  {
    forall id | id in a
      ensures CalleesOf(a[id]) == CalleesOf(b[id])
    {
      CalleesAlike(a[id], b[id]);
    }
  }

  /** The same facts, consulted about the reordered program. */
  function Reordered(c: Context, functions: Functions, g: Function): Context {
    c.(functions := functions, current := g)
  }

  lemma {:induction false} ArgumentsAlike(c: Context, functions: Functions, g: Function, live: Values,
                                          args: seq<ValueId>,
                                          params: seq<Param>)
    requires |args| == |params|
    ensures CheckArguments(c, live, args, params) == CheckArguments(Reordered(c, functions, g), live, args, params)
  {
    if args != [] {
      ArgumentsAlike(c, functions, g, live, args[1..], params[1..]);
    }
  }

  lemma InstructionAlike(c: Context, functions: Functions, g: Function, live: Values, instruction: Instruction)
    requires SameFunctions(c.functions, functions) && SameBlocks(c.current, g)
    ensures CheckInstruction(c, live, instruction) == CheckInstruction(Reordered(c, functions, g), live, instruction)
  {
    match instruction
    case Value(_, _, Call(callee, _, args, _)) =>
      if callee in functions {
        assert SameBlocks(c.functions[callee], functions[callee]);
        if |args| == |functions[callee].params| {
          ArgumentsAlike(c, functions, g, live, args, functions[callee].params);
        }
      }
    case _ =>
  }

  lemma BlockAlike(c: Context, functions: Functions, g: Function, b: BlockId)
    requires SameFunctions(c.functions, functions) && SameBlocks(c.current, g)
    requires b in c.blocks && BlockOk(c, b)
    ensures BlockOk(Reordered(c, functions, g), b)
  {
    var d := Reordered(c, functions, g);
    forall i | 0 <= i < |c.blocks[b].instructions|
      ensures InstructionOk(d, b, i)
    {
      assert InstructionOk(c, b, i);
      LiveAlike(c, functions, g, b, i);
      InstructionAlike(c, functions, g, LiveAt(c, b, i), c.blocks[b].instructions[i]);
    }
    LiveAlike(c, functions, g, b, |c.blocks[b].instructions|);
  }

  lemma LiveAlike(c: Context, functions: Functions, g: Function, b: BlockId, i: nat)
    requires SameBlocks(c.current, g) && b in c.blocks && i <= |c.blocks[b].instructions|
    ensures LiveAt(Reordered(c, functions, g), b, i) == LiveAt(c, b, i)
    ensures StoredAt(Reordered(c, functions, g), b, i) == StoredAt(c, b, i)
  {
  }

  lemma ContextAlike(a: Functions, f: Function, b: Functions, g: Function, c: Context)
    requires SameFunctions(a, b) && SameBlocks(f, g) && BlockMap(f.blocks) == BlockMap(g.blocks)
    requires IsContext(a, f, c) && ContextOk(c)
    ensures IsContext(b, g, Reordered(c, b, g)) && ContextOk(Reordered(c, b, g))
  {
    var d := Reordered(c, b, g);
    forall v, ty
      ensures Declares(g, d.blocks, v, ty) <==> Declares(f, c.blocks, v, ty)
    {
    }
    forall block | BlockReachable(d.blocks, block) && block in d.blocks
      ensures BlockOk(d, block)
    {
      BlockAlike(c, b, g, block);
    }
  }

  lemma BodyAlike(a: Functions, f: Function, b: Functions, g: Function)
    requires SameFunctions(a, b) && SameBlocks(f, g) && BodyOk(a, f)
    ensures BodyOk(b, g)
  {
    KeyedAlike(f, g);
    var c :| IsContext(a, f, c) && ContextOk(c);
    ContextAlike(a, f, b, g, c);
    assert SingleDefinitions(g, BlockMap(g.blocks)) by {
      assert ParameterValues(g) == ParameterValues(f);
    }
  }

  lemma FunctionAlike(a: Functions, b: Functions, build: Build, id: ItemId, isEntry: bool)
    requires SameFunctions(a, b) && FunctionOk(a, build, id, isEntry)
    ensures FunctionOk(b, build, id, isEntry)
  {
    assert SameBlocks(a[id], b[id]);
    BodyAlike(a, a[id], b, b[id]);
  }

  lemma EntryAlike(a: Functions, b: Functions, entry: ItemId)
    requires SameFunctions(a, b)
    ensures SoleEntry(a, entry) <==> SoleEntry(b, entry)
  {
    forall id
      ensures IsEntry(a, id) <==> IsEntry(b, id)
    {
      if id in a { assert SameBlocks(a[id], b[id]); }
    }
  }

  lemma SameIsSymmetric(m: Functions, n: Functions)
    requires SameFunctions(m, n)
    ensures SameFunctions(n, m)
  {
    forall id | id in n
      ensures SameBlocks(n[id], m[id])
    {
      assert SameBlocks(m[id], n[id]);
    }
  }

  // The same refusals, with the same codes, in the same order.

  lemma PassesAlike(c: Context, functions: Functions, g: Function, b: BlockId)
    requires SameFunctions(c.functions, functions) && SameBlocks(c.current, g) && b in c.blocks
    ensures forall i :: Passes(Reordered(c, functions, g), b, i) <==> Passes(c, b, i)
    ensures ChecksPass(Reordered(c, functions, g), b) <==> ChecksPass(c, b)
    ensures LoadsInitialized(Reordered(c, functions, g), b) <==> LoadsInitialized(c, b)
  {
    var d := Reordered(c, functions, g);
    forall i: nat | i <= |c.blocks[b].instructions|
      ensures LiveAt(d, b, i) == LiveAt(c, b, i) && StoredAt(d, b, i) == StoredAt(c, b, i)
      ensures i < |c.blocks[b].instructions| ==>
                CheckInstruction(d, LiveAt(d, b, i), c.blocks[b].instructions[i])
                == CheckInstruction(c, LiveAt(c, b, i), c.blocks[b].instructions[i])
    {
      LiveAlike(c, functions, g, b, i);
      if i < |c.blocks[b].instructions| {
        InstructionAlike(c, functions, g, LiveAt(c, b, i), c.blocks[b].instructions[i]);
      }
    }
    forall i
      ensures Passes(d, b, i) <==> Passes(c, b, i)
    {
    }
  }

  lemma FailsAlike(c: Context, functions: Functions, g: Function, b: BlockId, i: nat, code: Code)
    requires SameFunctions(c.functions, functions) && SameBlocks(c.current, g) && b in c.blocks
    requires FailsFirstAt(c, b, i, code)
    ensures FailsFirstAt(Reordered(c, functions, g), b, i, code)
  {
    var d := Reordered(c, functions, g);
    PassesAlike(c, functions, g, b);
    LiveAlike(c, functions, g, b, i);
    FailureHasItsCode(c, b, i, code);
    FailureHasItsCode(d, b, i, code);
    if i < |c.blocks[b].instructions| {
      InstructionAlike(c, functions, g, LiveAt(c, b, i), c.blocks[b].instructions[i]);
    }
  }

  lemma ContextRefusedAlike(c: Context, functions: Functions, g: Function, code: Code)
    requires SameFunctions(c.functions, functions) && SameBlocks(c.current, g)
    requires ContextRefusedWith(c, code)
    ensures ContextRefusedWith(Reordered(c, functions, g), code)
  {
    var d := Reordered(c, functions, g);
    forall b | b in c.blocks
      ensures ChecksPass(d, b) <==> ChecksPass(c, b)
      ensures LoadsInitialized(d, b) <==> LoadsInitialized(c, b)
    {
      PassesAlike(c, functions, g, b);
    }
    if b :| FailsFirstIn(c, b, code) {
      var i :| FailsFirstAt(c, b, i, code);
      FailsAlike(c, functions, g, b, i, code);
      assert FailsFirstAt(d, b, i, code);
      assert FailsFirstIn(d, b, code);
    }
  }

  lemma SameContext(a: Functions, f: Function, b: Functions, g: Function, c: Context)
    requires SameBlocks(f, g) && BlockMap(f.blocks) == BlockMap(g.blocks) && IsContext(a, f, c)
    ensures IsContext(b, g, Reordered(c, b, g))
  {
    forall v, ty
      ensures Declares(g, c.blocks, v, ty) <==> Declares(f, c.blocks, v, ty)
    {
    }
  }

  lemma DefinitionsAlike(f: Function, g: Function, blocks: Blocks)
    requires SameBlocks(f, g)
    ensures SingleDefinitions(f, blocks) <==> SingleDefinitions(g, blocks)
  {
    assert ParameterValues(g) == ParameterValues(f);
  }

  lemma SomeContextRefused(a: Functions, f: Function, b: Functions, g: Function, code: Code)
    requires SameFunctions(a, b) && SameBlocks(f, g) && BlockMap(f.blocks) == BlockMap(g.blocks)
    requires exists c :: IsContext(a, f, c) && ContextRefusedWith(c, code)
    ensures exists c :: IsContext(b, g, c) && ContextRefusedWith(c, code)
  {
    var c :| IsContext(a, f, c) && ContextRefusedWith(c, code);
    SameContext(a, f, b, g, c);
    ContextRefusedAlike(c, b, g, code);
  }

  lemma BodyRefusedAlike(a: Functions, f: Function, b: Functions, g: Function, code: Code)
    requires SameFunctions(a, b) && SameBlocks(f, g) && BodyRefusedWith(a, f, code)
    ensures BodyRefusedWith(b, g, code)
  {
    KeyedAlike(f, g);
    DefinitionsAlike(f, g, BlockMap(f.blocks));
    if BlocksKeyed(f) && SingleDefinitions(f, BlockMap(f.blocks)) {
      SomeContextRefused(a, f, b, g, code);
    }
  }

  lemma FunctionRefusedAlike(a: Functions, b: Functions, build: Build, id: ItemId, isEntry: bool, code: Code)
    requires SameFunctions(a, b) && FunctionRefusedWith(a, build, id, isEntry, code)
    ensures FunctionRefusedWith(b, build, id, isEntry, code)
  {
    assert SameBlocks(a[id], b[id]);
    SignatureAlike(a[id], b[id], isEntry, code);
    if !ForeignOrigin(build, id) && NativeSignature(a[id], isEntry) {
      BodyRefusedAlike(a, a[id], b, b[id], code);
    }
  }

  lemma SignatureAlike(f: Function, g: Function, isEntry: bool, code: Code)
    requires SameBlocks(f, g)
    ensures NativeSignature(f, isEntry) <==> NativeSignature(g, isEntry)
    ensures SignatureRefused(f, isEntry, code) <==> SignatureRefused(g, isEntry, code)
  {
  }

  lemma UnkeyedAlike(a: Functions, b: Functions, id: ItemId)
    requires SameFunctions(a, b)
    ensures Unkeyed(a, id) <==> Unkeyed(b, id)
  {
    if id in a {
      assert SameBlocks(a[id], b[id]);
      KeyedAlike(a[id], b[id]);
    }
  }

  lemma {:induction false} UnkeyedRefusalsAlike(a: Functions, b: Functions, ids: seq<ItemId>)
    requires SameFunctions(a, b)
    ensures UnkeyedRefusals(a, ids) == UnkeyedRefusals(b, ids)
  {
    if ids != [] {
      UnkeyedAlike(a, b, ids[|ids| - 1]);
      UnkeyedRefusalsAlike(a, b, ids[..|ids| - 1]);
    }
  }

  lemma RefusedAlike(a: Functions, b: Functions, build: Build, entry: ItemId, id: ItemId)
    requires SameFunctions(a, b) && SameFunctions(b, a)
    ensures Refused(a, build, entry, id) <==> Refused(b, build, entry, id)
  {
    UnkeyedAlike(a, b, id);
    if FunctionOk(a, build, id, id == entry) { FunctionAlike(a, b, build, id, id == entry); }
    if FunctionOk(b, build, id, id == entry) { FunctionAlike(b, a, build, id, id == entry); }
  }

  lemma CheckedAlike(a: Functions, b: Functions, build: Build, entry: ItemId, ids: seq<ItemId>, refusals: seq<Refusal>)
    requires SameFunctions(a, b) && SameFunctions(b, a) && AreChecked(a, build, entry, ids, refusals)
    ensures AreChecked(b, build, entry, ids, refusals)
  {
    forall id
      ensures Refused(a, build, entry, id) <==> Refused(b, build, entry, id)
    {
      RefusedAlike(a, b, build, entry, id);
    }
    forall i | 0 <= i < |refusals|
      ensures FunctionRefusedWith(b, build, refusals[i].item, refusals[i].item == entry, refusals[i].code)
    {
      FunctionRefusedAlike(a, b, build, refusals[i].item, refusals[i].item == entry, refusals[i].code);
    }
  }

  lemma FindingsAlike(a: Functions, b: Functions, build: Build, entry: ItemId, f: Findings)
    requires SameFunctions(a, b) && SameFunctions(b, a) && AreFindings(a, build, entry, f)
    ensures AreFindings(b, build, entry, f)
    ensures RefusalsOf(a, build, entry, f) == RefusalsOf(b, build, entry, f)
  {
    GraphAlike(a, b);
    CheckedAlike(a, b, build, entry, CallOrder(a, entry), f.checked);
    UnkeyedRefusalsAlike(a, b, CallOrder(a, entry));
  }

  lemma EntriesAlike(a: Functions, b: Functions, refusal: Refusal)
    requires SameFunctions(a, b) && NoSoleEntry(a, refusal)
    ensures NoSoleEntry(b, refusal)
  {
    forall id
      ensures IsEntry(a, id) <==> IsEntry(b, id)
    {
      if id in a { assert SameBlocks(a[id], b[id]); }
    }
  }

  lemma KeyedRefusalsMove(a: Functions, b: Functions, build: Build, refusals: seq<Refusal>)
    requires SameFunctions(a, b) && SameFunctions(b, a) && AreRefusalsOfKeyed(a, build, refusals)
    ensures AreRefusalsOfKeyed(b, build, refusals)
  {
    if entry, f :| SoleEntry(a, entry) && AreFindings(a, build, entry, f)
                   && refusals == RefusalsOf(a, build, entry, f) {
      EntryAlike(a, b, entry);
      FindingsAlike(a, b, build, entry, f);
    } else {
      var refusal :| NoSoleEntry(a, refusal) && refusals == ImportRefusals(build) + [refusal];
      EntriesAlike(a, b, refusal);
    }
  }

  /** With distinct function ids, storing a module in another order changes no refusal and not their order. */
  lemma RefusalsStay(m: Module, n: Module, build: Build, refusals: seq<Refusal>)
    requires SameStored(m, n) && DistinctFunctionIds(m.functions)
    ensures AreRefusals(m, build, refusals) <==> AreRefusals(n, build, refusals)
  {
    StoredAlike(m, n);
    var a, b := FunctionMap(m.functions), FunctionMap(n.functions);
    SameIsSymmetric(a, b);
    if AreRefusalsOfKeyed(a, build, refusals) { KeyedRefusalsMove(a, b, build, refusals); }
    if AreRefusalsOfKeyed(b, build, refusals) { KeyedRefusalsMove(b, a, build, refusals); }
  }

  lemma SubsetMoves(m: Module, n: Module, build: Build, entry: ItemId)
    requires SameFunctions(FunctionMap(m.functions), FunctionMap(n.functions)) && DistinctFunctionIds(n.functions)
    requires InSubset(m, build, entry)
    ensures InSubset(n, build, entry)
  {
    var a, b := FunctionMap(m.functions), FunctionMap(n.functions);
    GraphAlike(a, b);
    EntryAlike(a, b, entry);
    forall id | Reach(CallGraph(b), entry, id)
      ensures FunctionOk(b, build, id, id == entry)
    {
      FunctionAlike(a, b, build, id, id == entry);
    }
  }

  lemma PlanMoves(m: Module, n: Module, entry: ItemId, plan: NativePlan)
    requires SameFunctions(FunctionMap(m.functions), FunctionMap(n.functions))
    requires IsPlan(m, entry, plan)
    requires forall id :: Reach(CallGraph(FunctionMap(m.functions)), entry, id) && id in FunctionMap(m.functions) ==>
               BlocksKeyed(FunctionMap(m.functions)[id])
    ensures IsPlan(n, entry, plan)
  {
    var a, b := FunctionMap(m.functions), FunctionMap(n.functions);
    GraphAlike(a, b);
    assert SameBlocks(a[entry], b[entry]);
    forall id | id in plan.functions && id in b
      ensures AreReachableBlocks(BlockMap(b[id].blocks), plan.reachableBlocks[id])
    {
      assert SameBlocks(a[id], b[id]);
      KeyedAlike(a[id], b[id]);
    }
  }

  lemma AcceptedAreKeyed(m: Module, build: Build, entry: ItemId)
    requires InSubset(m, build, entry)
    ensures forall id :: Reach(CallGraph(FunctionMap(m.functions)), entry, id) && id in FunctionMap(m.functions) ==>
              BlocksKeyed(FunctionMap(m.functions)[id])
  {
    forall id | Reach(CallGraph(FunctionMap(m.functions)), entry, id) && id in FunctionMap(m.functions)
      ensures BlocksKeyed(FunctionMap(m.functions)[id])
    {
      assert FunctionOk(FunctionMap(m.functions), build, id, id == entry);
    }
  }

  lemma PlannedAreDefined(m: Module, entry: ItemId, plan: NativePlan)
    requires IsPlan(m, entry, plan)
    ensures forall id :: id in plan.functions ==> id in FunctionMap(m.functions)
  {
    forall id | id in plan.functions
      ensures id in FunctionMap(m.functions)
    {
      ReachInGraph(CallGraph(FunctionMap(m.functions)), entry, id);
    }
  }

  /** A program has one plan. */
  lemma PlanIsUnique(m: Module, entry: ItemId, p: NativePlan, q: NativePlan)
    requires IsPlan(m, entry, p) && IsPlan(m, entry, q)
    ensures p == q
  {
    PlannedAreDefined(m, entry, p);
    AscendingUnique(p.functions, q.functions);
    forall id | id in p.reachableBlocks
      ensures p.reachableBlocks[id] == q.reachableBlocks[id]
    {
      AscendingUnique(p.reachableBlocks[id], q.reachableBlocks[id]);
    }
  }

  /** Storing a module in another order changes neither whether it is accepted, nor what it is refused for and in what
      order, nor its plan, nor the order in which the blocks of its functions are emitted. */
  lemma StorageOrderIsIrrelevant(m: Module, n: Module, build: Build, entry: ItemId)
    requires SameStored(m, n)
    ensures InSubset(m, build, entry) <==> InSubset(n, build, entry)
    ensures DistinctFunctionIds(m.functions) ==>
              forall refusals :: AreRefusals(m, build, refusals) <==> AreRefusals(n, build, refusals)
    ensures InSubset(m, build, entry) ==> forall plan :: IsPlan(m, entry, plan) <==> IsPlan(n, entry, plan)
    ensures InSubset(m, build, entry) ==>
              forall id, blocks :: Reach(CallGraph(FunctionMap(m.functions)), entry, id) ==>
                id in FunctionMap(m.functions) && id in FunctionMap(n.functions)
                && EmissionOrder(BlockMap(FunctionMap(m.functions)[id].blocks), blocks)
                   == EmissionOrder(BlockMap(FunctionMap(n.functions)[id].blocks), blocks)
  {
    StoredAlike(m, n);
    if DistinctFunctionIds(m.functions) {
      SameIsSymmetric(FunctionMap(m.functions), FunctionMap(n.functions));
      forall refusals
        ensures AreRefusals(m, build, refusals) <==> AreRefusals(n, build, refusals)
      {
        RefusalsStay(m, n, build, refusals);
      }
    }
    if InSubset(m, build, entry) {
      SubsetMoves(m, n, build, entry);
      PlansAlike(m, n, build, entry);
      EmissionAlike(m, n, build, entry);
    }
    if InSubset(n, build, entry) {
      SubsetMoves(n, m, build, entry);
    }
  }

  lemma PlansAlike(m: Module, n: Module, build: Build, entry: ItemId)
    requires SameFunctions(FunctionMap(m.functions), FunctionMap(n.functions))
    requires SameFunctions(FunctionMap(n.functions), FunctionMap(m.functions))
    requires InSubset(m, build, entry) && InSubset(n, build, entry)
    ensures forall plan :: IsPlan(m, entry, plan) <==> IsPlan(n, entry, plan)
  {
    AcceptedAreKeyed(m, build, entry);
    AcceptedAreKeyed(n, build, entry);
    forall plan
      ensures IsPlan(m, entry, plan) <==> IsPlan(n, entry, plan)
    {
      if IsPlan(m, entry, plan) { PlanMoves(m, n, entry, plan); }
      if IsPlan(n, entry, plan) { PlanMoves(n, m, entry, plan); }
    }
  }

  lemma EmissionAlike(m: Module, n: Module, build: Build, entry: ItemId)
    requires SameFunctions(FunctionMap(m.functions), FunctionMap(n.functions)) && InSubset(m, build, entry)
    ensures forall id, blocks :: Reach(CallGraph(FunctionMap(m.functions)), entry, id) ==>
              id in FunctionMap(m.functions) && id in FunctionMap(n.functions)
              && EmissionOrder(BlockMap(FunctionMap(m.functions)[id].blocks), blocks)
                 == EmissionOrder(BlockMap(FunctionMap(n.functions)[id].blocks), blocks)
  {
    AcceptedAreKeyed(m, build, entry);
    var a, b := FunctionMap(m.functions), FunctionMap(n.functions);
    forall id | Reach(CallGraph(a), entry, id)
      ensures id in a && id in b && BlockMap(a[id].blocks) == BlockMap(b[id].blocks)
    {
      ReachInGraph(CallGraph(a), entry, id);
      assert SameBlocks(a[id], b[id]);
      KeyedAlike(a[id], b[id]);
    }
  }
}
