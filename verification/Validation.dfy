/** The capability validator: the gate in front of code generation. */
module Validation {
  import opened Wrappers
  import opened Nir
  import opened Graphs
  import opened Ordered
  import opened Dataflow
  import opened Components
  import opened BreadthFirst
  import opened Capability
  import opened Gates
  import opened Refusals
  import opened Availability

  // Keying functions and blocks by id.

  /** Inserting one more function under its own id, when no earlier one has it. */
  lemma {:induction false} FunctionMapGrows(functions: seq<Function>, f: Function)
    requires forall g :: g in functions ==> g.id != f.id
    ensures FunctionMap(functions + [f]) == FunctionMap(functions)[f.id := f]
  {
    if functions == [] {
      assert functions + [f] == [f];
    } else {
      assert (functions + [f])[1..] == functions[1..] + [f];
      assert functions[0] in functions;
      FunctionMapGrows(functions[1..], f);
    }
  }

  lemma {:induction false} BlockMapGrows(blocks: seq<BasicBlock>, b: BasicBlock)
    requires forall c :: c in blocks ==> c.id != b.id
    ensures BlockMap(blocks + [b]) == BlockMap(blocks)[b.id := b]
  {
    if blocks == [] {
      assert blocks + [b] == [b];
    } else {
      assert (blocks + [b])[1..] == blocks[1..] + [b];
      assert blocks[0] in blocks;
      BlockMapGrows(blocks[1..], b);
    }
  }

  /** The functions keyed by id, or the fact that two share one. */
  method KeyFunctions(functions: seq<Function>) returns (keyed: Functions, repeated: seq<ItemId>)
    ensures repeated == RepeatedIds(functions)
    ensures repeated == [] <==> DistinctFunctionIds(functions)
    ensures repeated == [] ==> keyed == FunctionMap(functions)
  {
    keyed := map[];
    repeated := [];
    for i := 0 to |functions|
      invariant repeated == RepeatedIds(functions[..i])
      invariant forall id :: id in keyed <==> exists j :: 0 <= j < i && functions[j].id == id
      invariant repeated == [] ==> keyed == FunctionMap(functions[..i])
    {
      var f := functions[i];
      OneMoreKeyed(functions, i, repeated, keyed);
      if f.id in keyed {
        repeated := repeated + [f.id];
      }
      keyed := keyed[f.id := f];
    }
    assert functions[..|functions|] == functions;
    RepeatsAreListed(functions);
  }

  lemma OneMoreKeyed(functions: seq<Function>, i: nat, repeated: seq<ItemId>, keyed: Functions)
    requires i < |functions| && repeated == RepeatedIds(functions[..i])
    requires forall id :: id in keyed <==> exists j :: 0 <= j < i && functions[j].id == id
    requires repeated == [] ==> keyed == FunctionMap(functions[..i])
    ensures RepeatedIds(functions[..i + 1])
            == repeated + if functions[i].id in keyed then [functions[i].id] else []
    ensures repeated == [] && functions[i].id !in keyed ==>
              keyed[functions[i].id := functions[i]] == FunctionMap(functions[..i + 1])
  {
    assert functions[..i + 1] == functions[..i] + [functions[i]];
    assert functions[..i + 1][..i] == functions[..i];
    if repeated == [] && functions[i].id !in keyed {
      FunctionMapGrows(functions[..i], functions[i]);
    }
  }

  /** Ok with the block map exactly when ids are distinct and the entry block exists. */
  method BlocksById(f: Function) returns (r: Result<Blocks, Code>)
    ensures r.Ok? ==> BlocksKeyed(f) && r.value == BlockMap(f.blocks)
    ensures r.Err? ==> !BlocksKeyed(f) && r.error == UnverifiedNir
  {
    var blocks: Blocks := map[];
    for i := 0 to |f.blocks|
      invariant DistinctBlockIds(f.blocks[..i])
      invariant blocks == BlockMap(f.blocks[..i])
    {
      var b := f.blocks[i];
      assert f.blocks[..i + 1] == f.blocks[..i] + [b];
      BlockMapHolds(f.blocks[..i], b.id);
      if b.id in blocks {
        return Err(UnverifiedNir);
      }
      BlockMapGrows(f.blocks[..i], b);
      blocks := blocks[b.id := b];
    }
    assert f.blocks[..|f.blocks|] == f.blocks;
    if ENTRY_BLOCK !in blocks {
      return Err(UnverifiedNir);
    }
    r := Ok(blocks);
  }

  // Values and their types.

  /** Position `i` of block `b` lies before position `j` of the `n`-th reachable block. */
  ghost predicate Before(reachable: seq<BlockId>, n: nat, j: nat, b: BlockId, i: int)
    requires n <= |reachable|
  {
    b in reachable[..n] || (n < |reachable| && b == reachable[n] && i < j)
  }

  /** What has been collected from the parameters and the positions before (`n`, `j`). */
  ghost predicate Collected(f: Function, blocks: Blocks, reachable: seq<BlockId>, n: nat, j: nat, types: Types)
    requires n <= |reachable|
  {
    && (forall v :: v in types ==> DeclaredBefore(f, blocks, reachable, n, j, v, types[v]))
    && (forall v, ty :: DeclaredBefore(f, blocks, reachable, n, j, v, ty) ==> v in types && types[v] == ty)
    && (forall b, i, v :: Defines(blocks, b, i, v) && Before(reachable, n, j, b, i) ==> v !in ParameterValues(f))
    && (forall b, i, c, k, v ::
          Defines(blocks, b, i, v) && Before(reachable, n, j, b, i)
          && Defines(blocks, c, k, v) && Before(reachable, n, j, c, k) ==>
            b == c && i == k)
  }

  ghost predicate DeclaredBefore(f: Function, blocks: Blocks, reachable: seq<BlockId>, n: nat, j: nat,
                                 v: ValueId, ty: Ty)
    requires n <= |reachable|
  {
    || (exists i :: 0 <= i < |f.params| && f.params[i].value == v && f.params[i].ty == ty)
    || (exists b, i :: Defines(blocks, b, i, v) && Before(reachable, n, j, b, i) && blocks[b].instructions[i].ty == ty)
  }

  ghost predicate DistinctParameters(f: Function, n: nat)
    requires n <= |f.params|
  {
    forall k, l :: 0 <= k < l < n ==> f.params[k].value != f.params[l].value
  }

  /** Every parameter with its type, unless one is repeated. */
  method TypesOfParameters(f: Function, ghost blocks: Blocks, ghost reachable: seq<BlockId>)
    returns (r: Result<Types, Code>)
    ensures r.Ok? ==> DistinctParameters(f, |f.params|) && Collected(f, blocks, reachable, 0, 0, r.value)
    ensures r.Err? ==> r.error == UnverifiedNir && !DistinctParameters(f, |f.params|)
  {
    var types: Types := map[];
    for i := 0 to |f.params|
      invariant ParametersTyped(f, i, types)
    {
      if f.params[i].value in types {
        assert !DistinctParameters(f, |f.params|);
        return Err(UnverifiedNir);
      }
      OneMoreParameter(f, i, types);
      types := types[f.params[i].value := f.params[i].ty];
    }
    ParametersCollected(f, blocks, reachable, types);
    r := Ok(types);
  }

  /** `types` has exactly the first `i` parameters, which differ. */
  ghost predicate ParametersTyped(f: Function, i: nat, types: Types) {
    && i <= |f.params| && DistinctParameters(f, i)
    && (forall v :: v in types ==> exists k :: 0 <= k < i && f.params[k].value == v && f.params[k].ty == types[v])
    && (forall k :: 0 <= k < i ==> f.params[k].value in types && types[f.params[k].value] == f.params[k].ty)
  }

  lemma OneMoreParameter(f: Function, i: nat, types: Types)
    requires ParametersTyped(f, i, types) && i < |f.params| && f.params[i].value !in types
    ensures ParametersTyped(f, i + 1, types[f.params[i].value := f.params[i].ty])
  {
    var after := types[f.params[i].value := f.params[i].ty];
    forall v | v in after
      ensures exists k :: 0 <= k < i + 1 && f.params[k].value == v && f.params[k].ty == after[v]
    {
      if v != f.params[i].value {
        var k :| 0 <= k < i && f.params[k].value == v && f.params[k].ty == types[v];
      }
    }
  }

  lemma ParametersCollected(f: Function, blocks: Blocks, reachable: seq<BlockId>, types: Types)
    requires ParametersTyped(f, |f.params|, types)
    ensures Collected(f, blocks, reachable, 0, 0, types)
  {
  }

  /** Every value one block defines, unless one is defined already. */
  method TypesOfBlock(f: Function, reachable: seq<BlockId>, blocks: Blocks, n: nat, before: Types)
    returns (r: Result<Types, Code>)
    requires AreReachableBlocks(blocks, reachable) && n < |reachable| && reachable[n] in blocks
    requires Collected(f, blocks, reachable, n, 0, before)
    ensures r.Ok? ==> Collected(f, blocks, reachable, n + 1, 0, r.value)
    ensures r.Err? ==> r.error == UnverifiedNir && !SingleDefinitions(f, blocks)
  {
    var types: Types := before;
    var instructions := blocks[reachable[n]].instructions;
    for j := 0 to |instructions|
      invariant Collected(f, blocks, reachable, n, j, types)
    {
      if instructions[j].Value? {
        var result := instructions[j].result;
        if result in types {
          DefinedTwice(f, blocks, reachable, n, j, types);
          return Err(UnverifiedNir);
        }
        CollectOne(f, blocks, reachable, n, j, types);
        types := types[result := instructions[j].ty];
      } else {
        CollectNone(f, blocks, reachable, n, j, types);
      }
    }
    NextBlock(f, blocks, reachable, n, types);
    r := Ok(types);
  }

  /** Every declared value with its type, or the fact that one is defined twice. */
  method ValueTypes(f: Function, reachable: seq<BlockId>, blocks: Blocks) returns (r: Result<Types, Code>)
    requires AreReachableBlocks(blocks, reachable)
    ensures r.Ok? ==> SingleDefinitions(f, blocks) && AreTypes(f, blocks, r.value)
    ensures r.Err? ==> r.error == UnverifiedNir && !SingleDefinitions(f, blocks)
  {
    ReachableBlocksExist(blocks, reachable);
    r := TypesOfParameters(f, blocks, reachable);
    if r.Err? {
      return;
    }
    for n := 0 to |reachable|
      invariant r.Ok? && Collected(f, blocks, reachable, n, 0, r.value)
    {
      assert reachable[n] in reachable;
      r := TypesOfBlock(f, reachable, blocks, n, r.value);
      if r.Err? {
        return;
      }
    }
    AllCollected(f, blocks, reachable, r.value);
  }

  lemma DefinedTwice(f: Function, blocks: Blocks, reachable: seq<BlockId>, n: nat, j: nat, types: Types)
    requires AreReachableBlocks(blocks, reachable) && n < |reachable| && reachable[n] in blocks
    requires j < |blocks[reachable[n]].instructions| && blocks[reachable[n]].instructions[j].Value?
    requires Collected(f, blocks, reachable, n, j, types)
    requires blocks[reachable[n]].instructions[j].result in types
    ensures !SingleDefinitions(f, blocks)
  {
    var v := blocks[reachable[n]].instructions[j].result;
    assert reachable[n] in reachable;
    assert Defines(blocks, reachable[n], j, v);
    assert DeclaredBefore(f, blocks, reachable, n, j, v, types[v]);
    if v !in ParameterValues(f) {
      var b, i :| Defines(blocks, b, i, v) && Before(reachable, n, j, b, i) && blocks[b].instructions[i].ty == types[v];
      NotBeforeItself(reachable, n, j);
      assert b != reachable[n] || i != j;
      assert !DefinedOnce(blocks, v);
    }
  }

  lemma NotBeforeItself(reachable: seq<BlockId>, n: nat, j: nat)
    requires StrictlyAscending(reachable) && n < |reachable|
    ensures !Before(reachable, n, j, reachable[n], j)
    ensures reachable[n] !in reachable[..n]
  {
  }

  lemma CollectOne(f: Function, blocks: Blocks, reachable: seq<BlockId>, n: nat, j: nat, types: Types)
    requires AreReachableBlocks(blocks, reachable) && n < |reachable| && reachable[n] in blocks
    requires j < |blocks[reachable[n]].instructions| && blocks[reachable[n]].instructions[j].Value?
    requires Collected(f, blocks, reachable, n, j, types)
    requires blocks[reachable[n]].instructions[j].result !in types
    ensures var instruction := blocks[reachable[n]].instructions[j];
            Collected(f, blocks, reachable, n, j + 1, types[instruction.result := instruction.ty])
  {
    var here := reachable[n];
    var instruction := blocks[here].instructions[j];
    var w := instruction.result;
    assert here in reachable;
    assert Defines(blocks, here, j, w);
    BeforeNext(reachable, n, j);
    forall b, i, v | Defines(blocks, b, i, v) && Before(reachable, n, j, b, i)
      ensures v != w
    {
      assert DeclaredBefore(f, blocks, reachable, n, j, v, blocks[b].instructions[i].ty);
    }
    assert w !in ParameterValues(f) by {
      if w in ParameterValues(f) {
        var k :| 0 <= k < |f.params| && f.params[k].value == w;
        assert DeclaredBefore(f, blocks, reachable, n, j, w, f.params[k].ty);
      }
    }
    var after := types[w := instruction.ty];
    forall v | v in after
      ensures DeclaredBefore(f, blocks, reachable, n, j + 1, v, after[v])
    {
      if v != w {
        DeclaredStays(f, blocks, reachable, n, j, v, types[v]);
      }
    }
    var next := j + 1;
    forall v, ty | DeclaredBefore(f, blocks, reachable, n, next, v, ty)
      ensures v in after && after[v] == ty
    {
      if v != w {
        DeclaredAlready(f, blocks, reachable, n, j, v, ty);
      }
    }
  }

  lemma BeforeNext(reachable: seq<BlockId>, n: nat, j: nat)
    requires n < |reachable|
    ensures forall b, i: int :: Before(reachable, n, j + 1, b, i) ==>
                                  Before(reachable, n, j, b, i) || (b == reachable[n] && i == j)
    ensures forall b, i: int :: Before(reachable, n, j, b, i) ==> Before(reachable, n, j + 1, b, i)
    ensures Before(reachable, n, j + 1, reachable[n], j)
  {
  }

  lemma DeclaredStays(f: Function, blocks: Blocks, reachable: seq<BlockId>, n: nat, j: nat, v: ValueId, ty: Ty)
    requires n < |reachable| && DeclaredBefore(f, blocks, reachable, n, j, v, ty)
    ensures DeclaredBefore(f, blocks, reachable, n, j + 1, v, ty)
  {
    BeforeNext(reachable, n, j);
  }

  lemma DeclaredAlready(f: Function, blocks: Blocks, reachable: seq<BlockId>, n: nat, j: nat, v: ValueId, ty: Ty)
    requires n < |reachable| && DeclaredBefore(f, blocks, reachable, n, j + 1, v, ty)
    requires !Defines(blocks, reachable[n], j, v)
    ensures DeclaredBefore(f, blocks, reachable, n, j, v, ty)
  {
    BeforeNext(reachable, n, j);
  }

  lemma CollectNone(f: Function, blocks: Blocks, reachable: seq<BlockId>, n: nat, j: nat, types: Types)
    requires n < |reachable| && reachable[n] in blocks
    requires j < |blocks[reachable[n]].instructions| && !blocks[reachable[n]].instructions[j].Value?
    requires Collected(f, blocks, reachable, n, j, types)
    ensures Collected(f, blocks, reachable, n, j + 1, types)
  {
    BeforeNext(reachable, n, j);
    forall v | v in types
      ensures DeclaredBefore(f, blocks, reachable, n, j + 1, v, types[v])
    {
      DeclaredStays(f, blocks, reachable, n, j, v, types[v]);
    }
    var next := j + 1;
    forall v, ty | DeclaredBefore(f, blocks, reachable, n, next, v, ty)
      ensures v in types && types[v] == ty
    {
      DeclaredAlready(f, blocks, reachable, n, j, v, ty);
    }
  }

  lemma NextBlock(f: Function, blocks: Blocks, reachable: seq<BlockId>, n: nat, types: Types)
    requires n < |reachable| && reachable[n] in blocks
    requires Collected(f, blocks, reachable, n, |blocks[reachable[n]].instructions|, types)
    ensures Collected(f, blocks, reachable, n + 1, 0, types)
  {
    var size := |blocks[reachable[n]].instructions|;
    BeforeNextBlock(blocks, reachable, n, size);
    forall v | v in types
      ensures DeclaredBefore(f, blocks, reachable, n + 1, 0, v, types[v])
    {
      DeclaredNextBlock(f, blocks, reachable, n, size, v, types[v]);
    }
    var next := n + 1;
    forall v, ty | DeclaredBefore(f, blocks, reachable, next, 0, v, ty)
      ensures v in types && types[v] == ty
    {
      DeclaredNextBlock(f, blocks, reachable, n, size, v, ty);
    }
  }

  lemma BeforeNextBlock(blocks: Blocks, reachable: seq<BlockId>, n: nat, size: nat)
    requires n < |reachable| && reachable[n] in blocks && size == |blocks[reachable[n]].instructions|
    ensures forall b, i, v :: Defines(blocks, b, i, v) ==>
                                (Before(reachable, n + 1, 0, b, i) <==> Before(reachable, n, size, b, i))
  {
    assert reachable[..n + 1] == reachable[..n] + [reachable[n]];
  }

  lemma DeclaredNextBlock(f: Function, blocks: Blocks, reachable: seq<BlockId>, n: nat, size: nat, v: ValueId, ty: Ty)
    requires n < |reachable| && reachable[n] in blocks && size == |blocks[reachable[n]].instructions|
    ensures DeclaredBefore(f, blocks, reachable, n + 1, 0, v, ty) <==>
            DeclaredBefore(f, blocks, reachable, n, size, v, ty)
  {
    BeforeNextBlock(blocks, reachable, n, size);
  }

  lemma EverythingBefore(blocks: Blocks, reachable: seq<BlockId>, b: BlockId, i: int, v: ValueId)
    requires AreReachableBlocks(blocks, reachable) && Defines(blocks, b, i, v)
    ensures Before(reachable, |reachable|, 0, b, i)
  {
    assert reachable[..|reachable|] == reachable;
    assert b in reachable;
  }

  lemma AllCollected(f: Function, blocks: Blocks, reachable: seq<BlockId>, types: Types)
    requires AreReachableBlocks(blocks, reachable)
    requires DistinctParameters(f, |f.params|) && Collected(f, blocks, reachable, |reachable|, 0, types)
    ensures SingleDefinitions(f, blocks) && AreTypes(f, blocks, types)
  {
    var n := |reachable|;
    forall b, i, v | Defines(blocks, b, i, v)
      ensures v !in ParameterValues(f)
    {
      EverythingBefore(blocks, reachable, b, i, v);
    }
    forall b, i, c, j, v | Defines(blocks, b, i, v) && Defines(blocks, c, j, v)
      ensures b == c && i == j
    {
      EverythingBefore(blocks, reachable, b, i, v);
      EverythingBefore(blocks, reachable, c, j, v);
    }
    forall v, ty | Declares(f, blocks, v, ty)
      ensures v in types && types[v] == ty
    {
      DeclaredSomewhere(f, blocks, reachable, v, ty);
    }
    forall v | v in types
      ensures Declares(f, blocks, v, types[v])
    {
      assert DeclaredBefore(f, blocks, reachable, n, 0, v, types[v]);
    }
  }

  lemma DeclaredSomewhere(f: Function, blocks: Blocks, reachable: seq<BlockId>, v: ValueId, ty: Ty)
    requires AreReachableBlocks(blocks, reachable) && Declares(f, blocks, v, ty)
    ensures DeclaredBefore(f, blocks, reachable, |reachable|, 0, v, ty)
  {
    if !(exists i :: 0 <= i < |f.params| && f.params[i].value == v && f.params[i].ty == ty) {
      var b, i :| Defines(blocks, b, i, v) && blocks[b].instructions[i].ty == ty;
      EverythingBefore(blocks, reachable, b, i, v);
    }
  }

  /** Finds exactly the values that an `alloc` in some reachable block defines. */
  method AllocSlots(reachable: seq<BlockId>, blocks: Blocks) returns (slots: Values)
    requires AreReachableBlocks(blocks, reachable)
    ensures AreSlots(blocks, slots)
  {
    ReachableBlocksExist(blocks, reachable);
    slots := {};
    for n := 0 to |reachable|
      invariant forall s :: s in slots <==> exists b, i :: b in reachable[..n] && AllocatedAt(blocks, b, i, s)
    {
      assert reachable[n] in reachable;
      var instructions := blocks[reachable[n]].instructions;
      var here := set i | 0 <= i < |instructions| && instructions[i].Value? && instructions[i].kind == Alloc
        :: instructions[i].result;
      ghost var before := slots;
      slots := slots + here;
      assert reachable[..n + 1] == reachable[..n] + [reachable[n]];
      forall s
        ensures s in slots <==> exists b, i :: b in reachable[..n + 1] && AllocatedAt(blocks, b, i, s)
      {
        if s in here {
          var i :| 0 <= i < |instructions| && instructions[i].Value? && instructions[i].kind == Alloc
                   && instructions[i].result == s;
          assert reachable[n] in reachable[..n + 1] && AllocatedAt(blocks, reachable[n], i, s);
        }
      }
    }
    assert reachable[..|reachable|] == reachable;
    forall s
      ensures s in slots <==> exists b, i :: AllocatedAt(blocks, b, i, s)
    {
      if exists b, i :: AllocatedAt(blocks, b, i, s) {
        var b, i :| AllocatedAt(blocks, b, i, s);
        assert b in reachable;
      }
    }
  }

  // One function's body.

  lemma DefinesOnlyAdds()
    ensures OnlyAdds(DefinesAfter) && OnlyAdds(StoresAfter)
  {
  }

  lemma LiveGrows(c: Context, b: BlockId, i: nat)
    requires b in c.blocks && i < |c.blocks[b].instructions| && BlockReachable(c.blocks, b)
    requires AreTypes(c.current, c.blocks, c.types)
    ensures var instruction := c.blocks[b].instructions[i];
            LiveAt(c, b, i + 1) == if instruction.Value? then LiveAt(c, b, i) + {instruction.result}
              else LiveAt(c, b, i)
  {
    var instructions := c.blocks[b].instructions;
    DefinedInGrows(instructions, i);
    if instructions[i].Value? {
      assert Defines(c.blocks, b, i, instructions[i].result);
      assert Declares(c.current, c.blocks, instructions[i].result, instructions[i].ty);
    }
  }

  lemma DefinedInGrows(instructions: seq<Instruction>, i: nat)
    requires i < |instructions|
    ensures DefinedIn(instructions[..i + 1]) ==
            if instructions[i].Value? then DefinedIn(instructions[..i]) + {instructions[i].result}
            else DefinedIn(instructions[..i])
  {
    var longer := instructions[..i + 1];
    var shorter := instructions[..i];
    assert longer == shorter + [instructions[i]];
    forall v
      ensures v in DefinedIn(longer) <==>
              v in DefinedIn(shorter) || (instructions[i].Value? && instructions[i].result == v)
    {
      if v in DefinedIn(shorter) {
        var k :| 0 <= k < i && shorter[k].Value? && shorter[k].result == v;
        assert longer[k] == shorter[k];
      }
      if v in DefinedIn(longer) {
        var k :| 0 <= k < i + 1 && longer[k].Value? && longer[k].result == v;
        if k < i { assert longer[k] == shorter[k]; }
      }
      if instructions[i].Value? { assert longer[i] == instructions[i]; }
    }
  }

  lemma StoredInGrows(instructions: seq<Instruction>, i: nat)
    requires i < |instructions|
    ensures StoredIn(instructions[..i + 1]) ==
            if instructions[i].Store? then StoredIn(instructions[..i]) + {instructions[i].slot}
            else StoredIn(instructions[..i])
  {
    var longer := instructions[..i + 1];
    var shorter := instructions[..i];
    assert longer == shorter + [instructions[i]];
    forall v
      ensures v in StoredIn(longer) <==> v in StoredIn(shorter) || (instructions[i].Store? && instructions[i].slot == v)
    {
      if v in StoredIn(shorter) {
        var k :| 0 <= k < i && shorter[k].Store? && shorter[k].slot == v;
        assert longer[k] == shorter[k];
      }
      if v in StoredIn(longer) {
        var k :| 0 <= k < i + 1 && longer[k].Store? && longer[k].slot == v;
        if k < i { assert longer[k] == shorter[k]; }
      }
      if instructions[i].Store? { assert longer[i] == instructions[i]; }
    }
  }

  lemma StoredGrows(c: Context, b: BlockId, i: nat)
    requires b in c.blocks && i < |c.blocks[b].instructions|
    ensures var instruction := c.blocks[b].instructions[i];
            StoredAt(c, b, i + 1) ==
            StoredAt(c, b, i) + if instruction.Store? && instruction.slot in c.slots then {instruction.slot} else {}
  {
    StoredInGrows(c.blocks[b].instructions, i);
  }

  /** Checks one instruction, and says what is live after it. */
  method CheckOne(c: Context, b: BlockId, i: nat, live: Values) returns (refused: Option<Code>, next: Values)
    requires b in c.blocks && BlockReachable(c.blocks, b) && AreTypes(c.current, c.blocks, c.types)
    requires i < |c.blocks[b].instructions| && live == LiveAt(c, b, i)
    ensures refused == CheckInstruction(c, LiveAt(c, b, i), c.blocks[b].instructions[i])
    ensures next == LiveAt(c, b, i + 1)
  {
    var instruction := c.blocks[b].instructions[i];
    refused := CheckInstruction(c, live, instruction);
    LiveGrows(c, b, i);
    next := if instruction.Value? then live + {instruction.result} else live;
  }

  method CheckBlock(c: Context, b: BlockId, start: Values) returns (r: Option<Code>)
    requires b in c.blocks && BlockReachable(c.blocks, b) && AreTypes(c.current, c.blocks, c.types)
    requires start == LiveAt(c, b, 0)
    ensures r == None <==> ChecksPass(c, b)
    ensures r.Some? ==> exists i :: FailsFirstAt(c, b, i, r.value)
  {
    var live := start;
    var block := c.blocks[b];
    for i := 0 to |block.instructions|
      invariant live == LiveAt(c, b, i)
      invariant forall k {:trigger Passes(c, b, k)} :: 0 <= k < i ==> Passes(c, b, k)
    {
      var refused, next := CheckOne(c, b, i, live);
      if refused.Some? {
        FailureHasItsCode(c, b, i, refused.value);
        assert !Passes(c, b, i) && FailsFirstAt(c, b, i, refused.value);
        return refused;
      }
      live := next;
    }
    r := CheckTerminator(c, live, block.terminator);
    if r.Some? {
      FailureHasItsCode(c, b, |block.instructions|, r.value);
      assert FailsFirstAt(c, b, |block.instructions|, r.value);
    }
  }

  method CheckSlotInitialization(c: Context, reachable: seq<BlockId>) returns (r: Option<Code>)
    requires AreReachableBlocks(c.blocks, reachable)
    requires forall b :: b in reachable && b in c.blocks ==> StoredIn(c.blocks[b].instructions) <= c.slots
    requires forall b, i :: b in reachable && b in c.blocks && 0 <= i < |c.blocks[b].instructions|
                            && c.blocks[b].instructions[i].Value? && c.blocks[b].instructions[i].kind.Load? ==>
                              c.blocks[b].instructions[i].kind.slot in c.slots
    ensures r == None <==> forall b :: b in reachable && b in c.blocks ==> LoadsInitialized(c, b)
    ensures r == None <==> EveryLoadFollowsAStore(c.blocks)
    ensures r.Some? ==> r.value == UninitializedSlotLoad
  {
    InitializedMeansStored(c);
    if c.slots == {} {
      return None;
    }
    ReachableBlocksExist(c.blocks, reachable);
    DefinesOnlyAdds();
    var entryState, _ := MustReach(reachable, c.blocks, c.slots, {}, StoresAfter);
    r := CheckLoadsOfAll(c, reachable, entryState);
  }

  method CheckLoadsOfAll(c: Context, reachable: seq<BlockId>, entryState: States) returns (r: Option<Code>)
    requires forall b :: b in reachable ==> b in c.blocks && b in entryState && entryState[b] <= c.slots
    requires forall b :: b in reachable && b in c.blocks ==> StoredIn(c.blocks[b].instructions) <= c.slots
    requires forall b, v :: b in reachable && b in c.blocks && b in entryState ==>
                              (v in entryState[b] <==> OnEveryPath(c.blocks, StoresAfter, {}, v, b))
    ensures r == None <==> forall b :: b in reachable && b in c.blocks ==> LoadsInitialized(c, b)
    ensures r.Some? ==> r.value == UninitializedSlotLoad
  {
    for n := 0 to |reachable|
      invariant forall k :: 0 <= k < n ==> LoadsInitialized(c, reachable[k])
    {
      var b := reachable[n];
      assert b in reachable;
      StoredAtStart(c, b, entryState[b]);
      var fine := CheckLoads(c, b, entryState[b]);
      if !fine {
        return Some(UninitializedSlotLoad);
      }
    }
    r := None;
  }

  lemma StoredAtStart(c: Context, b: BlockId, state: Values)
    requires b in c.blocks && state <= c.slots
    requires forall v :: v in state <==> OnEveryPath(c.blocks, StoresAfter, {}, v, b)
    ensures state == StoredAt(c, b, 0)
  {
  }

  method CheckLoads(c: Context, b: BlockId, start: Values) returns (fine: bool)
    requires b in c.blocks && start == StoredAt(c, b, 0)
    requires StoredIn(c.blocks[b].instructions) <= c.slots
    ensures fine <==> LoadsInitialized(c, b)
  {
    var stored := start;
    var instructions := c.blocks[b].instructions;
    for i := 0 to |instructions|
      invariant stored == StoredAt(c, b, i)
      invariant forall k :: 0 <= k < i && instructions[k].Value? && instructions[k].kind.Load? ==>
                              instructions[k].kind.slot in StoredAt(c, b, k)
    {
      var instruction := instructions[i];
      if instruction.Value? && instruction.kind.Load? && instruction.kind.slot !in stored {
        return false;
      }
      StoredGrows(c, b, i);
      if instruction.Store? {
        assert instruction.slot in StoredIn(instructions);
        stored := stored + {instruction.slot};
      }
    }
    fine := true;
  }

  lemma DefinitionsAreTyped(c: Context, b: BlockId)
    requires AreTypes(c.current, c.blocks, c.types) && BlockReachable(c.blocks, b) && b in c.blocks
    ensures DefinesAfter({}, c.blocks[b]) <= c.types.Keys
  {
    forall v | v in DefinedIn(c.blocks[b].instructions)
      ensures v in c.types
    {
      var i :| 0 <= i < |c.blocks[b].instructions| && c.blocks[b].instructions[i].Value?
               && c.blocks[b].instructions[i].result == v;
      assert Defines(c.blocks, b, i, v);
      assert Declares(c.current, c.blocks, v, c.blocks[b].instructions[i].ty);
    }
  }

  lemma ParametersAreTyped(c: Context)
    requires AreTypes(c.current, c.blocks, c.types)
    ensures ParameterValues(c.current) <= c.types.Keys
  {
    forall v | v in ParameterValues(c.current)
      ensures v in c.types
    {
      var i :| 0 <= i < |c.current.params| && c.current.params[i].value == v;
      assert Declares(c.current, c.blocks, v, c.current.params[i].ty);
    }
  }

  /** The value available at the start of a block are the parameters and what every path to it defines. */
  lemma LiveAtStart(c: Context, b: BlockId, state: Values)
    requires b in c.blocks && AreTypes(c.current, c.blocks, c.types) && state <= c.types.Keys
    requires forall v :: v in state <==> OnEveryPath(c.blocks, DefinesAfter, ParameterValues(c.current), v, b)
    ensures state + ParameterValues(c.current) == LiveAt(c, b, 0)
  {
    ParametersAreTyped(c);
    assert c.blocks[b].instructions[..0] == [];
    assert forall v :: v in LiveAt(c, b, 0) <==> v in state + ParameterValues(c.current);
  }

  /** Checks every reachable block, in ascending order. */
  method CheckBlocks(c: Context, reachable: seq<BlockId>) returns (r: Option<Code>)
    requires AreReachableBlocks(c.blocks, reachable) && AreTypes(c.current, c.blocks, c.types)
    ensures r == None <==> AllChecksPass(c)
    ensures r.Some? ==> exists b :: FailsFirstIn(c, b, r.value)
  {
    ReachableBlocksExist(c.blocks, reachable);
    var parameters := ParameterValues(c.current);
    DefinesOnlyAdds();
    ParametersAreTyped(c);
    forall b | b in reachable && b in c.blocks
      ensures DefinesAfter({}, c.blocks[b]) <= c.types.Keys
    {
      DefinitionsAreTyped(c, b);
    }
    var available, _ := MustReach(reachable, c.blocks, c.types.Keys, parameters, DefinesAfter);
    forall b | b in reachable
      ensures available[b] + parameters == LiveAt(c, b, 0)
    {
      LiveAtStart(c, b, available[b]);
    }
    r := CheckEach(c, reachable, available, parameters);
    FirstOfAscending(c, reachable, r);
  }

  /** The first refusal of the reachable blocks, in the order given. */
  method CheckEach(c: Context, reachable: seq<BlockId>, available: States, parameters: Values) returns (r: Option<Code>)
    requires AreTypes(c.current, c.blocks, c.types)
    requires forall b :: b in reachable ==> b in c.blocks && BlockReachable(c.blocks, b)
    requires forall b :: b in reachable ==> b in available && available[b] + parameters == LiveAt(c, b, 0)
    ensures r == None ==> forall b :: b in reachable && b in c.blocks ==> ChecksPass(c, b)
    ensures r.Some? ==> exists n: nat :: FirstOf(c, reachable, n, r.value)
  {
    for n := 0 to |reachable|
      invariant forall k {:trigger reachable[k]} :: 0 <= k < n ==>
                  reachable[k] in c.blocks && ChecksPass(c, reachable[k])
    {
      var b := reachable[n];
      assert b in reachable;
      var refused := CheckBlock(c, b, available[b] + parameters);
      if refused.Some? {
        assert FirstOf(c, reachable, n, refused.value);
        return refused;
      }
    }
    r := None;
  }

  /** The `n`-th of the blocks is the first in which a check fails. */
  ghost predicate FirstOf(c: Context, reachable: seq<BlockId>, n: nat, code: Code) {
    && n < |reachable| && reachable[n] in c.blocks && (exists i :: FailsFirstAt(c, reachable[n], i, code))
    && forall k {:trigger reachable[k]} :: 0 <= k < n ==> reachable[k] in c.blocks && ChecksPass(c, reachable[k])
  }

  lemma FirstOfAscending(c: Context, reachable: seq<BlockId>, r: Option<Code>)
    requires AreReachableBlocks(c.blocks, reachable)
    requires r == None ==> forall b :: b in reachable && b in c.blocks ==> ChecksPass(c, b)
    requires r.Some? ==> exists n: nat :: FirstOf(c, reachable, n, r.value)
    ensures r == None <==> AllChecksPass(c)
    ensures r.Some? ==> exists b :: FailsFirstIn(c, b, r.value)
  {
    if r.Some? {
      var n: nat :| FirstOf(c, reachable, n, r.value);
      assert reachable[n] in reachable;
      forall a: BlockId | BlockReachable(c.blocks, a) && a in c.blocks && a < reachable[n]
        ensures ChecksPass(c, a)
      {
        assert a in reachable;
        var k :| 0 <= k < |reachable| && reachable[k] == a;
      }
      assert FailsFirstIn(c, reachable[n], r.value);
      BlockDecides(c, reachable[n], r.value);
    }
  }

  lemma ChecksCoverSlots(c: Context, b: BlockId)
    requires b in c.blocks && ChecksPass(c, b)
    ensures StoredIn(c.blocks[b].instructions) <= c.slots
    ensures forall i :: 0 <= i < |c.blocks[b].instructions| && c.blocks[b].instructions[i].Value?
                        && c.blocks[b].instructions[i].kind.Load? ==>
                          c.blocks[b].instructions[i].kind.slot in c.slots
  {
    var instructions := c.blocks[b].instructions;
    forall i | 0 <= i < |instructions| && instructions[i].Value? && instructions[i].kind.Load?
      ensures instructions[i].kind.slot in c.slots
    {
      assert Passes(c, b, i);
    }
    forall s | s in StoredIn(instructions)
      ensures s in c.slots
    {
      var i :| 0 <= i < |instructions| && instructions[i].Store? && instructions[i].slot == s;
      assert Passes(c, b, i);
    }
  }

  /** The first reason one function's body cannot be compiled. */
  method CheckBody(functions: Functions, f: Function, reachable: seq<BlockId>) returns (r: Option<Code>)
    requires BlocksKeyed(f) ==> AreReachableBlocks(BlockMap(f.blocks), reachable)
    ensures r == None <==> BodyOk(functions, f)
    ensures r == None <==> NativeBody(functions, f)
    ensures r.Some? ==> BodyRefusedWith(functions, f, r.value)
  {
    BodyOkMeansNative(functions, f);
    var keyed := BlocksById(f);
    if keyed.Err? {
      return Some(keyed.error);
    }
    var blocks := keyed.value;
    var typed := ValueTypes(f, reachable, blocks);
    if typed.Err? {
      return Some(typed.error);
    }
    var slots := AllocSlots(reachable, blocks);
    var c := Context(functions, f, blocks, typed.value, slots);
    assert IsContext(functions, f, c);
    r := CheckContext(c, reachable);
    ContextIsTheOne(functions, f, c);
  }

  lemma ContextIsTheOne(functions: Functions, f: Function, c: Context)
    requires BlocksKeyed(f) && SingleDefinitions(f, BlockMap(f.blocks)) && IsContext(functions, f, c)
    ensures BodyOk(functions, f) <==> ContextOk(c)
  {
    if BodyOk(functions, f) {
      var d :| IsContext(functions, f, d) && ContextOk(d);
      ContextUnique(functions, f, c, d);
    }
  }

  method CheckContext(c: Context, reachable: seq<BlockId>) returns (r: Option<Code>)
    requires AreReachableBlocks(c.blocks, reachable) && AreTypes(c.current, c.blocks, c.types)
    ensures r == None <==> ContextOk(c)
    ensures r.Some? ==> ContextRefusedWith(c, r.value)
  {
    ReachableBlocksExist(c.blocks, reachable);
    ContextOkParts(c);
    r := CheckBlocks(c, reachable);
    if r.None? {
      forall b | b in reachable && b in c.blocks
        ensures StoredIn(c.blocks[b].instructions) <= c.slots
        ensures forall i :: 0 <= i < |c.blocks[b].instructions| && c.blocks[b].instructions[i].Value?
                            && c.blocks[b].instructions[i].kind.Load? ==>
                              c.blocks[b].instructions[i].kind.slot in c.slots
      {
        ChecksCoverSlots(c, b);
      }
      r := CheckSlotInitialization(c, reachable);
    }
  }

  // The call graph.

  /** The walk over the reachable functions: what has been recorded about those already taken off the queue. */
  ghost predicate WalkHas(functions: Functions, id: ItemId, blocksOf: map<ItemId, seq<BlockId>>,
                           callees: map<ItemId, seq<ItemId>>, unkeyed: set<ItemId>)
  {
    && id in functions && id in blocksOf && id in callees
    && callees[id] == CalleesOf(functions[id])
    && (id in unkeyed <==> !BlocksKeyed(functions[id]))
    && (BlocksKeyed(functions[id]) ==> AreReachableBlocks(BlockMap(functions[id].blocks), blocksOf[id]))
  }

  ghost predicate AllRecorded(functions: Functions, reached: set<ItemId>, queue: seq<ItemId>,
                              blocksOf: map<ItemId, seq<BlockId>>, callees: map<ItemId, seq<ItemId>>,
                              unkeyed: set<ItemId>)
  {
    && unkeyed <= blocksOf.Keys
    && blocksOf.Keys == callees.Keys <= reached
    && (forall id {:trigger WalkHas(functions, id, blocksOf, callees, unkeyed)} ::
          id in blocksOf ==> WalkHas(functions, id, blocksOf, callees, unkeyed))
    && (forall id :: id in reached ==> id in blocksOf || id in queue)
  }

  lemma ReachableSeqUnique(blocks: Blocks, reachable: seq<BlockId>)
    requires AreReachableBlocks(blocks, reachable)
    ensures reachable == ReachableSeq(blocks)
  {
    AscendingUnique(reachable, ReachableSeq(blocks));
  }

  /** The recorded edges between the reached functions. */
  function Restrict(callees: map<ItemId, seq<ItemId>>, present: set<ItemId>): (edges: Graph)
    ensures edges.Keys == callees.Keys
    ensures Components.Total(edges) || !(present <= callees.Keys)
  {
    map id | id in callees :: Ascending(set target | target in callees[id] && target in present)
  }

  lemma RestrictedEdges(g: Graph, root: Node, callees: map<ItemId, seq<ItemId>>, present: set<ItemId>)
    requires present == callees.Keys && forall id :: id in present <==> Reach(g, root, id)
    requires forall id :: id in callees ==> id in g && callees[id] == g[id]
    ensures forall a, b :: Edge(Restrict(callees, present), a, b) <==> a in present && Edge(g, a, b)
  {
    forall a, b
      ensures Edge(Restrict(callees, present), a, b) <==> a in present && Edge(g, a, b)
    {
      if b in present {
        ReachInGraph(g, root, b);
      }
      if a in present && Edge(g, a, b) {
        ReachThenEdge(g, root, a, b);
      }
    }
  }

  /** Restricting the graph to what the root reaches changes nothing about what those nodes reach. */
  lemma RestrictedReach(g: Graph, h: Graph, root: Node, a: Node, b: Node)
    requires forall c, d :: Edge(h, c, d) <==> Reach(g, root, c) && Edge(g, c, d)
    requires forall c :: c in h <==> Reach(g, root, c)
    requires Reach(g, root, a)
    ensures Reach(h, a, b) <==> Reach(g, a, b)
  {
    if Reach(g, a, b) {
      var p :| PathFromTo(g, p, a, b);
      RestrictedPath(g, h, root, p);
      assert PathFromTo(h, p, a, b);
    }
    if Reach(h, a, b) {
      var p :| PathFromTo(h, p, a, b);
      forall i | 0 <= i < |p|
        ensures p[i] in g
      {
        ReachInGraph(g, root, p[i]);
      }
      forall i
        ensures Step(g, p, i)
      {
        assert Step(h, p, i);
      }
      assert PathFromTo(g, p, a, b);
    }
  }

  lemma {:induction false} RestrictedPath(g: Graph, h: Graph, root: Node, p: seq<Node>)
    requires forall c, d :: Edge(h, c, d) <==> Reach(g, root, c) && Edge(g, c, d)
    requires forall c :: c in h <==> Reach(g, root, c)
    requires IsPath(g, p) && Reach(g, root, p[0])
    ensures IsPath(h, p)
  {
    forall i | 0 <= i < |p|
      ensures Reach(g, root, p[i])
    {
      PathPrefix(g, p, i + 1);
      assert PathFromTo(g, p[..i + 1], p[0], p[i]);
      ReachTransitive(g, root, p[0], p[i]);
    }
    forall i
      ensures Step(h, p, i)
    {
      assert Step(g, p, i);
    }
  }

  /** The canonical representative of every cycle, ascending. */
  method CycleRoots(nodes: seq<ItemId>, edges: Graph) returns (roots: seq<ItemId>)
    requires forall v :: v in nodes <==> v in edges
    requires Components.Total(edges)
    ensures StrictlyAscending(roots)
    ensures forall r :: r in roots <==> CycleRoot(edges, r)
    ensures roots == [] <==> Acyclic(edges)
  {
    var components := StronglyConnectedComponents(nodes, edges);
    roots := RootsOf(edges, components);
    RootsAreExact(edges, components, roots);
  }

  method RootsOf(edges: Graph, components: seq<seq<Node>>) returns (roots: seq<ItemId>)
    requires Components.Total(edges) && OrderedByFirst(components)
    requires forall c :: c in components ==> IsComponent(edges, c)
    ensures StrictlyAscending(roots)
    ensures RootsOfFirst(edges, components, |components|, roots)
  {
    roots := [];
    for i := 0 to |components|
      invariant StrictlyAscending(roots)
      invariant forall r :: r in roots && i < |components| ==> r < components[i][0]
      invariant RootsOfFirst(edges, components, i, roots)
    {
      var component := components[i];
      assert component in components;
      var root := component[0];
      ComponentIsCycle(edges, component);
      ghost var before := roots;
      if |component| > 1 || root in edges[root] {
        AppendAscending(roots, root);
        roots := roots + [root];
      }
      RootsGrow(edges, components, i, before, roots);
    }
  }

  lemma RootsGrow(g: Graph, components: seq<seq<Node>>, n: nat, before: seq<ItemId>, after: seq<ItemId>)
    requires n < |components| && OrderedByFirst(components) && RootsOfFirst(g, components, n, before)
    requires forall r :: r in before ==> r < components[n][0]
    requires after == if CycleRoot(g, components[n][0]) then before + [components[n][0]] else before
    ensures RootsOfFirst(g, components, n + 1, after)
  {
    forall r | r in after
      ensures exists k :: 0 <= k < n + 1 && r == components[k][0]
    {
      if r in before {
        var k :| 0 <= k < n && r == components[k][0];
      } else {
        assert r == components[n][0];
      }
    }
    forall k | 0 <= k < n + 1
      ensures components[k][0] in after <==> CycleRoot(g, components[k][0])
    {
      if k < n {
        assert components[k][0] < components[n][0];
        assert components[k][0] in before <==> CycleRoot(g, components[k][0]);
      }
    }
  }

  /** `roots` holds the roots of exactly the cyclic components among the first `n`. */
  ghost predicate RootsOfFirst(g: Graph, components: seq<seq<Node>>, n: nat, roots: seq<ItemId>)
    requires n <= |components| && NonEmpty(components)
  {
    && (forall r :: r in roots ==> exists k :: 0 <= k < n && r == components[k][0])
    && (forall k :: 0 <= k < n ==> (components[k][0] in roots <==> CycleRoot(g, components[k][0])))
  }

  lemma ComponentIsCycle(g: Graph, component: seq<Node>)
    requires Components.Total(g) && IsComponent(g, component)
    ensures component[0] in g
    ensures CycleRoot(g, component[0]) <==> |component| > 1 || component[0] in g[component[0]]
  {
    var root := component[0];
    assert root in component;
    forall b: Node | Mutual(g, root, b)
      ensures root <= b
    {
      assert b in component;
    }
    if |component| > 1 {
      var other := component[1];
      assert other in component && Mutual(g, root, other);
      OtherMemberMakesCycle(g, root, other);
    }
    if root in g[root] {
      assert Edge(g, root, root);
      ReachSelf(g, root);
      assert ReachPlus(g, root, root);
    }
    if ReachPlus(g, root, root) {
      var c :| Edge(g, root, c) && Reach(g, c, root);
      ReachEdge(g, root, c);
      assert Mutual(g, root, c);
      assert c in component;
    }
  }

  lemma OtherMemberMakesCycle(g: Graph, a: Node, b: Node)
    requires Mutual(g, a, b) && a != b
    ensures ReachPlus(g, a, a)
  {
    var p :| PathFromTo(g, p, a, b);
    assert Step(g, p, 0);
    PathSuffix(g, p, 1);
    assert Reach(g, p[1], b);
    ReachTransitive(g, p[1], b, a);
  }

  lemma CycleHasRoot(g: Graph, components: seq<seq<Node>>, a: Node) returns (k: nat)
    requires Components.Total(g)
    requires forall c :: c in components ==> IsComponent(g, c)
    requires Covers(components, g.Keys) && ReachPlus(g, a, a)
    ensures k < |components| && a in components[k] && CycleRoot(g, components[k][0])
  {
    var c :| c in components && a in c;
    k :| 0 <= k < |components| && components[k] == c;
    ComponentIsCycle(g, c);
    var root := c[0];
    assert root in c && Mutual(g, root, a);
    ReachThenPlus(g, root, a, a);
    var d :| Edge(g, root, d) && Reach(g, d, a);
    ReachTransitive(g, d, a, root);
    assert ReachPlus(g, root, root);
    forall b: Node | Mutual(g, root, b)
      ensures root <= b
    {
      assert b in c;
    }
  }

  lemma RootsAreExact(g: Graph, components: seq<seq<Node>>, roots: seq<Node>)
    requires Components.Total(g)
    requires forall c :: c in components ==> IsComponent(g, c)
    requires Covers(components, g.Keys)
    requires NonEmpty(components) && RootsOfFirst(g, components, |components|, roots)
    ensures forall r :: r in roots <==> CycleRoot(g, r)
    ensures roots == [] <==> Acyclic(g)
  {
    forall r | CycleRoot(g, r)
      ensures r in roots
    {
      var k := CycleHasRoot(g, components, r);
      assert components[k] in components;
      assert components[k][0] in components[k];
      assert Mutual(g, r, components[k][0]);
    }
    if roots != [] {
      assert roots[0] in roots;
      assert ReachPlus(g, roots[0], roots[0]);
    }
    if !Acyclic(g) {
      var a :| ReachPlus(g, a, a);
      var k := CycleHasRoot(g, components, a);
      assert components[k][0] in roots;
    }
  }

  lemma RestrictedCycles(g: Graph, h: Graph, root: Node, a: Node)
    requires forall c, d :: Edge(h, c, d) <==> Reach(g, root, c) && Edge(g, c, d)
    requires forall c :: c in h <==> Reach(g, root, c)
    ensures CycleRoot(h, a) <==> Reach(g, root, a) && CycleRoot(g, a)
  {
    if Reach(g, root, a) {
      ReachInGraph(g, root, a);
      RestrictedPlus(g, h, root, a, a);
      forall b: Node
        ensures Mutual(h, a, b) <==> Mutual(g, a, b)
      {
        RestrictedReach(g, h, root, a, b);
        if Reach(g, a, b) {
          ReachTransitive(g, root, a, b);
          RestrictedReach(g, h, root, b, a);
        }
      }
    }
  }

  lemma RestrictedPlus(g: Graph, h: Graph, root: Node, a: Node, b: Node)
    requires forall c, d :: Edge(h, c, d) <==> Reach(g, root, c) && Edge(g, c, d)
    requires forall c :: c in h <==> Reach(g, root, c)
    requires Reach(g, root, a)
    ensures ReachPlus(h, a, b) <==> ReachPlus(g, a, b)
  {
    forall c: Node | Edge(g, a, c)
      ensures Edge(h, a, c) && (Reach(h, c, b) <==> Reach(g, c, b))
    {
      ReachThenEdge(g, root, a, c);
      RestrictedReach(g, h, root, c, b);
    }
  }

  lemma NoRootsNoRecursion(g: Graph, h: Graph, root: Node)
    requires forall c, d :: Edge(h, c, d) <==> Reach(g, root, c) && Edge(g, c, d)
    requires forall c :: c in h <==> Reach(g, root, c)
    ensures Acyclic(h) <==> forall id :: Reach(g, root, id) ==> !ReachPlus(g, id, id)
  {
    forall id: Node
      ensures ReachPlus(h, id, id) <==> Reach(g, root, id) && ReachPlus(g, id, id)
    {
      if Reach(g, root, id) {
        RestrictedPlus(g, h, root, id, id);
      }
    }
  }

  /** What the walk over the call graph collected. */
  datatype Walk = Walk(
    reached: set<ItemId>,
    blocksOf: map<ItemId, seq<BlockId>>,
    callees: map<ItemId, seq<ItemId>>,
    unkeyed: set<ItemId>)

  ghost predicate IsWalk(functions: Functions, entry: ItemId, w: Walk) {
    && (forall id :: id in w.reached <==> Reach(CallGraph(functions), entry, id))
    && w.blocksOf.Keys == w.reached
    && AllRecorded(functions, w.reached, [], w.blocksOf, w.callees, w.unkeyed)
  }

  lemma WalkRecorded(functions: Functions, entry: ItemId, w: Walk, id: ItemId)
    requires IsWalk(functions, entry, w) && id in w.reached
    ensures WalkHas(functions, id, w.blocksOf, w.callees, w.unkeyed)
  {
  }

  /** Every function named `main`, ascending. */
  method EntriesIn(functions: Functions) returns (found: seq<ItemId>)
    ensures StrictlyAscending(found) && forall id :: id in found <==> IsEntry(functions, id)
  {
    var ids := Ascending(functions.Keys);
    found := [];
    for i := 0 to |ids|
      invariant forall id :: id in found <==> id in ids[..i] && IsEntry(functions, id)
      invariant StrictlyAscending(found)
    {
      PrefixBelow(ids, i);
      assert ids[i] in ids;
      if functions[ids[i]].name == ENTRY_NAME {
        AppendAscending(found, ids[i]);
        found := found + [ids[i]];
      }
    }
    assert ids[..|ids|] == ids;
  }

  lemma EntriesFound(functions: Functions, found: seq<ItemId>)
    requires StrictlyAscending(found) && forall id :: id in found <==> IsEntry(functions, id)
    ensures |found| == 1 ==> SoleEntry(functions, found[0])
    ensures |found| != 1 ==> forall id :: !SoleEntry(functions, id)
    ensures found == [] ==> NoSoleEntry(functions, Refusal(MissingEntry, 0))
    ensures |found| > 1 ==> NoSoleEntry(functions, Refusal(DuplicateEntry, found[1]))
  {
    if |found| == 1 {
      assert found[0] in found;
    } else {
      if |found| > 1 {
        SecondFound(functions, found);
      }
      forall id: ItemId
        ensures !SoleEntry(functions, id)
      {
        if |found| > 1 {
          assert found[0] in found && found[1] in found;
          assert IsEntry(functions, found[0]) && IsEntry(functions, found[1]);
        } else {
          assert !IsEntry(functions, id);
        }
      }
    }
  }

  lemma SecondFound(functions: Functions, found: seq<ItemId>)
    requires StrictlyAscending(found) && (forall id :: id in found <==> IsEntry(functions, id)) && |found| > 1
    ensures SecondEntry(functions, found[1])
  {
    assert found[0] in found && found[1] in found;
    forall other: ItemId | IsEntry(functions, other) && other < found[1]
      ensures other == found[0]
    {
      assert other in found;
      var k :| 0 <= k < |found| && found[k] == other;
    }
  }

  lemma RecordOne(functions: Functions, before: Walk, queue: seq<ItemId>, id: ItemId, blocks: seq<BlockId>,
                  direct: seq<ItemId>, unkeyed: set<ItemId>)
    requires queue != [] && queue[0] == id && id in functions && id in before.reached
    requires AllRecorded(functions, before.reached, queue, before.blocksOf, before.callees, before.unkeyed)
    requires direct == CalleesOf(functions[id])
    requires BlocksKeyed(functions[id]) ==> AreReachableBlocks(BlockMap(functions[id].blocks), blocks)
    requires unkeyed == if BlocksKeyed(functions[id]) then before.unkeyed else before.unkeyed + {id}
    ensures AllRecorded(functions, before.reached, queue[1..], before.blocksOf[id := blocks],
                        before.callees[id := direct], unkeyed)
  {
    var blocksOf := before.blocksOf[id := blocks];
    var callees := before.callees[id := direct];
    forall x | x in blocksOf
      ensures WalkHas(functions, x, blocksOf, callees, unkeyed)
    {
      if x in before.blocksOf {
        assert WalkHas(functions, x, before.blocksOf, before.callees, before.unkeyed);
      }
    }
    assert forall x :: x in queue ==> x == id || x in queue[1..];
  }

  // What the passes over the reachable functions report.

  /** Nothing when `id` is fine, and otherwise one refusal about it, with the code of its first reason. */
  ghost predicate Reports(functions: Functions, build: Build, id: ItemId, isEntry: bool, reported: seq<Refusal>) {
    if FunctionOk(functions, build, id, isEntry) then reported == []
    else |reported| == 1 && reported[0].item == id
         && FunctionRefusedWith(functions, build, id, isEntry, reported[0].code)
  }

  lemma ReportsOne(functions: Functions, build: Build, id: ItemId, isEntry: bool, code: Code)
    returns (reported: seq<Refusal>)
    requires FunctionRefusedWith(functions, build, id, isEntry, code)
    ensures reported == [Refusal(code, id)] && Reports(functions, build, id, isEntry, reported)
  {
    OneCodeEach(functions, build, id, isEntry, code);
    reported := [Refusal(code, id)];
  }

  lemma OneMoreChecked(functions: Functions, build: Build, entry: ItemId, ids: seq<ItemId>, i: nat,
                       before: seq<Refusal>, reported: seq<Refusal>)
    requires i < |ids| && StrictlyAscending(ids)
    requires AreChecked(functions, build, entry, ids[..i], before)
    requires if Unkeyed(functions, ids[i]) then reported == []
             else Reports(functions, build, ids[i], ids[i] == entry, reported)
    ensures AreChecked(functions, build, entry, ids[..i + 1], before + reported)
  {
    PrefixBelow(ids, i);
    if reported == [] {
      assert before + reported == before;
    } else {
      AppendAscending(Items(before), ids[i]);
      assert Items(before + reported) == Items(before) + [ids[i]];
    }
  }

  /** The walk so far: `visited` is what has been taken off the queue, of the order in which it all will be. */
  ghost predicate Visiting(functions: Functions, entry: ItemId, w: Walk, queue: seq<ItemId>, visited: seq<ItemId>) {
    && w.reached <= CallGraph(functions).Keys
    && visited + QueueOrder(CallGraph(functions), queue, w.reached) == CallOrder(functions, entry)
  }

  lemma VisitOne(functions: Functions, entry: ItemId, before: Walk, waiting: seq<ItemId>, visited: seq<ItemId>,
                 after: Walk, queue: seq<ItemId>)
    requires waiting != [] && waiting[0] in functions && Visiting(functions, entry, before, waiting, visited)
    requires after.reached == before.reached + Members(Fresh(CallGraph(functions), CalleesOf(functions[waiting[0]]),
                                                             before.reached))
    requires queue == waiting[1..] + Fresh(CallGraph(functions), CalleesOf(functions[waiting[0]]), before.reached)
    ensures Visiting(functions, entry, after, queue, visited + [waiting[0]])
  {
    var g, direct := CallGraph(functions), CalleesOf(functions[waiting[0]]);
    FreshLeavesFewer(g, direct, before.reached);
    QueueMoves(g, waiting, queue, before.reached, Fresh(g, direct, before.reached), after.reached, visited,
               CallOrder(functions, entry));
  }

  lemma StartsVisiting(functions: Functions, entry: ItemId)
    requires entry in functions
    ensures Visiting(functions, entry, Walk({entry}, map[], map[], {}), [entry], [])
  {
    SearchIsLevelOrder(CallGraph(functions), entry);
    assert [] + CallOrder(functions, entry) == CallOrder(functions, entry);
  }

  lemma NothingLeft(functions: Functions, entry: ItemId, w: Walk, visited: seq<ItemId>)
    requires Visiting(functions, entry, w, [], visited)
    ensures visited == CallOrder(functions, entry)
  {
    assert visited + [] == visited;
  }

  lemma UnkeyedOneMore(functions: Functions, start: seq<Refusal>, visited: seq<ItemId>, id: ItemId)
    ensures start + UnkeyedRefusals(functions, visited + [id])
            == (start + UnkeyedRefusals(functions, visited))
               + if Unkeyed(functions, id) then [Refusal(UnverifiedNir, id)] else []
  {
    assert (visited + [id])[..|visited|] == visited;
  }

  lemma StillWalking(functions: Functions, entry: ItemId, before: Walk, waiting: seq<ItemId>, visitedOne: Walk,
                     w: Walk, queue: seq<ItemId>)
    requires waiting != [] && waiting[0] in functions && Walking(functions, entry, before, waiting)
    requires visitedOne.reached == before.reached && visitedOne.blocksOf.Keys == before.blocksOf.Keys + {waiting[0]}
    requires AllRecorded(functions, visitedOne.reached, waiting[1..], visitedOne.blocksOf, visitedOne.callees,
                         visitedOne.unkeyed)
    requires queue == waiting[1..] + Fresh(CallGraph(functions), CalleesOf(functions[waiting[0]]), before.reached)
    requires w == visitedOne.(reached := before.reached + Members(Fresh(CallGraph(functions),
                                                                        CalleesOf(functions[waiting[0]]),
                                                                        before.reached)))
    requires Frontier(CallGraph(functions), entry, w.reached, queue) && Distinct(queue)
    ensures Walking(functions, entry, w, queue)
  {
    assert waiting[0] in waiting;
    StillRecorded(functions, visitedOne, waiting[1..], w.reached, queue);
    StillFresh(functions, before.blocksOf.Keys, w.blocksOf.Keys, before.reached, waiting, queue);
  }

  /** Newly enqueued functions have not been visited. */
  lemma StillFresh(functions: Functions, before: set<ItemId>, after: set<ItemId>, reached: set<ItemId>,
                   waiting: seq<ItemId>, queue: seq<ItemId>)
    requires waiting != [] && Distinct(waiting) && (forall id :: id in waiting ==> id !in before)
    requires before <= reached && waiting[0] in reached && after == before + {waiting[0]}
    requires forall b :: b in queue ==> b in waiting[1..] || b !in reached
    ensures forall id :: id in queue ==> id !in after
  {
    assert forall id :: id in waiting[1..] ==> id in waiting && id != waiting[0];
  }

  class Validator {
    const functions: Functions
    const build: Build
    var diagnostics: seq<Refusal>

    constructor (functions: Functions, build: Build)
      ensures this.functions == functions && this.build == build && diagnostics == []
    {
      this.functions := functions;
      this.build := build;
      this.diagnostics := [];
    }

    /** The sole entry, or that there is none, or the second one. */
    method FindEntry() returns (r: Result<ItemId, Refusal>)
      ensures r.Ok? ==> SoleEntry(functions, r.value)
      ensures r.Err? ==> (forall id :: !SoleEntry(functions, id)) && NoSoleEntry(functions, r.error)
    {
      var found := EntriesIn(functions);
      EntriesFound(functions, found);
      if found == [] {
        r := Err(Refusal(MissingEntry, 0));
      } else if |found| == 1 {
        r := Ok(found[0]);
      } else {
        r := Err(Refusal(DuplicateEntry, found[1]));
      }
    }

    /** Appends nothing when `id` is fine, and one refusal about `id` when it is not. */
    method ValidateFunction(id: ItemId, isEntry: bool, reachable: seq<BlockId>) returns (ghost reported: seq<Refusal>)
      requires id in functions
      requires BlocksKeyed(functions[id]) ==> AreReachableBlocks(BlockMap(functions[id].blocks), reachable)
      modifies this`diagnostics
      ensures diagnostics == old(diagnostics) + reported && Reports(functions, build, id, isEntry, reported)
    {
      reported := [];
      OriginGate(build, id);
      if !OriginOk(build, id) {
        reported := ReportsOne(functions, build, id, isEntry, MultiModuleBuild);
        diagnostics := diagnostics + [Refusal(MultiModuleBuild, id)];
        return;
      }
      var signature := CheckSignature(functions[id], isEntry);
      SignatureGate(functions[id], isEntry, if signature.Some? then signature.value else UnverifiedNir);
      if signature.Some? {
        reported := ReportsOne(functions, build, id, isEntry, signature.value);
        diagnostics := diagnostics + [Refusal(signature.value, id)];
        return;
      }
      var body := CheckBody(functions, functions[id], reachable);
      if body.Some? {
        reported := ReportsOne(functions, build, id, isEntry, body.value);
        diagnostics := diagnostics + [Refusal(body.value, id)];
      }
    }

    /** Collects the blocks and callees of one function, or reports that its blocks cannot be keyed. */
    method Visit(id: ItemId, before: Walk, ghost queue: seq<ItemId>) returns (w: Walk, direct: seq<ItemId>)
      requires id in functions && id in before.reached
      requires queue != [] && queue[0] == id
      requires AllRecorded(functions, before.reached, queue, before.blocksOf, before.callees, before.unkeyed)
      modifies this`diagnostics
      ensures direct == CalleesOf(functions[id]) && w.reached == before.reached
      ensures w.blocksOf.Keys == before.blocksOf.Keys + {id}
      ensures AllRecorded(functions, w.reached, queue[1..], w.blocksOf, w.callees, w.unkeyed)
      ensures diagnostics == old(diagnostics) + if Unkeyed(functions, id) then [Refusal(UnverifiedNir, id)] else []
    {
      var keyed := BlocksById(functions[id]);
      match keyed
      case Err(code) =>
        diagnostics := diagnostics + [Refusal(code, id)];
        direct := [];
        RecordOne(functions, before, queue, id, [], direct, before.unkeyed + {id});
        w := Walk(before.reached, before.blocksOf[id := []], before.callees[id := []], before.unkeyed + {id});
      case Ok(blocks) =>
        var reachable := ReachableBlocks(blocks);
        ReachableSeqUnique(blocks, reachable);
        direct := DirectCallees(blocks, reachable);
        RecordOne(functions, before, queue, id, reachable, direct, before.unkeyed);
        w := Walk(before.reached, before.blocksOf[id := reachable], before.callees[id := direct], before.unkeyed);
    }

    /** Takes one function off the queue and enqueues the callees not reached before. */
    method Advance(entry: ItemId, before: Walk, waiting: seq<ItemId>, ghost visited: seq<ItemId>)
      returns (w: Walk, queue: seq<ItemId>)
      requires waiting != [] && Walking(functions, entry, before, waiting)
      requires Visiting(functions, entry, before, waiting, visited)
      modifies this`diagnostics
      ensures Walking(functions, entry, w, queue) && Visiting(functions, entry, w, queue, visited + [waiting[0]])
      ensures |functions.Keys - w.reached| < |functions.Keys - before.reached|
              || (w.reached == before.reached && |queue| < |waiting|)
      ensures diagnostics
              == old(diagnostics) + if Unkeyed(functions, waiting[0]) then [Refusal(UnverifiedNir, waiting[0])] else []
    {
      assert waiting[0] in waiting;
      var visitedOne, direct := Visit(waiting[0], before, waiting);
      var reached;
      reached, queue := Discover(functions.Keys, CallGraph(functions), entry, direct, before.reached, waiting);
      w := visitedOne.(reached := reached);
      StillWalking(functions, entry, before, waiting, visitedOne, w, queue);
      VisitOne(functions, entry, before, waiting, visited, w, queue);
    }

    /** One step of the walk, which has reported what it found among `visited` since `start`. */
    method WalkOne(entry: ItemId, before: Walk, waiting: seq<ItemId>, ghost visited: seq<ItemId>,
                   ghost start: seq<Refusal>)
      returns (w: Walk, queue: seq<ItemId>)
      requires waiting != [] && Walking(functions, entry, before, waiting)
      requires Visiting(functions, entry, before, waiting, visited)
      requires diagnostics == start + UnkeyedRefusals(functions, visited)
      modifies this`diagnostics
      ensures Walking(functions, entry, w, queue) && Visiting(functions, entry, w, queue, visited + [waiting[0]])
      ensures |functions.Keys - w.reached| < |functions.Keys - before.reached|
              || (w.reached == before.reached && |queue| < |waiting|)
      ensures diagnostics == start + UnkeyedRefusals(functions, visited + [waiting[0]])
    {
      w, queue := Advance(entry, before, waiting, visited);
      UnkeyedOneMore(functions, start, visited, waiting[0]);
    }

    /** Walks the functions the entry reaches through direct calls, reporting each whose blocks cannot be keyed, level
        by level. */
    method WalkCalls(entry: ItemId) returns (w: Walk)
      requires entry in functions
      modifies this`diagnostics
      ensures IsWalk(functions, entry, w)
      ensures diagnostics == old(diagnostics) + UnkeyedRefusals(functions, CallOrder(functions, entry))
    {
      var queue := [entry];
      w := Walk({entry}, map[], map[], {});
      ghost var visited: seq<ItemId> := [];
      assert diagnostics + [] == diagnostics;
      ReachSelf(CallGraph(functions), entry);
      StartsVisiting(functions, entry);
      while queue != []
        invariant Walking(functions, entry, w, queue) && Visiting(functions, entry, w, queue, visited)
        invariant diagnostics == old(diagnostics) + UnkeyedRefusals(functions, visited)
        decreases |functions.Keys - w.reached|, |queue|
      {
        ghost var id := queue[0];
        w, queue := WalkOne(entry, w, queue, visited, old(diagnostics));
        visited := visited + [id];
      }
      NothingLeft(functions, entry, w, visited);
      WalkDone(functions, entry, w);
    }

    method ValidateWalked(entry: ItemId, id: ItemId, w: Walk) returns (ghost reported: seq<Refusal>)
      requires id in functions && WalkHas(functions, id, w.blocksOf, w.callees, w.unkeyed)
      modifies this`diagnostics
      ensures diagnostics == old(diagnostics) + reported
      ensures if Unkeyed(functions, id) then reported == []
              else Reports(functions, build, id, id == entry, reported)
    {
      reported := [];
      if id !in w.unkeyed {
        reported := ValidateFunction(id, id == entry, w.blocksOf[id]);
      }
    }

    /** Validates the function after the first `i`, whose refusals follow `start`. */
    method CheckNext(entry: ItemId, ids: seq<ItemId>, i: nat, w: Walk, ghost before: seq<Refusal>,
                     ghost start: seq<Refusal>)
      returns (ghost checked: seq<Refusal>)
      requires StrictlyAscending(ids) && i < |ids| && ids[i] in functions
      requires WalkHas(functions, ids[i], w.blocksOf, w.callees, w.unkeyed)
      requires AreChecked(functions, build, entry, ids[..i], before) && diagnostics == start + before
      modifies this`diagnostics
      ensures AreChecked(functions, build, entry, ids[..i + 1], checked) && diagnostics == start + checked
    {
      ghost var reported := ValidateWalked(entry, ids[i], w);
      OneMoreChecked(functions, build, entry, ids, i, before, reported);
      checked := before + reported;
    }

    /** Validates every reachable function whose blocks could be keyed, in ascending order. */
    method ValidateFunctions(entry: ItemId, ids: seq<ItemId>, w: Walk) returns (ghost checked: seq<Refusal>)
      requires StrictlyAscending(ids)
      requires forall id :: id in ids ==> WalkHas(functions, id, w.blocksOf, w.callees, w.unkeyed)
      modifies this`diagnostics
      ensures AreChecked(functions, build, entry, ids, checked)
      ensures diagnostics == old(diagnostics) + checked
    {
      checked := [];
      for i := 0 to |ids|
        invariant AreChecked(functions, build, entry, ids[..i], checked)
        invariant diagnostics == old(diagnostics) + checked
      {
        assert ids[i] in ids;
        checked := CheckNext(entry, ids, i, w, checked, old(diagnostics));
      }
      assert ids[..|ids|] == ids;
    }

    /** Appends a refusal for each cycle root among the reachable functions, and nothing else. */
    method ReportCycles(entry: ItemId, ids: seq<ItemId>, w: Walk) returns (ghost roots: seq<ItemId>)
      requires IsWalk(functions, entry, w) && forall id :: id in ids <==> id in w.reached
      modifies this`diagnostics
      ensures AreCycleRoots(functions, entry, roots)
      ensures diagnostics == old(diagnostics) + CycleRefusals(roots)
      ensures roots == [] <==> NoRecursion(functions, entry)
    {
      ghost var g := CallGraph(functions);
      forall id | id in w.callees
        ensures id in g && w.callees[id] == g[id]
      {
        WalkRecorded(functions, entry, w, id);
      }
      RestrictedEdges(g, entry, w.callees, w.reached);
      var edges := Restrict(w.callees, w.reached);
      var found := CycleRoots(ids, edges);
      forall r: ItemId
        ensures CycleRoot(edges, r) <==> Reach(g, entry, r) && CycleRoot(g, r)
      {
        RestrictedCycles(g, edges, entry, r);
      }
      NoRootsNoRecursion(g, edges, entry);
      diagnostics := diagnostics + CycleRefusals(found);
      roots := found;
    }

    /** Walks, validates and checks for cycles; the reports come in that order. */
    method ValidateFrom(entry: ItemId) returns (w: Walk, ids: seq<ItemId>, ghost f: Findings)
      requires entry in functions
      modifies this`diagnostics
      ensures IsWalk(functions, entry, w) && StrictlyAscending(ids) && forall id :: id in ids <==> id in w.reached
      ensures AreFindings(functions, build, entry, f)
      ensures diagnostics == old(diagnostics) + UnkeyedRefusals(functions, CallOrder(functions, entry)) + f.checked
                             + CycleRefusals(f.roots)
    {
      ghost var checked, roots;
      w := WalkCalls(entry);
      ids := Ascending(w.reached);
      forall id | id in ids
        ensures WalkHas(functions, id, w.blocksOf, w.callees, w.unkeyed)
      {
        WalkRecorded(functions, entry, w, id);
      }
      checked := ValidateFunctions(entry, ids, w);
      roots := ReportCycles(entry, ids, w);
      f := Findings(checked, roots);
      FoundFromWalk(functions, build, entry, w, ids, f);
    }
  }

  lemma FoundFromWalk(functions: Functions, build: Build, entry: ItemId, w: Walk, ids: seq<ItemId>, f: Findings)
    requires IsWalk(functions, entry, w) && forall id :: id in ids <==> id in w.reached
    requires AreChecked(functions, build, entry, ids, f.checked)
    requires AreCycleRoots(functions, entry, f.roots) && (f.roots == [] <==> NoRecursion(functions, entry))
    ensures AreFindings(functions, build, entry, f)
  {
    LevelOrderIsReach(CallGraph(functions), entry);
  }

  /** Decides the subset: its plan, or all the refusals. */
  method Validate(m: Module, build: Build) returns (r: Result<NativePlan, seq<Refusal>>)
    ensures r.Ok? ==> InSubset(m, build, r.value.entry) && IsPlan(m, r.value.entry, r.value)
    ensures r.Ok? ==> NativeProgram(m, build, r.value.entry)
    ensures r.Err? ==> r.error != [] && forall entry :: !InSubset(m, build, entry) && !NativeProgram(m, build, entry)
    ensures AreRefusals(m, build, if r.Ok? then [] else r.error)
  {
    forall entry
      ensures InSubset(m, build, entry) <==> NativeProgram(m, build, entry)
    {
      SubsetIsNative(m, build, entry);
    }
    if build.target != TARGET_TRIPLE {
      return Err([Refusal(UnsupportedTarget, 0)]);
    }
    var functions, repeated := KeyFunctions(m.functions);
    if repeated != [] {
      return Err(RepeatRefusals(repeated));
    }
    var validator := new Validator(functions, build);
    if build.imports > 0 {
      validator.diagnostics := [Refusal(MultiModuleBuild, 0)];
    }
    var found := validator.FindEntry();
    match found {
      case Err(refusal) =>
        r := Err(validator.diagnostics + [refusal]);
        assert r.error == ImportRefusals(build) + [refusal];
      case Ok(entry) =>
        SoleEntryIsUnique(functions, entry);
        var w, ids, findings := validator.ValidateFrom(entry);
        r := Decide(m, build, entry, w, ids, findings, validator.diagnostics);
    }
  }

  /** The plan when nothing was refused. */
  method Decide(m: Module, build: Build, entry: ItemId, w: Walk, ids: seq<ItemId>, ghost f: Findings,
                refusals: seq<Refusal>)
    returns (r: Result<NativePlan, seq<Refusal>>)
    requires build.target == TARGET_TRIPLE && DistinctFunctionIds(m.functions)
    requires SoleEntry(FunctionMap(m.functions), entry) && entry in FunctionMap(m.functions)
    requires IsWalk(FunctionMap(m.functions), entry, w)
    requires StrictlyAscending(ids) && forall id :: id in ids <==> id in w.reached
    requires AreFindings(FunctionMap(m.functions), build, entry, f)
    requires refusals == RefusalsOf(FunctionMap(m.functions), build, entry, f)
    ensures r.Ok? ==> InSubset(m, build, r.value.entry) && IsPlan(m, r.value.entry, r.value)
    ensures r.Err? ==> refusals != [] && forall other :: !InSubset(m, build, other)
    ensures refusals == if r.Ok? then [] else r.error
    ensures AreRefusals(m, build, refusals)
  {
    assert AreRefusals(m, build, refusals);
    AcceptedHasNone(m, build, refusals);
    if refusals != [] {
      return Err(refusals);
    }
    NothingRefused(m, build, entry, f);
    PlanDecided(m, build, entry, w, ids);
    r := Ok(NativePlan(entry, ScalarOf(FunctionMap(m.functions)[entry].returnType).value, ids, w.blocksOf));
  }

  lemma PlanDecided(m: Module, build: Build, entry: ItemId, w: Walk, ids: seq<ItemId>)
    requires InSubset(m, build, entry) && IsWalk(FunctionMap(m.functions), entry, w)
    requires StrictlyAscending(ids) && forall id :: id in ids <==> id in w.reached
    ensures entry in FunctionMap(m.functions) && ScalarOf(FunctionMap(m.functions)[entry].returnType).Some?
    ensures IsPlan(m, entry,
                   NativePlan(entry, ScalarOf(FunctionMap(m.functions)[entry].returnType).value, ids, w.blocksOf))
  {
    var functions := FunctionMap(m.functions);
    EntryHasScalar(m, build, entry);
    forall id | id in ids && id in functions
      ensures AreReachableBlocks(BlockMap(functions[id].blocks), w.blocksOf[id])
    {
      WalkRecorded(functions, entry, w, id);
      assert FunctionOk(functions, build, id, id == entry);
    }
  }

  ghost predicate Walking(functions: Functions, entry: ItemId, w: Walk, queue: seq<ItemId>) {
    && entry in w.reached && entry in functions
    && Distinct(queue) && (forall id :: id in queue ==> id !in w.blocksOf)
    && Frontier(CallGraph(functions), entry, w.reached, queue)
    && AllRecorded(functions, w.reached, queue, w.blocksOf, w.callees, w.unkeyed)
  }

  lemma WalkDone(functions: Functions, entry: ItemId, w: Walk)
    requires Walking(functions, entry, w, [])
    ensures IsWalk(functions, entry, w)
  {
    FrontierDone(CallGraph(functions), entry, w.reached);
    assert w.blocksOf.Keys == w.reached;
  }

  lemma StillRecorded(functions: Functions, w: Walk, waiting: seq<ItemId>, reached: set<ItemId>, queue: seq<ItemId>)
    requires AllRecorded(functions, w.reached, waiting, w.blocksOf, w.callees, w.unkeyed)
    requires w.reached <= reached
    requires forall b :: b in reached ==> b in w.reached || b in queue
    requires forall b :: b in waiting ==> b in queue
    ensures AllRecorded(functions, reached, queue, w.blocksOf, w.callees, w.unkeyed)
  {
  }
}
