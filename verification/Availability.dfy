/** What is defined or stored before a position, stated over the instructions along every way of getting there. */
module Availability {
  import opened Nir
  import opened Graphs
  import opened Dataflow
  import opened Wrappers
  import opened Capability
  import opened Gates
  import opened Refusals

  predicate LoadsFrom(instruction: Instruction, slot: ValueId) {
    instruction.Value? && instruction.kind.Load? && instruction.kind.slot == slot
  }

  /** Along `p`, some instruction before position `i` of the last block stores into `s`. */
  ghost predicate StoredAlong(blocks: Blocks, p: seq<BlockId>, i: nat, s: ValueId) {
    exists n, j :: 0 <= n < |p| && p[n] in blocks && 0 <= j < |blocks[p[n]].instructions| && (n == |p| - 1 ==> j < i)
                   && StoresInto(blocks[p[n]].instructions[j], s)
  }

  /** Along `p`, some instruction before position `i` of the last block defines `v`. */
  ghost predicate DefinedAlong(blocks: Blocks, p: seq<BlockId>, i: nat, v: ValueId) {
    exists n, j :: 0 <= n < |p| && p[n] in blocks && 0 <= j < |blocks[p[n]].instructions| && (n == |p| - 1 ==> j < i)
                   && DefinesValue(blocks[p[n]].instructions[j], v)
  }

  ghost predicate AlwaysStored(blocks: Blocks, b: BlockId, i: nat, s: ValueId) {
    forall p :: FlowsAlong(blocks, p, b) ==> StoredAlong(blocks, p, i, s)
  }

  ghost predicate AlwaysDefined(blocks: Blocks, b: BlockId, i: nat, v: ValueId) {
    forall p :: FlowsAlong(blocks, p, b) ==> DefinedAlong(blocks, p, i, v)
  }

  lemma StoredAlongParts(blocks: Blocks, p: seq<BlockId>, b: BlockId, i: nat, s: ValueId)
    requires FlowsAlong(blocks, p, b) && i <= |blocks[b].instructions|
    ensures StoredAlong(blocks, p, i, s)
            <==> s in StoredIn(blocks[b].instructions[..i]) || GeneratedBefore(blocks, StoresAfter, s, p)
  {
    var here := blocks[b].instructions[..i];
    if s in StoredIn(here) {
      var j :| 0 <= j < |here| && here[j].Store? && here[j].slot == s;
      assert StoresInto(blocks[p[|p| - 1]].instructions[j], s);
    }
    if GeneratedBefore(blocks, StoresAfter, s, p) {
      var n :| 0 <= n < |p| - 1 && p[n] in blocks && s in StoresAfter({}, blocks[p[n]]);
      var j :| 0 <= j < |blocks[p[n]].instructions| && StoresInto(blocks[p[n]].instructions[j], s);
      assert StoresInto(blocks[p[n]].instructions[j], s);
    }
    if StoredAlong(blocks, p, i, s) {
      var n, j :| 0 <= n < |p| && p[n] in blocks && 0 <= j < |blocks[p[n]].instructions| && (n == |p| - 1 ==> j < i)
                  && StoresInto(blocks[p[n]].instructions[j], s);
      if n == |p| - 1 {
        assert here[j] == blocks[b].instructions[j];
      } else {
        assert s in StoresAfter({}, blocks[p[n]]);
      }
    }
  }

  lemma DefinedAlongParts(blocks: Blocks, p: seq<BlockId>, b: BlockId, i: nat, v: ValueId)
    requires FlowsAlong(blocks, p, b) && i <= |blocks[b].instructions|
    ensures DefinedAlong(blocks, p, i, v)
            <==> v in DefinedIn(blocks[b].instructions[..i]) || GeneratedBefore(blocks, DefinesAfter, v, p)
  {
    var here := blocks[b].instructions[..i];
    if v in DefinedIn(here) {
      var j :| 0 <= j < |here| && here[j].Value? && here[j].result == v;
      assert DefinesValue(blocks[p[|p| - 1]].instructions[j], v);
    }
    if GeneratedBefore(blocks, DefinesAfter, v, p) {
      var n :| 0 <= n < |p| - 1 && p[n] in blocks && v in DefinesAfter({}, blocks[p[n]]);
      var j :| 0 <= j < |blocks[p[n]].instructions| && DefinesValue(blocks[p[n]].instructions[j], v);
      assert DefinesValue(blocks[p[n]].instructions[j], v);
    }
    if DefinedAlong(blocks, p, i, v) {
      var n, j :| 0 <= n < |p| && p[n] in blocks && 0 <= j < |blocks[p[n]].instructions| && (n == |p| - 1 ==> j < i)
                  && DefinesValue(blocks[p[n]].instructions[j], v);
      if n == |p| - 1 {
        assert here[j] == blocks[b].instructions[j];
      } else {
        assert v in DefinesAfter({}, blocks[p[n]]);
      }
    }
  }

  /** A slot is stored at a position exactly when every way of getting there passes a store into it. */
  lemma StoredMeansStoredAlong(c: Context, b: BlockId, i: nat, s: ValueId)
    requires b in c.blocks && i <= |c.blocks[b].instructions| && s in c.slots
    ensures s in StoredAt(c, b, i) <==> AlwaysStored(c.blocks, b, i, s)
  {
    var here := c.blocks[b].instructions[..i];
    forall p
      ensures PathFromTo(Cfg(c.blocks), p, ENTRY_BLOCK, b) <==> FlowsAlong(c.blocks, p, b)
      ensures FlowsAlong(c.blocks, p, b) ==>
                (StoredAlong(c.blocks, p, i, s)
                 <==> s in StoredIn(here) || GeneratedBefore(c.blocks, StoresAfter, s, p))
    {
      PathsAreFlows(c.blocks, p, b);
      if FlowsAlong(c.blocks, p, b) { StoredAlongParts(c.blocks, p, b, i, s); }
    }
  }

  /** A value is available at a position exactly when it is a parameter or every way there passes its definition. */
  lemma LiveMeansDefinedAlong(c: Context, b: BlockId, i: nat, v: ValueId)
    requires b in c.blocks && i <= |c.blocks[b].instructions|
    ensures v in LiveAt(c, b, i)
            <==> v in c.types && (v in ParameterValues(c.current) || AlwaysDefined(c.blocks, b, i, v))
  {
    var here := c.blocks[b].instructions[..i];
    forall p
      ensures PathFromTo(Cfg(c.blocks), p, ENTRY_BLOCK, b) <==> FlowsAlong(c.blocks, p, b)
      ensures FlowsAlong(c.blocks, p, b) ==>
                (DefinedAlong(c.blocks, p, i, v)
                 <==> v in DefinedIn(here) || GeneratedBefore(c.blocks, DefinesAfter, v, p))
    {
      PathsAreFlows(c.blocks, p, b);
      if FlowsAlong(c.blocks, p, b) { DefinedAlongParts(c.blocks, p, b, i, v); }
    }
  }

  /** Whichever way control gets to a load, it has passed a store into the loaded slot. */
  ghost predicate EveryLoadFollowsAStore(blocks: Blocks) {
    forall b, i, s, p ::
      FlowsAlong(blocks, p, b) && 0 <= i < |blocks[b].instructions| && LoadsFrom(blocks[b].instructions[i], s) ==>
        StoredAlong(blocks, p, i, s)
  }

  ghost predicate LoadsKnownSlots(c: Context) {
    forall b, i :: BlockReachable(c.blocks, b) && b in c.blocks && 0 <= i < |c.blocks[b].instructions|
                   && c.blocks[b].instructions[i].Value? && c.blocks[b].instructions[i].kind.Load? ==>
                     c.blocks[b].instructions[i].kind.slot in c.slots
  }

  /** With every load reading a slot, the analysis accepts exactly when every load follows a store on every path. */
  lemma InitializedMeansStored(c: Context)
    requires LoadsKnownSlots(c)
    ensures AllLoadsInitialized(c) <==> EveryLoadFollowsAStore(c.blocks)
  {
    if AllLoadsInitialized(c) {
      forall b, i, s, p | FlowsAlong(c.blocks, p, b) && 0 <= i < |c.blocks[b].instructions|
                          && LoadsFrom(c.blocks[b].instructions[i], s)
        ensures StoredAlong(c.blocks, p, i, s)
      {
        ReachedIsFlowedTo(c.blocks, b);
        assert LoadsInitialized(c, b);
        StoredMeansStoredAlong(c, b, i, s);
      }
    }
    if EveryLoadFollowsAStore(c.blocks) {
      forall b | BlockReachable(c.blocks, b) && b in c.blocks
        ensures LoadsInitialized(c, b)
      {
        LoadsFollowStores(c, b);
      }
    }
  }

  lemma LoadsFollowStores(c: Context, b: BlockId)
    requires LoadsKnownSlots(c) && EveryLoadFollowsAStore(c.blocks) && BlockReachable(c.blocks, b) && b in c.blocks
    ensures LoadsInitialized(c, b)
  {
    forall i | 0 <= i < |c.blocks[b].instructions| && c.blocks[b].instructions[i].Value?
               && c.blocks[b].instructions[i].kind.Load?
      ensures c.blocks[b].instructions[i].kind.slot in StoredAt(c, b, i)
    {
      var s := c.blocks[b].instructions[i].kind.slot;
      assert LoadsFrom(c.blocks[b].instructions[i], s);
      StoredMeansStoredAlong(c, b, i, s);
    }
  }

  // Acceptance, over fields and paths.

  /** The values that can be used at a position: parameters, and what every way of getting there defines. */
  ghost function AvailableAt(c: Context, b: BlockId, i: nat): Values {
    set v | v in c.types && (v in ParameterValues(c.current) || AlwaysDefined(c.blocks, b, i, v))
  }

  lemma AvailableIsLive(c: Context, b: BlockId, i: nat)
    requires b in c.blocks && i <= |c.blocks[b].instructions|
    ensures AvailableAt(c, b, i) == LiveAt(c, b, i)
  {
    forall v
      ensures v in AvailableAt(c, b, i) <==> v in LiveAt(c, b, i)
    {
      LiveMeansDefinedAlong(c, b, i, v);
    }
  }

  ghost predicate PositionNative(c: Context, b: BlockId, i: int) {
    b in c.blocks && 0 <= i < |c.blocks[b].instructions| ==>
      forall code :: !InstructionRefused(c, AvailableAt(c, b, i), c.blocks[b].instructions[i], code)
  }

  ghost predicate ExitNative(c: Context, b: BlockId) {
    b in c.blocks ==>
      forall code :: !TerminatorRefused(c, AvailableAt(c, b, |c.blocks[b].instructions|), c.blocks[b].terminator, code)
  }

  ghost predicate BlockNative(c: Context, b: BlockId) {
    (forall i {:trigger PositionNative(c, b, i)} :: PositionNative(c, b, i)) && ExitNative(c, b)
  }

  /** Nothing that control can flow to is refused, and every load follows a store. */
  ghost predicate NativeContext(c: Context) {
    && (forall b, p :: FlowsAlong(c.blocks, p, b) ==> BlockNative(c, b))
    && EveryLoadFollowsAStore(c.blocks)
  }

  ghost predicate NativeBody(functions: Functions, f: Function) {
    && BlocksKeyed(f) && SingleDefinitions(f, BlockMap(f.blocks))
    && exists c :: IsContext(functions, f, c) && NativeContext(c)
  }

  lemma InstructionNative(c: Context, live: Values, instruction: Instruction)
    ensures CheckInstruction(c, live, instruction) == None
            <==> forall code :: !InstructionRefused(c, live, instruction, code)
  {
    forall code
      ensures CheckInstruction(c, live, instruction) == Some(code) <==> InstructionRefused(c, live, instruction, code)
    {
      InstructionGate(c, live, instruction, code);
    }
  }

  lemma TerminatorNative(c: Context, live: Values, terminator: Terminator)
    ensures CheckTerminator(c, live, terminator) == None
            <==> forall code :: !TerminatorRefused(c, live, terminator, code)
  {
    forall code
      ensures CheckTerminator(c, live, terminator) == Some(code) <==> TerminatorRefused(c, live, terminator, code)
    {
      TerminatorGate(c, live, terminator, code);
    }
  }

  lemma BlockNativeMeansChecked(c: Context, b: BlockId)
    requires b in c.blocks
    ensures BlockNative(c, b) <==> ChecksPass(c, b)
  {
    var n := |c.blocks[b].instructions|;
    forall i
      ensures PositionNative(c, b, i) <==> Passes(c, b, i)
    {
      if 0 <= i < n {
        AvailableIsLive(c, b, i);
        InstructionNative(c, LiveAt(c, b, i), c.blocks[b].instructions[i]);
      }
    }
    AvailableIsLive(c, b, n);
    TerminatorNative(c, LiveAt(c, b, n), c.blocks[b].terminator);
  }

  lemma BlocksNativeMeansChecked(c: Context)
    ensures AllChecksPass(c) <==> forall b, p :: FlowsAlong(c.blocks, p, b) ==> BlockNative(c, b)
  {
    forall b
      ensures BlockReachable(c.blocks, b) <==> exists p :: FlowsAlong(c.blocks, p, b)
      ensures b in c.blocks ==> (BlockNative(c, b) <==> ChecksPass(c, b))
    {
      ReachedIsFlowedTo(c.blocks, b);
      if b in c.blocks { BlockNativeMeansChecked(c, b); }
    }
  }

  lemma CheckedLoadsKnowSlots(c: Context)
    requires AllChecksPass(c)
    ensures LoadsKnownSlots(c)
  {
    forall b, i | BlockReachable(c.blocks, b) && b in c.blocks && 0 <= i < |c.blocks[b].instructions|
                  && c.blocks[b].instructions[i].Value? && c.blocks[b].instructions[i].kind.Load?
      ensures c.blocks[b].instructions[i].kind.slot in c.slots
    {
      assert Passes(c, b, i);
    }
  }

  /** The checks accept the facts of a body exactly when nothing in it is refused and its loads follow stores. */
  lemma ContextOkMeansNative(c: Context)
    ensures ContextOk(c) <==> NativeContext(c)
  {
    ContextOkParts(c);
    BlocksNativeMeansChecked(c);
    if AllChecksPass(c) {
      CheckedLoadsKnowSlots(c);
      InitializedMeansStored(c);
    }
  }

  lemma BodyOkMeansNative(functions: Functions, f: Function)
    ensures BodyOk(functions, f) <==> NativeBody(functions, f)
  {
    forall c
      ensures ContextOk(c) <==> NativeContext(c)
    {
      ContextOkMeansNative(c);
    }
  }

  /** A function the backend compiles: declared in the source being built, with a native signature and a native body. */
  ghost predicate NativeFunction(functions: Functions, build: Build, id: ItemId, isEntry: bool) {
    && id in functions && !ForeignOrigin(build, id)
    && NativeSignature(functions[id], isEntry) && NativeBody(functions, functions[id])
  }

  lemma FunctionOkMeansNative(functions: Functions, build: Build, id: ItemId, isEntry: bool)
    ensures FunctionOk(functions, build, id, isEntry) <==> NativeFunction(functions, build, id, isEntry)
  {
    OriginGate(build, id);
    if id in functions {
      SignatureGate(functions[id], isEntry, UnverifiedNir);
      BodyOkMeansNative(functions, functions[id]);
    }
  }

  /** A program the backend compiles: for its one target, without imports, from the one `main`, native throughout what
      that reaches, and free of recursion there. */
  ghost predicate NativeProgram(m: Module, build: Build, entry: ItemId) {
    var functions := FunctionMap(m.functions);
    && build.target == "x86_64-unknown-linux-gnu" && build.imports == 0
    && DistinctFunctionIds(m.functions)
    && (forall id :: id in functions && functions[id].name == "main" <==> id == entry)
    && (forall id :: Reach(CallGraph(functions), entry, id) ==>
          NativeFunction(functions, build, id, id == entry) && !ReachPlus(CallGraph(functions), id, id))
  }

  lemma SubsetIsNative(m: Module, build: Build, entry: ItemId)
    ensures InSubset(m, build, entry) <==> NativeProgram(m, build, entry)
  {
    var functions := FunctionMap(m.functions);
    forall id
      ensures FunctionOk(functions, build, id, id == entry) <==> NativeFunction(functions, build, id, id == entry)
      ensures IsEntry(functions, id) <==> id in functions && functions[id].name == "main"
    {
      FunctionOkMeansNative(functions, build, id, id == entry);
    }
  }
}
