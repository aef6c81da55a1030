/** Why a program is refused: which checks fail, which of them is reported, and that there is never a choice. */
module Refusals {
  import opened Wrappers
  import opened Nir
  import opened Graphs
  import opened Ordered
  import opened Dataflow
  import opened BreadthFirst
  import opened Components
  import opened Capability
  import opened Gates

  // One function.

  /** The instruction at position `i` passes its check. */
  ghost predicate Passes(c: Context, b: BlockId, i: int)
    requires b in c.blocks
  {
    0 <= i < |c.blocks[b].instructions| ==>
      CheckInstruction(c, LiveAt(c, b, i), c.blocks[b].instructions[i]) == None
  }

  ghost predicate ChecksPass(c: Context, b: BlockId)
    requires b in c.blocks
  {
    && (forall i {:trigger Passes(c, b, i)} :: 0 <= i < |c.blocks[b].instructions| ==> Passes(c, b, i))
    && CheckTerminator(c, LiveAt(c, b, |c.blocks[b].instructions|), c.blocks[b].terminator) == None
  }

  /** Every load of the block reads a slot stored on every path to it. */
  ghost predicate LoadsInitialized(c: Context, b: BlockId)
    requires b in c.blocks
  {
    forall i :: 0 <= i < |c.blocks[b].instructions| && c.blocks[b].instructions[i].Value?
                && c.blocks[b].instructions[i].kind.Load? ==>
                  c.blocks[b].instructions[i].kind.slot in StoredAt(c, b, i)
  }

  ghost predicate AllChecksPass(c: Context) {
    forall b :: BlockReachable(c.blocks, b) && b in c.blocks ==> ChecksPass(c, b)
  }

  ghost predicate AllLoadsInitialized(c: Context) {
    forall b :: BlockReachable(c.blocks, b) && b in c.blocks ==> LoadsInitialized(c, b)
  }

  /** Position `i` is the first of block `b` whose check fails, and fails with `code`; the terminator comes last. */
  ghost predicate FailsFirstAt(c: Context, b: BlockId, i: int, code: Code)
    requires b in c.blocks
  {
    && 0 <= i <= |c.blocks[b].instructions|
    && (forall k {:trigger Passes(c, b, k)} :: 0 <= k < i ==> Passes(c, b, k))
    && if i < |c.blocks[b].instructions|
       then InstructionRefused(c, LiveAt(c, b, i), c.blocks[b].instructions[i], code)
       else TerminatorRefused(c, LiveAt(c, b, i), c.blocks[b].terminator, code)
  }

  /** What a failing check answers is the code its position is refused with. */
  lemma FailureHasItsCode(c: Context, b: BlockId, i: nat, code: Code)
    requires b in c.blocks && i <= |c.blocks[b].instructions|
    requires forall k {:trigger Passes(c, b, k)} :: 0 <= k < i ==> Passes(c, b, k)
    ensures FailsFirstAt(c, b, i, code)
            <==> Some(code) == if i < |c.blocks[b].instructions|
                               then CheckInstruction(c, LiveAt(c, b, i), c.blocks[b].instructions[i])
                               else CheckTerminator(c, LiveAt(c, b, i), c.blocks[b].terminator)
  {
    if i < |c.blocks[b].instructions| {
      InstructionGate(c, LiveAt(c, b, i), c.blocks[b].instructions[i], code);
    } else {
      TerminatorGate(c, LiveAt(c, b, i), c.blocks[b].terminator, code);
    }
  }

  /** Block `b` is the first, ascending, in which a check fails, and the first to fail there does so with `code`. */
  ghost predicate FailsFirstIn(c: Context, b: BlockId, code: Code) {
    && BlockReachable(c.blocks, b) && b in c.blocks && (exists i :: FailsFirstAt(c, b, i, code))
    && forall a: BlockId :: BlockReachable(c.blocks, a) && a in c.blocks && a < b ==> ChecksPass(c, a)
  }

  /** Loads are only looked at once every check has passed. */
  ghost predicate ContextRefusedWith(c: Context, code: Code) {
    || (exists b :: FailsFirstIn(c, b, code))
    || (AllChecksPass(c) && !AllLoadsInitialized(c) && code == UninitializedSlotLoad)
  }

  ghost predicate BodyRefusedWith(functions: Functions, f: Function, code: Code) {
    if !BlocksKeyed(f) || !SingleDefinitions(f, BlockMap(f.blocks)) then code == UnverifiedNir
    else exists c :: IsContext(functions, f, c) && ContextRefusedWith(c, code)
  }

  /** `code` is the first of its reasons: its origin, its signature, its body. */
  ghost predicate FunctionRefusedWith(functions: Functions, build: Build, id: ItemId, isEntry: bool, code: Code) {
    && id in functions
    && if ForeignOrigin(build, id) then code == MultiModuleBuild
       else if !NativeSignature(functions[id], isEntry) then SignatureRefused(functions[id], isEntry, code)
       else BodyRefusedWith(functions, functions[id], code)
  }

  lemma ContextUnique(functions: Functions, f: Function, c: Context, d: Context)
    requires IsContext(functions, f, c) && IsContext(functions, f, d)
    ensures c == d
  {
    forall v | v in c.types
      ensures v in d.types && d.types[v] == c.types[v]
    {
      assert Declares(f, c.blocks, v, c.types[v]);
    }
    forall v | v in d.types
      ensures v in c.types
    {
      assert Declares(f, c.blocks, v, d.types[v]);
    }
    assert c.types == d.types;
    assert c.slots == d.slots;
  }

  lemma FirstFailureDecides(c: Context, b: BlockId, i: int, code: Code)
    requires b in c.blocks && FailsFirstAt(c, b, i, code)
    ensures !ChecksPass(c, b) && code != RecursiveCallGraph
    ensures forall j, other :: FailsFirstAt(c, b, j, other) ==> j == i && other == code
  {
    FailureHasItsCode(c, b, i, code);
    if i < |c.blocks[b].instructions| {
      assert !Passes(c, b, i);
    }
    forall j, other | FailsFirstAt(c, b, j, other)
      ensures j == i && other == code
    {
      FailureHasItsCode(c, b, j, other);
      if j < |c.blocks[b].instructions| {
        assert !Passes(c, b, j);
      }
    }
  }

  lemma BlockDecides(c: Context, b: BlockId, code: Code)
    requires FailsFirstIn(c, b, code)
    ensures !AllChecksPass(c) && code != RecursiveCallGraph
    ensures forall d, other :: FailsFirstIn(c, d, other) ==> d == b && other == code
  {
    var i :| FailsFirstAt(c, b, i, code);
    FirstFailureDecides(c, b, i, code);
    forall d, other | FailsFirstIn(c, d, other)
      ensures d == b && other == code
    {
      var j :| FailsFirstAt(c, d, j, other);
      FirstFailureDecides(c, d, j, other);
    }
  }

  lemma BlockOkParts(c: Context, b: BlockId)
    requires b in c.blocks
    ensures BlockOk(c, b) <==> ChecksPass(c, b) && LoadsInitialized(c, b)
  {
    if ChecksPass(c, b) && LoadsInitialized(c, b) {
      forall i | 0 <= i < |c.blocks[b].instructions|
        ensures InstructionOk(c, b, i)
      {
        assert Passes(c, b, i);
      }
    }
    if BlockOk(c, b) {
      forall i | 0 <= i < |c.blocks[b].instructions|
        ensures Passes(c, b, i)
      {
        assert InstructionOk(c, b, i);
      }
      forall i | 0 <= i < |c.blocks[b].instructions| && c.blocks[b].instructions[i].Value?
                 && c.blocks[b].instructions[i].kind.Load?
        ensures c.blocks[b].instructions[i].kind.slot in StoredAt(c, b, i)
      {
        assert InstructionOk(c, b, i);
      }
    }
  }

  lemma ContextOkParts(c: Context)
    ensures ContextOk(c) <==> AllChecksPass(c) && AllLoadsInitialized(c)
  {
    forall b | b in c.blocks
      ensures BlockOk(c, b) <==> ChecksPass(c, b) && LoadsInitialized(c, b)
    {
      BlockOkParts(c, b);
    }
  }

  /** The facts of one body are refused with at most one code, and not when they are in order. */
  lemma ContextDecides(c: Context, code: Code)
    requires ContextRefusedWith(c, code)
    ensures !ContextOk(c) && code != RecursiveCallGraph
    ensures forall other :: ContextRefusedWith(c, other) ==> other == code
  {
    ContextOkParts(c);
    if b :| FailsFirstIn(c, b, code) {
      BlockDecides(c, b, code);
    }
    forall other | ContextRefusedWith(c, other)
      ensures other == code
    {
      if d :| FailsFirstIn(c, d, other) {
        BlockDecides(c, d, other);
      }
    }
  }

  lemma BodyDecides(functions: Functions, f: Function, code: Code)
    requires BodyRefusedWith(functions, f, code)
    ensures !BodyOk(functions, f) && code != RecursiveCallGraph
    ensures forall other :: BodyRefusedWith(functions, f, other) ==> other == code
  {
    if BlocksKeyed(f) && SingleDefinitions(f, BlockMap(f.blocks)) {
      var c :| IsContext(functions, f, c) && ContextRefusedWith(c, code);
      ContextDecides(c, code);
      forall d | IsContext(functions, f, d)
        ensures d == c
      {
        ContextUnique(functions, f, c, d);
      }
    }
  }

  lemma SignatureDecides(f: Function, isEntry: bool, code: Code)
    requires SignatureRefused(f, isEntry, code)
    ensures CheckSignature(f, isEntry) == Some(code) && code != RecursiveCallGraph
    ensures forall other :: SignatureRefused(f, isEntry, other) ==> other == code
  {
    SignatureGate(f, isEntry, code);
    forall other | SignatureRefused(f, isEntry, other)
      ensures other == code
    {
      SignatureGate(f, isEntry, other);
    }
  }

  /** A refused function has one code, which is never that of a call-graph cycle; an accepted one has none. */
  lemma OneCodeEach(functions: Functions, build: Build, id: ItemId, isEntry: bool, code: Code)
    requires FunctionRefusedWith(functions, build, id, isEntry, code)
    ensures !FunctionOk(functions, build, id, isEntry) && code != RecursiveCallGraph
    ensures forall other :: FunctionRefusedWith(functions, build, id, isEntry, other) ==> other == code
  {
    OriginGate(build, id);
    SignatureGate(functions[id], isEntry, code);
    if !ForeignOrigin(build, id) {
      if NativeSignature(functions[id], isEntry) {
        BodyDecides(functions, functions[id], code);
      } else {
        SignatureDecides(functions[id], isEntry, code);
      }
    }
  }

  // One program.

  /** `root` is the smallest member of a set of functions that call each other. */
  ghost predicate CycleRoot(g: Graph, root: ItemId) {
    root in g && ReachPlus(g, root, root) && forall b :: Mutual(g, root, b) ==> root <= b
  }

  /** One refusal per cycle, at its root. */
  function CycleRefusals(roots: seq<ItemId>): (r: seq<Refusal>)
    ensures |r| == |roots| && forall i :: 0 <= i < |r| ==> r[i] == Refusal(RecursiveCallGraph, roots[i])
  {
    seq(|roots|, i requires 0 <= i < |roots| => Refusal(RecursiveCallGraph, roots[i]))
  }

  /** `roots` are the cycle roots among the functions the entry reaches, ascending. */
  ghost predicate AreCycleRoots(functions: Functions, entry: ItemId, roots: seq<ItemId>) {
    && StrictlyAscending(roots)
    && forall r :: r in roots <==> Reach(CallGraph(functions), entry, r) && CycleRoot(CallGraph(functions), r)
  }

  ghost predicate NoRecursion(functions: Functions, entry: ItemId) {
    forall id :: Reach(CallGraph(functions), entry, id) ==> !ReachPlus(CallGraph(functions), id, id)
  }

  function Items(refusals: seq<Refusal>): (r: seq<ItemId>)
    ensures |r| == |refusals| && forall i :: 0 <= i < |r| ==> r[i] == refusals[i].item
  {
    seq(|refusals|, i requires 0 <= i < |refusals| => refusals[i].item)
  }

  /** The functions the entry reaches, in the order of the walk over its calls. */
  ghost function CallOrder(functions: Functions, entry: ItemId): seq<ItemId> {
    LevelOrder(CallGraph(functions), entry)
  }

  ghost predicate Unkeyed(functions: Functions, id: ItemId) {
    id in functions && !BlocksKeyed(functions[id])
  }

  /** One refusal for each of `ids` whose blocks cannot be keyed, in their order. */
  ghost function UnkeyedRefusals(functions: Functions, ids: seq<ItemId>): seq<Refusal> {
    if ids == [] then []
    else
      var last := |ids| - 1;
      UnkeyedRefusals(functions, ids[..last])
        + (if Unkeyed(functions, ids[last]) then [Refusal(UnverifiedNir, ids[last])] else [])
  }

  ghost predicate Refused(functions: Functions, build: Build, entry: ItemId, id: ItemId) {
    !Unkeyed(functions, id) && !FunctionOk(functions, build, id, id == entry)
  }

  /** One refusal for each refused function of `ids`, ascending, with the code of its first reason. */
  ghost predicate AreChecked(functions: Functions, build: Build, entry: ItemId, ids: seq<ItemId>,
                             refusals: seq<Refusal>)
  {
    && StrictlyAscending(Items(refusals))
    && (forall id :: id in Items(refusals) <==> id in ids && Refused(functions, build, entry, id))
    && forall i {:trigger refusals[i]} :: 0 <= i < |refusals| ==>
         FunctionRefusedWith(functions, build, refusals[i].item, refusals[i].item == entry, refusals[i].code)
  }

  /** What the passes over the reachable functions find, apart from the functions whose blocks cannot be keyed. */
  datatype Findings = Findings(checked: seq<Refusal>, roots: seq<ItemId>)

  ghost predicate AreFindings(functions: Functions, build: Build, entry: ItemId, f: Findings) {
    && AreChecked(functions, build, entry, CallOrder(functions, entry), f.checked)
    && AreCycleRoots(functions, entry, f.roots)
    && (f.roots == [] <==> NoRecursion(functions, entry))
  }

  function ImportRefusals(build: Build): seq<Refusal> {
    if build.imports > 0 then [Refusal(MultiModuleBuild, 0)] else []
  }

  /** The refusals of a module with one entry: for its imports, for unkeyed functions as the walk meets them, for each
      other refused function, ascending, and for each cycle, at its smallest member, ascending. */
  ghost function RefusalsOf(functions: Functions, build: Build, entry: ItemId, f: Findings): seq<Refusal> {
    ImportRefusals(build) + UnkeyedRefusals(functions, CallOrder(functions, entry)) + f.checked + CycleRefusals(f.roots)
  }

  /** The ids that an earlier function has too, one for each function that repeats one. */
  ghost function RepeatedIds(functions: seq<Function>): seq<ItemId> {
    if functions == [] then []
    else
      var last := |functions| - 1;
      RepeatedIds(functions[..last])
        + (if exists j :: 0 <= j < last && functions[j].id == functions[last].id then [functions[last].id] else [])
  }

  function RepeatRefusals(ids: seq<ItemId>): (r: seq<Refusal>)
    ensures |r| == |ids| && forall i :: 0 <= i < |r| ==> r[i] == Refusal(UnverifiedNir, ids[i])
  {
    seq(|ids|, i requires 0 <= i < |ids| => Refusal(UnverifiedNir, ids[i]))
  }

  /** `id` is the second smallest function named `main`. */
  ghost predicate SecondEntry(functions: Functions, id: ItemId) {
    && IsEntry(functions, id)
    && exists first: ItemId :: first < id && IsEntry(functions, first)
                               && forall other: ItemId :: IsEntry(functions, other) && other < id ==> other == first
  }

  /** There is no entry, or a second one, which the refusal is about. */
  ghost predicate NoSoleEntry(functions: Functions, refusal: Refusal) {
    || ((forall id :: !IsEntry(functions, id)) && refusal == Refusal(MissingEntry, 0))
    || (refusal.code == DuplicateEntry && SecondEntry(functions, refusal.item))
  }

  /** `refusals` are the refusals of the module keyed by id. */
  ghost predicate AreRefusalsOfKeyed(functions: Functions, build: Build, refusals: seq<Refusal>) {
    || (exists entry, f :: SoleEntry(functions, entry) && AreFindings(functions, build, entry, f)
                           && refusals == RefusalsOf(functions, build, entry, f))
    || (exists refusal :: NoSoleEntry(functions, refusal) && refusals == ImportRefusals(build) + [refusal])
  }

  /** `refusals` are all the reasons the module is refused, in order; none if it is accepted. */
  ghost predicate AreRefusals(m: Module, build: Build, refusals: seq<Refusal>) {
    if build.target != TARGET_TRIPLE then refusals == [Refusal(UnsupportedTarget, 0)]
    else if !DistinctFunctionIds(m.functions) then refusals == RepeatRefusals(RepeatedIds(m.functions))
    else AreRefusalsOfKeyed(FunctionMap(m.functions), build, refusals)
  }

  // There is never a choice.

  lemma CheckedUnique(functions: Functions, build: Build, entry: ItemId, ids: seq<ItemId>, a: seq<Refusal>,
                      b: seq<Refusal>)
    requires AreChecked(functions, build, entry, ids, a) && AreChecked(functions, build, entry, ids, b)
    ensures a == b
  {
    AscendingUnique(Items(a), Items(b));
    forall i | 0 <= i < |a|
      ensures a[i] == b[i]
    {
      assert Items(a)[i] == Items(b)[i];
      OneCodeEach(functions, build, a[i].item, a[i].item == entry, a[i].code);
    }
  }

  lemma FindingsUnique(functions: Functions, build: Build, entry: ItemId, f: Findings, g: Findings)
    requires AreFindings(functions, build, entry, f) && AreFindings(functions, build, entry, g)
    ensures f == g
  {
    CheckedUnique(functions, build, entry, CallOrder(functions, entry), f.checked, g.checked);
    AscendingUnique(f.roots, g.roots);
  }

  lemma SoleEntryIsUnique(functions: Functions, entry: ItemId)
    requires SoleEntry(functions, entry)
    ensures entry in functions
    ensures forall other :: SoleEntry(functions, other) ==> other == entry
    ensures forall refusal :: !NoSoleEntry(functions, refusal)
  {
    assert IsEntry(functions, entry);
  }

  lemma NoSoleEntryUnique(functions: Functions, a: Refusal, b: Refusal)
    requires NoSoleEntry(functions, a) && NoSoleEntry(functions, b)
    ensures a == b
  {
    if a.code == DuplicateEntry && b.code == DuplicateEntry {
      assert IsEntry(functions, a.item) && IsEntry(functions, b.item);
    }
  }

  lemma KeyedRefusalsUnique(functions: Functions, build: Build, a: seq<Refusal>, b: seq<Refusal>)
    requires AreRefusalsOfKeyed(functions, build, a) && AreRefusalsOfKeyed(functions, build, b)
    ensures a == b
  {
    if entry :| SoleEntry(functions, entry) {
      SoleEntryIsUnique(functions, entry);
      var f :| AreFindings(functions, build, entry, f) && a == RefusalsOf(functions, build, entry, f);
      var g :| AreFindings(functions, build, entry, g) && b == RefusalsOf(functions, build, entry, g);
      FindingsUnique(functions, build, entry, f, g);
    } else {
      var x :| NoSoleEntry(functions, x) && a == ImportRefusals(build) + [x];
      var y :| NoSoleEntry(functions, y) && b == ImportRefusals(build) + [y];
      NoSoleEntryUnique(functions, x, y);
    }
  }

  /** A module has one list of refusals. */
  lemma RefusalsUnique(m: Module, build: Build, a: seq<Refusal>, b: seq<Refusal>)
    requires AreRefusals(m, build, a) && AreRefusals(m, build, b)
    ensures a == b
  {
    if build.target == TARGET_TRIPLE && DistinctFunctionIds(m.functions) {
      KeyedRefusalsUnique(FunctionMap(m.functions), build, a, b);
    }
  }

  // An empty list of refusals is acceptance.

  lemma {:induction false} RepeatsAreListed(functions: seq<Function>)
    ensures RepeatedIds(functions) == [] <==> DistinctFunctionIds(functions)
  {
    if functions != [] {
      var last := |functions| - 1;
      RepeatsAreListed(functions[..last]);
      if exists j :: 0 <= j < last && functions[j].id == functions[last].id {
        assert !DistinctFunctionIds(functions);
      } else if DistinctFunctionIds(functions[..last]) {
        forall i, j | 0 <= i < j < |functions|
          ensures functions[i].id != functions[j].id
        {
          assert j < last ==> functions[..last][i].id != functions[..last][j].id;
        }
      } else {
        var i, j :| 0 <= i < j < last && functions[..last][i].id == functions[..last][j].id;
        assert functions[i].id == functions[j].id;
      }
    }
  }

  lemma {:induction false} UnkeyedAreListed(functions: Functions, ids: seq<ItemId>)
    ensures UnkeyedRefusals(functions, ids) == [] <==> forall id :: id in ids ==> !Unkeyed(functions, id)
  {
    if ids != [] {
      var last := |ids| - 1;
      UnkeyedAreListed(functions, ids[..last]);
      assert forall id :: id in ids <==> id in ids[..last] || id == ids[last] by {
        assert ids == ids[..last] + [ids[last]];
      }
    }
  }

  /** No function of the walk is refused, for its blocks or for anything else. */
  ghost predicate NoneRefused(functions: Functions, build: Build, entry: ItemId, order: seq<ItemId>) {
    forall id :: id in order ==> !Unkeyed(functions, id) && !Refused(functions, build, entry, id)
  }

  lemma NothingListed(functions: Functions, build: Build, entry: ItemId, order: seq<ItemId>, checked: seq<Refusal>)
    requires AreChecked(functions, build, entry, order, checked)
    ensures (UnkeyedRefusals(functions, order) == [] && checked == []) <==> NoneRefused(functions, build, entry, order)
  {
    UnkeyedAreListed(functions, order);
    if checked == [] {
      assert forall id :: id !in Items(checked);
    } else {
      assert Items(checked)[0] in Items(checked);
    }
  }

  lemma NothingFound(functions: Functions, build: Build, entry: ItemId, f: Findings)
    requires AreFindings(functions, build, entry, f)
    ensures (UnkeyedRefusals(functions, CallOrder(functions, entry)) == [] && f.checked == [])
            <==> forall id :: Reach(CallGraph(functions), entry, id) ==> FunctionOk(functions, build, id, id == entry)
  {
    LevelOrderIsReach(CallGraph(functions), entry);
    NothingListed(functions, build, entry, CallOrder(functions, entry), f.checked);
    forall id | Reach(CallGraph(functions), entry, id)
      ensures FunctionOk(functions, build, id, id == entry)
              <==> !Unkeyed(functions, id) && !Refused(functions, build, entry, id)
    {
      ReachInGraph(CallGraph(functions), entry, id);
    }
  }

  lemma NothingRefused(m: Module, build: Build, entry: ItemId, f: Findings)
    requires build.target == TARGET_TRIPLE && DistinctFunctionIds(m.functions)
    requires SoleEntry(FunctionMap(m.functions), entry) && AreFindings(FunctionMap(m.functions), build, entry, f)
    ensures RefusalsOf(FunctionMap(m.functions), build, entry, f) == [] <==> InSubset(m, build, entry)
  {
    NothingFound(FunctionMap(m.functions), build, entry, f);
  }

  lemma OneEntryHasNone(m: Module, build: Build, entry: ItemId, refusals: seq<Refusal>)
    requires build.target == TARGET_TRIPLE && DistinctFunctionIds(m.functions)
    requires SoleEntry(FunctionMap(m.functions), entry)
    requires AreRefusalsOfKeyed(FunctionMap(m.functions), build, refusals)
    ensures refusals == [] <==> InSubset(m, build, entry)
  {
    var functions := FunctionMap(m.functions);
    SoleEntryIsUnique(functions, entry);
    var f :| AreFindings(functions, build, entry, f) && refusals == RefusalsOf(functions, build, entry, f);
    NothingRefused(m, build, entry, f);
  }

  lemma SubsetHasSoleEntry(m: Module, build: Build, entry: ItemId)
    requires InSubset(m, build, entry)
    ensures build.target == TARGET_TRIPLE && DistinctFunctionIds(m.functions)
    ensures SoleEntry(FunctionMap(m.functions), entry)
  {
  }

  lemma NoEntryHasSome(functions: Functions, build: Build, refusals: seq<Refusal>)
    requires AreRefusalsOfKeyed(functions, build, refusals) && forall entry :: !SoleEntry(functions, entry)
    ensures refusals != []
  {
  }

  /** A module is accepted exactly when it has no refusals. */
  lemma AcceptedHasNone(m: Module, build: Build, refusals: seq<Refusal>)
    requires AreRefusals(m, build, refusals)
    ensures refusals == [] <==> exists entry :: InSubset(m, build, entry)
  {
    var functions := FunctionMap(m.functions);
    forall entry | InSubset(m, build, entry)
      ensures refusals == []
    {
      SubsetHasSoleEntry(m, build, entry);
      OneEntryHasNone(m, build, entry, refusals);
    }
    if refusals == [] {
      RepeatsAreListed(m.functions);
      if forall entry :: !SoleEntry(functions, entry) {
        NoEntryHasSome(functions, build, refusals);
      } else {
        var entry :| SoleEntry(functions, entry);
        OneEntryHasNone(m, build, entry, refusals);
      }
    }
  }
}
