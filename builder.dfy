/**
 * `CallGraphPass` of lib/callgraphs/CallGraph.cpp:27-123: the table of
 * `FunctionInfo` entries, filled by walking every instruction of every
 * function of a module.
 *
 * The class and its methods mirror the source's loops and in-place updates;
 * each method is proved against a pure function (`InitTable`, `Step`,
 * `HandleAll`, `Build`) that says what the table becomes. What the source
 * promises about those functions is proved in module CallGraphProperties.
 */
module CallGraphBuilder {
  import opened Wrappers
  import opened CallGraphTypes
  import opened Ir

  // ---------------------------------------------------------------------------
  // Indirect-call candidates (lines 66-94)
  // ---------------------------------------------------------------------------

  /**
   * Whether a candidate with parameter types `params` matches a call whose
   * operands have types `operands`: each declared parameter equals the operand
   * at its position, and, unless the candidate is variadic, there are at most
   * one more operands than parameters (the extra one is the called value).
   * A parameter with no operand at its position is a mismatch.
   */
  predicate SignatureMatch(params: seq<TypeTok>, operands: seq<TypeTok>, isVarArg: bool)
  {
    && PrefixMatches(params, operands, |params|)
    && (isVarArg || |operands| <= |params| + 1)
  }

  /** The first `n` parameters each have an operand of the same type at their position. */
  predicate PrefixMatches(params: seq<TypeTok>, operands: seq<TypeTok>, n: nat)
    requires n <= |params|
  {
    n <= |operands| && forall k :: 0 <= k < n ==> params[k] == operands[k]
  }

  lemma PrefixMatchesStep(params: seq<TypeTok>, operands: seq<TypeTok>, n: nat)
    requires n < |params|
    ensures PrefixMatches(params, operands, n + 1)
            <==> PrefixMatches(params, operands, n) && n < |operands| && params[n] == operands[n]
  {
    if PrefixMatches(params, operands, n) && n < |operands| && params[n] == operands[n] {
      forall k | 0 <= k < n + 1 ensures params[k] == operands[k] {
        if k < n {
          assert params[k] == operands[k];
        }
      }
    }
    if PrefixMatches(params, operands, n + 1) {
      assert n < |operands| && params[n] == operands[n];
      forall k | 0 <= k < n ensures params[k] == operands[k] {
        assert k < n + 1;
      }
    }
  }

  /** The comparison loop of lines 69-86, with its `match` flag and `j` counter. */
  method MatchesSignature(params: seq<TypeTok>, operands: seq<TypeTok>, isVarArg: bool)
    returns (matched: bool)
    ensures matched == SignatureMatch(params, operands, isVarArg)
  {
    matched := true;
    var j := 0;
    while j < |params|
      invariant 0 <= j <= |params|
      invariant matched == PrefixMatches(params, operands, j)
    {
      PrefixMatchesStep(params, operands, j);
      if j >= |operands| || params[j] != operands[j] {
        matched := false;
      }
      j := j + 1;
    }
    if |operands| > j + 1 && !isVarArg {
      matched := false;
    }
  }

  // ---------------------------------------------------------------------------
  // Single updates of a table entry
  // ---------------------------------------------------------------------------

  /** The file recorded for a call: its debug location's, or "unknown". */
  function LocFile(loc: Option<DebugLoc>): string
  {
    if loc.Some? then loc.value.file else "unknown"
  }

  /** The line recorded for a call: its debug location's, or 0. */
  function LocLine(loc: Option<DebugLoc>): nat
  {
    if loc.Some? then loc.value.line else 0
  }

  /** `funcs.find(g)->second.weight++`. */
  function BumpWeight(t: Table, g: FuncId): Table
    requires g in t
  {
    t[g := t[g].(weight := t[g].weight + 1)]
  }

  /** `funcs.find(c)->second.directCalls.push_back(ci)`. */
  function AppendCall(t: Table, c: FuncId, ci: CallInfo): Table
    requires c in t
  {
    t[c := t[c].(directCalls := t[c].directCalls + [ci])]
  }

  /** `funcs.find(c)->second.callCount++`. */
  function BumpCallCount(t: Table, c: FuncId): Table
    requires c in t
  {
    t[c := t[c].(callCount := t[c].callCount + 1)]
  }

  // ---------------------------------------------------------------------------
  // What one instruction does to the table (lines 56-123)
  // ---------------------------------------------------------------------------

  /** Every module function other than the debug intrinsic has an entry. */
  predicate Covers(t: Table, m: Module)
  {
    forall f :: f in m.functions && f.name != DbgDeclare ==> f.id in t
  }

  /**
   * The candidate loop of lines 66-98 over the functions `cands`: each
   * address-taken candidate whose signature matches gains one weight, and the
   * caller `c` gains one record with call-site number `site`. The effect is
   * stated by `CallGraphProperties.ResolveIndirectRecords`, `ResolveIndirectWeights`
   * and `ResolveIndirectFrame`.
   */
  function ResolveIndirect(t: Table, c: FuncId, site: nat, ops: seq<TypeTok>,
                           loc: Option<DebugLoc>, cands: seq<Function>): (r: Table)
    requires c in t
    requires forall f :: f in cands && f.hasAddressTaken ==> f.id in t
    ensures r.Keys == t.Keys
    ensures r[c].callCount == t[c].callCount
  {
    if cands == [] then t
    else
      var r0 := ResolveIndirect(t, c, site, ops, loc, cands[..|cands| - 1]);
      var f := cands[|cands| - 1];
      if f.hasAddressTaken && SignatureMatch(f.params, ops, f.isVarArg) then
        AppendCall(BumpWeight(r0, f.id), c, CallInfo(f.id, LocLine(loc), LocFile(loc), site))
      else r0
  }

  /** One more candidate: the unfolding of ResolveIndirect that the candidate loop follows. */
  lemma ResolveIndirectSnoc(t: Table, c: FuncId, site: nat, ops: seq<TypeTok>,
                            loc: Option<DebugLoc>, cands: seq<Function>, i: nat)
    requires c in t && i < |cands|
    requires forall f :: f in cands && f.hasAddressTaken ==> f.id in t
    ensures forall f :: f in cands[..i] && f.hasAddressTaken ==> f.id in t
    ensures forall f :: f in cands[..i + 1] && f.hasAddressTaken ==> f.id in t
    ensures cands[i].hasAddressTaken ==> cands[i].id in t
    ensures ResolveIndirect(t, c, site, ops, loc, cands[..i + 1])
            == var r0 := ResolveIndirect(t, c, site, ops, loc, cands[..i]);
               var f := cands[i];
               if f.hasAddressTaken && SignatureMatch(f.params, ops, f.isVarArg) then
                 AppendCall(BumpWeight(r0, f.id), c, CallInfo(f.id, LocLine(loc), LocFile(loc), site))
               else r0
  {
    assert cands[..i + 1][..i] == cands[..i];
    assert cands[i] in cands;
  }

  /** `handleInstruction` for instruction `inst` of caller `c`; its whole effect is stated by `CallGraphProperties.StepEffect`. */
  function Step(t: Table, c: FuncId, inst: Instruction, m: Module): (r: Table)
    requires WellFormed(m) && Covers(t, m) && c in t && Resolvable(m, inst)
    ensures r.Keys == t.Keys
  {
    match inst.kind
    case NotACall => t
    case Indirect(ops) =>
      BumpCallCount(ResolveIndirect(t, c, t[c].callCount, ops, inst.loc, m.functions), c)
    case Direct(g) =>
      var callee := Lookup(m.functions, g).value;
      if callee.name == DbgDeclare then t
      else if inst.loc.Some? then
        BumpCallCount(AppendCall(t, c, CallInfo(g, inst.loc.value.line, inst.loc.value.file, t[c].callCount)), c)
      else
        BumpCallCount(AppendCall(BumpWeight(t, g), c, CallInfo(g, 0, "unknown", t[c].callCount)), c)
  }

  /**
   * Every instruction of `insts` is handled in order for caller `c`; the
   * effect is stated by `CallGraphProperties.HandleAllCaller` and `HandleAllAt`.
   */
  function HandleAll(t: Table, c: FuncId, insts: seq<Instruction>, m: Module): (r: Table)
    requires WellFormed(m) && Covers(t, m) && c in t
    requires AllResolvable(m, insts)
    ensures r.Keys == t.Keys
  {
    if insts == [] then t
    else
      assert AllResolvable(m, insts[..|insts| - 1]);
      Step(HandleAll(t, c, insts[..|insts| - 1], m), c, insts[|insts| - 1], m)
  }

  // ---------------------------------------------------------------------------
  // The whole pass (lines 27-54)
  // ---------------------------------------------------------------------------

  /**
   * The first loop of `runOnModule` over the functions `fs`: every function
   * other than the debug intrinsic is inserted with a fresh entry, and
   * `insert` keeps an entry that is already there.
   */
  function InitTable(t: Table, fs: seq<Function>): (r: Table)
    ensures forall k :: k in t ==> k in r && r[k] == t[k]
    ensures forall f :: f in fs && f.name != DbgDeclare ==> f.id in r
  {
    if fs == [] then t
    else
      var r0 := InitTable(t, fs[..|fs| - 1]);
      var f := fs[|fs| - 1];
      assert forall g :: g in fs[..|fs| - 1] ==> g in fs;
      if f.name == DbgDeclare || f.id in r0 then r0 else r0[f.id := NewFunctionInfo(f.id)]
  }

  /**
   * The second loop of `runOnModule` over the first `n` functions of `m`; the
   * effect is stated by `CallGraphProperties.BuildCallsAt` and `BuildCallsEntry`.
   */
  function BuildCalls(t: Table, m: Module, n: nat): (r: Table)
    requires WellFormed(m) && Covers(t, m) && n <= |m.functions|
    ensures r.Keys == t.Keys
  {
    if n == 0 then t
    else
      var r0 := BuildCalls(t, m, n - 1);
      var f := m.functions[n - 1];
      if f.name == DbgDeclare then r0 else HandleAll(r0, f.id, Body(f), m)
  }

  /** The table `runOnModule` leaves behind, starting from table `t`. */
  function Build(t: Table, m: Module): (r: Table)
    requires WellFormed(m)
  {
    BuildCalls(InitTable(t, m.functions), m, |m.functions|)
  }

  lemma FlattenStep(blocks: seq<seq<Instruction>>, b: nat)
    requires b < |blocks|
    ensures Flatten(blocks[..b + 1]) == Flatten(blocks[..b]) + blocks[b]
    ensures forall k :: 0 <= k <= |blocks[b]| ==>
              Flatten(blocks[..b]) + blocks[b][..k] <= Flatten(blocks)
    ensures Flatten(blocks[..b + 1]) <= Flatten(blocks)
  {
    assert blocks[..b + 1][..b] == blocks[..b];
    assert blocks == blocks[..b + 1] + blocks[b + 1..];
    FlattenAppend(blocks[..b + 1], blocks[b + 1..]);
  }

  // ---------------------------------------------------------------------------
  // The pass object
  // ---------------------------------------------------------------------------

  class CallGraphPass {
    /** The `funcs` table; `funcList` and `possibleCalls` are never read and are left out. */
    var funcs: Table

    constructor ()
      ensures funcs == map[]
    {
      funcs := map[];
    }

    /**
     * The candidate loop of lines 66-98 for an indirect call of `caller` with
     * operand types `ops` and debug location `loc`.
     */
    method ResolveCandidates(caller: FuncId, ops: seq<TypeTok>, loc: Option<DebugLoc>, m: Module)
      requires caller in funcs
      requires forall f :: f in m.functions && f.hasAddressTaken ==> f.id in funcs
      modifies this
      ensures funcs == ResolveIndirect(old(funcs), caller, old(funcs)[caller].callCount, ops, loc, m.functions)
    {
      var i := 0;
      while i < |m.functions|
        invariant 0 <= i <= |m.functions|
        invariant funcs == ResolveIndirect(old(funcs), caller, old(funcs)[caller].callCount,
                                           ops, loc, m.functions[..i])
      {
        var f := m.functions[i];
        ResolveIndirectSnoc(old(funcs), caller, old(funcs)[caller].callCount, ops, loc, m.functions, i);
        if f.hasAddressTaken {
          var matched := MatchesSignature(f.params, ops, f.isVarArg);
          if matched {
            var line, file := 0, "unknown";
            if loc.Some? {
              line, file := loc.value.line, loc.value.file;
            }
            var ci := CallInfo(f.id, line, file, funcs[caller].callCount);
            funcs := funcs[f.id := funcs[f.id].(weight := funcs[f.id].weight + 1)];
            funcs := funcs[caller := funcs[caller].(directCalls := funcs[caller].directCalls + [ci])];
          }
        }
        i := i + 1;
      }
      assert m.functions[..i] == m.functions;
    }

    /** `handleInstruction(cs, fun, m)` for an instruction of function `caller`. */
    method HandleInstruction(inst: Instruction, caller: FuncId, m: Module)
      requires WellFormed(m) && Covers(funcs, m) && caller in funcs && Resolvable(m, inst)
      modifies this
      ensures funcs == Step(old(funcs), caller, inst, m)
    {
      match inst.kind {
        case NotACall =>
          return;
        case Indirect(ops) =>
          ResolveCandidates(caller, ops, inst.loc, m);
          funcs := funcs[caller := funcs[caller].(callCount := funcs[caller].callCount + 1)];
        case Direct(g) =>
          var called := Lookup(m.functions, g).value;
          if called.name == DbgDeclare {
            return;
          }
          var loc := inst.loc;
          if loc.Some? {
            var ci := CallInfo(g, loc.value.line, loc.value.file, funcs[caller].callCount);
            funcs := funcs[caller := funcs[caller].(directCalls := funcs[caller].directCalls + [ci])];
            funcs := funcs[caller := funcs[caller].(callCount := funcs[caller].callCount + 1)];
          } else {
            var ci := CallInfo(g, 0, "unknown", funcs[caller].callCount);
            funcs := funcs[g := funcs[g].(weight := funcs[g].weight + 1)];
            funcs := funcs[caller := funcs[caller].(directCalls := funcs[caller].directCalls + [ci])];
            funcs := funcs[caller := funcs[caller].(callCount := funcs[caller].callCount + 1)];
          }
      }
    }

    /** The two inner loops of `runOnModule` (lines 46-50) for one function `f`. */
    method WalkFunction(f: Function, m: Module)
      requires WellFormed(m) && Covers(funcs, m) && f in m.functions && f.name != DbgDeclare
      modifies this
      ensures funcs == HandleAll(old(funcs), f.id, Body(f), m)
    {
      var b := 0;
      assert f.blocks[..0] == [];
      while b < |f.blocks|
        invariant 0 <= b <= |f.blocks|
        invariant AllResolvable(m, Flatten(f.blocks[..b]))
        invariant funcs == HandleAll(old(funcs), f.id, Flatten(f.blocks[..b]), m)
      {
        var block := f.blocks[b];
        FlattenStep(f.blocks, b);
        var k := 0;
        assert Flatten(f.blocks[..b]) + block[..0] == Flatten(f.blocks[..b]);
        while k < |block|
          invariant 0 <= k <= |block|
          invariant AllResolvable(m, Flatten(f.blocks[..b]) + block[..k])
          invariant funcs == HandleAll(old(funcs), f.id, Flatten(f.blocks[..b]) + block[..k], m)
        {
          ghost var done := Flatten(f.blocks[..b]) + block[..k];
          assert (done + [block[k]])[..|done|] == done;
          assert done + [block[k]] == Flatten(f.blocks[..b]) + block[..k + 1];
          PrefixResolvable(m, Body(f), done + [block[k]]);
          assert Resolvable(m, (done + [block[k]])[|done|]);
          HandleInstruction(block[k], f.id, m);
          k := k + 1;
        }
        assert block[..k] == block;
        PrefixResolvable(m, Body(f), Flatten(f.blocks[..b + 1]));
        b := b + 1;
      }
      assert f.blocks[..b] == f.blocks;
    }

    /** The first loop of `runOnModule` (lines 33-37): one fresh entry per function. */
    method InsertFunctions(m: Module)
      modifies this
      ensures funcs == InitTable(old(funcs), m.functions)
    {
      var i := 0;
      while i < |m.functions|
        invariant 0 <= i <= |m.functions|
        invariant funcs == InitTable(old(funcs), m.functions[..i])
      {
        var f := m.functions[i];
        assert m.functions[..i + 1][..i] == m.functions[..i];
        if f.name != DbgDeclare && f.id !in funcs {
          funcs := funcs[f.id := NewFunctionInfo(f.id)];
        }
        i := i + 1;
      }
      assert m.functions[..i] == m.functions;
    }

    /** `runOnModule(m)`: fills the table and reports that the module is unchanged. */
    method RunOnModule(m: Module) returns (modified: bool)
      requires WellFormed(m)
      modifies this
      ensures funcs == Build(old(funcs), m)
      ensures !modified
    {
      InsertFunctions(m);
      ghost var init := funcs;
      var i := 0;
      while i < |m.functions|
        invariant 0 <= i <= |m.functions|
        invariant Covers(init, m)
        invariant funcs == BuildCalls(init, m, i)
      {
        var f := m.functions[i];
        if f.name != DbgDeclare {
          WalkFunction(f, m);
        }
        i := i + 1;
      }
      modified := false;
    }
  }
}
