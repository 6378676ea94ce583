/**
 * The part of the IR the call-graph builder consumes: functions with their
 * parameter types, variadic and address-taken flags and basic blocks, and
 * instructions classified as non-calls, direct calls and indirect calls,
 * each with an optional debug location.
 */
module Ir {
  import opened Wrappers
  import opened CallGraphTypes

  /** The name of the debug intrinsic that the builder skips everywhere. */
  const DbgDeclare: string := "llvm.dbg.declare"

  datatype DebugLoc = DebugLoc(file: string, line: nat)

  /**
   * What an instruction calls, after `stripPointerCasts`: nothing, a function
   * named directly, or a value. An indirect call carries the types of all of
   * the instruction's operands, the called value included.
   */
  datatype CallKind = NotACall | Direct(callee: FuncId) | Indirect(operandTypes: seq<TypeTok>)

  datatype Instruction = Instruction(kind: CallKind, loc: Option<DebugLoc>)

  datatype Function = Function(
    id: FuncId,
    name: string,
    params: seq<TypeTok>,
    isVarArg: bool,
    hasAddressTaken: bool,
    blocks: seq<seq<Instruction>>)

  datatype Module = Module(functions: seq<Function>)

  /** The instructions of a function in program order, block after block. */
  function Flatten(blocks: seq<seq<Instruction>>): seq<Instruction>
  {
    if blocks == [] then [] else Flatten(blocks[..|blocks| - 1]) + blocks[|blocks| - 1]
  }

  function Body(f: Function): seq<Instruction> { Flatten(f.blocks) }

  /** The first function of `fs` with identity `id`, if any. */
  function Lookup(fs: seq<Function>, id: FuncId): (r: Option<Function>)
    ensures r.Some? ==> r.value in fs && r.value.id == id
    ensures r.None? ==> forall f :: f in fs ==> f.id != id
  {
    if fs == [] then None
    else if fs[0].id == id then Some(fs[0])
    else Lookup(fs[1..], id)
  }

  /** A direct call names a function of the module. */
  predicate Resolvable(m: Module, inst: Instruction)
  {
    inst.kind.Direct? ==> Lookup(m.functions, inst.kind.callee).Some?
  }

  /** Every direct call of `insts` names a function of the module. */
  predicate AllResolvable(m: Module, insts: seq<Instruction>)
  {
    forall i :: 0 <= i < |insts| ==> Resolvable(m, insts[i])
  }

  lemma PrefixResolvable(m: Module, insts: seq<Instruction>, prefix: seq<Instruction>)
    requires AllResolvable(m, insts) && prefix <= insts
    ensures AllResolvable(m, prefix)
  {
    forall i | 0 <= i < |prefix| ensures Resolvable(m, prefix[i]) {
      assert prefix[i] == insts[i];
    }
  }

  /** Flattening distributes over concatenation of block lists. */
  lemma {:induction false} FlattenAppend(xs: seq<seq<Instruction>>, ys: seq<seq<Instruction>>)
    ensures Flatten(xs + ys) == Flatten(xs) + Flatten(ys)
  {
    if ys != [] {
      var zs := xs + ys;
      assert zs[..|zs| - 1] == xs + ys[..|ys| - 1];
      FlattenAppend(xs, ys[..|ys| - 1]);
    } else {
      assert xs + ys == xs;
    }
  }

  /**
   * What an LLVM module guarantees and the builder relies on: function
   * identities are distinct, every direct callee is a function of the module,
   * and the debug intrinsic never has its address taken.
   */
  predicate WellFormed(m: Module)
  {
    && (forall i, j :: 0 <= i < j < |m.functions| ==> m.functions[i].id != m.functions[j].id)
    && (forall f :: f in m.functions ==> AllResolvable(m, Body(f)))
    && (forall f :: f in m.functions && f.name == DbgDeclare ==> !f.hasAddressTaken)
  }
}
