/**
 * The records of include/CallGraph.h: one `CallInfo` per resolved call
 * site, one `FunctionInfo` per function, and the `funcs` table from
 * function to `FunctionInfo`.
 *
 * Both records are held by value in the table (`llvm::DenseMap` stores
 * them inline and the builder updates them through `find(...)->second`),
 * so they are datatypes here and the table is a `map`.
 */
module CallGraphTypes {

  /** The identity of an IR function: the `llvm::Function*` the table is keyed by. */
  type FuncId = nat

  /** An IR type; types are only ever compared for identity. */
  type TypeTok = nat

  /**
   * One call-site record. The header calls the callee field `name`; it is a
   * function identity, not a string.
   */
  datatype CallInfo = CallInfo(callee: FuncId, lineNum: nat, filename: string, callSiteNum: nat)
  {
    function GetFunction(): FuncId { callee }
  }

  /**
   * Per-function bookkeeping. `filename` and `bugweight` are read and written
   * by lib/callgraphs/CallGraph.cpp but are not declared in the header; they
   * are modelled as if declared, starting at "" and 0.
   */
  datatype FunctionInfo = FunctionInfo(
    id: FuncId,
    directCalls: seq<CallInfo>,
    possibleCalls: seq<CallInfo>,
    callCount: nat,
    weight: nat,
    filename: string,
    bugweight: nat)
  {
    function GetFunction(): FuncId { id }
  }

  /** `FunctionInfo(n)`: a fresh entry for function `n`. */
  function NewFunctionInfo(n: FuncId): (fi: FunctionInfo)
    ensures fi.GetFunction() == n
    ensures fi.callCount == 0 && fi.weight == 0
    ensures fi.directCalls == [] && fi.possibleCalls == []
    ensures fi.filename == "" && fi.bugweight == 0
  {
    FunctionInfo(n, [], [], 0, 0, "", 0)
  }

  /** `CallInfo(n, line, fname, csnum)`: every argument is stored unchanged. */
  function NewCallInfo(n: FuncId, line: nat, fname: string, csnum: nat): (ci: CallInfo)
    ensures ci.GetFunction() == n
    ensures ci.lineNum == line && ci.filename == fname && ci.callSiteNum == csnum
  {
    CallInfo(n, line, fname, csnum)
  }

  /** The `funcs` table: each function key maps to exactly one entry. */
  type Table = map<FuncId, FunctionInfo>

  /** Every entry is filed under the function it describes. */
  predicate KeysMatch(t: Table)
  {
    forall k :: k in t ==> t[k].id == k
  }
}
