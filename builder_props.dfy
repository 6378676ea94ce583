/**
 * What the call-graph builder of lib/callgraphs/CallGraph.cpp:27-123
 * guarantees, stated over the functions that its methods are proved
 * against (module CallGraphBuilder).
 */
module CallGraphProperties {
  import opened Wrappers
  import opened CallGraphTypes
  import opened Ir
  import opened CallGraphBuilder

  // ---------------------------------------------------------------------------
  // Reference descriptions of one instruction's effect
  // ---------------------------------------------------------------------------

  /** The records an indirect call appends: one per matching address-taken candidate, in module order. */
  function MatchRecords(cands: seq<Function>, ops: seq<TypeTok>, loc: Option<DebugLoc>, site: nat): seq<CallInfo>
  {
    if cands == [] then []
    else
      var f := cands[|cands| - 1];
      MatchRecords(cands[..|cands| - 1], ops, loc, site)
      + (if f.hasAddressTaken && SignatureMatch(f.params, ops, f.isVarArg)
         then [CallInfo(f.id, LocLine(loc), LocFile(loc), site)] else [])
  }

  /** An indirect call appends at most one record per candidate, each numbered `site` and carrying the call's location. */
  lemma {:induction false} MatchRecordsShape(cands: seq<Function>, ops: seq<TypeTok>, loc: Option<DebugLoc>, site: nat)
    ensures var rs := MatchRecords(cands, ops, loc, site);
            && |rs| <= |cands|
            && (forall i :: 0 <= i < |rs| ==> rs[i].callSiteNum == site)
            && (forall i :: 0 <= i < |rs| ==> rs[i].lineNum == LocLine(loc) && rs[i].filename == LocFile(loc))
  {
    if cands != [] {
      var prefix := cands[..|cands| - 1];
      MatchRecordsShape(prefix, ops, loc, site);
      var ps := MatchRecords(prefix, ops, loc, site);
      var rs := MatchRecords(cands, ops, loc, site);
      forall i | 0 <= i < |rs|
        ensures rs[i].callSiteNum == site && rs[i].lineNum == LocLine(loc) && rs[i].filename == LocFile(loc)
      {
        if i < |ps| {
          assert rs[i] == ps[i];
        }
      }
    }
  }

  /** How many candidates with identity `g` an indirect call with operand types `ops` matches. */
  function MatchCount(cands: seq<Function>, ops: seq<TypeTok>, g: FuncId): nat
  {
    if cands == [] then 0
    else
      var f := cands[|cands| - 1];
      MatchCount(cands[..|cands| - 1], ops, g)
      + (if f.id == g && f.hasAddressTaken && SignatureMatch(f.params, ops, f.isVarArg) then 1 else 0)
  }

  /** A call instruction the builder numbers: an indirect call, or a direct call to anything but the debug intrinsic. */
  predicate IsNumberedCall(inst: Instruction, m: Module)
    requires Resolvable(m, inst)
  {
    || inst.kind.Indirect?
    || (inst.kind.Direct? && Lookup(m.functions, inst.kind.callee).value.name != DbgDeclare)
  }

  /** The records instruction `inst` appends to its caller when the caller's counter is `site`. */
  function NewRecords(inst: Instruction, site: nat, m: Module): seq<CallInfo>
    requires Resolvable(m, inst)
  {
    match inst.kind
    case NotACall => []
    case Indirect(ops) => MatchRecords(m.functions, ops, inst.loc, site)
    case Direct(g) =>
      if Lookup(m.functions, g).value.name == DbgDeclare then []
      else [CallInfo(g, LocLine(inst.loc), LocFile(inst.loc), site)]
  }

  /** The weight instruction `inst` adds to function `g`. */
  function WeightGain(inst: Instruction, g: FuncId, m: Module): nat
    requires Resolvable(m, inst)
  {
    match inst.kind
    case NotACall => 0
    case Indirect(ops) => MatchCount(m.functions, ops, g)
    case Direct(callee) =>
      if Lookup(m.functions, callee).value.name == DbgDeclare || inst.loc.Some? || callee != g then 0 else 1
  }

  /** The entry `e` differs from `d` at most in its weight, its records and its counter. */
  predicate SameIdentity(d: FunctionInfo, e: FunctionInfo)
  {
    e == d.(weight := e.weight, directCalls := e.directCalls, callCount := e.callCount)
  }

  // ---------------------------------------------------------------------------
  // One instruction
  // ---------------------------------------------------------------------------

  /** The candidate loop appends exactly the matching candidates' records to the caller. */
  lemma {:induction false} ResolveIndirectRecords(t: Table, c: FuncId, site: nat, ops: seq<TypeTok>,
                                                  loc: Option<DebugLoc>, cands: seq<Function>)
    requires c in t
    requires forall f :: f in cands && f.hasAddressTaken ==> f.id in t
    ensures ResolveIndirect(t, c, site, ops, loc, cands)[c].directCalls
            == t[c].directCalls + MatchRecords(cands, ops, loc, site)
  {
    if cands != [] {
      var prefix := cands[..|cands| - 1];
      assert forall f :: f in prefix ==> f in cands;
      ResolveIndirectRecords(t, c, site, ops, loc, prefix);
    }
  }

  /** The candidate loop raises every entry's weight by the number of times it matches. */
  lemma {:induction false} ResolveIndirectWeights(t: Table, c: FuncId, site: nat, ops: seq<TypeTok>,
                                                  loc: Option<DebugLoc>, cands: seq<Function>, k: FuncId)
    requires c in t && k in t
    requires forall f :: f in cands && f.hasAddressTaken ==> f.id in t
    ensures ResolveIndirect(t, c, site, ops, loc, cands)[k].weight == t[k].weight + MatchCount(cands, ops, k)
  {
    if cands != [] {
      var prefix := cands[..|cands| - 1];
      assert forall f :: f in prefix ==> f in cands;
      ResolveIndirectWeights(t, c, site, ops, loc, prefix, k);
    }
  }

  /** The candidate loop changes no counter, no other caller's records and nothing else. */
  lemma {:induction false} ResolveIndirectFrame(t: Table, c: FuncId, site: nat, ops: seq<TypeTok>,
                                                loc: Option<DebugLoc>, cands: seq<Function>, k: FuncId)
    requires c in t && k in t
    requires forall f :: f in cands && f.hasAddressTaken ==> f.id in t
    ensures var r := ResolveIndirect(t, c, site, ops, loc, cands);
            && r[k].callCount == t[k].callCount
            && SameIdentity(t[k], r[k])
            && (k != c ==> r[k].directCalls == t[k].directCalls)
  {
    if cands != [] {
      var prefix := cands[..|cands| - 1];
      assert forall f :: f in prefix ==> f in cands;
      ResolveIndirectFrame(t, c, site, ops, loc, prefix, k);
    }
  }

  /** `handleInstruction` for caller `c`: its counter rises by one exactly for a numbered call, and it gains exactly `NewRecords`. */
  lemma StepCaller(t: Table, c: FuncId, inst: Instruction, m: Module)
    requires WellFormed(m) && Covers(t, m) && c in t && Resolvable(m, inst)
    ensures var r := Step(t, c, inst, m);
            && r[c].callCount == t[c].callCount + (if IsNumberedCall(inst, m) then 1 else 0)
            && r[c].directCalls == t[c].directCalls + NewRecords(inst, t[c].callCount, m)
  {
    if inst.kind.Indirect? {
      var ops := inst.kind.operandTypes;
      ResolveIndirectRecords(t, c, t[c].callCount, ops, inst.loc, m.functions);
      ResolveIndirectFrame(t, c, t[c].callCount, ops, inst.loc, m.functions, c);
    }
  }

  /** `handleInstruction` for caller `c`: entry `k` gains exactly `WeightGain` and, unless it is the caller, nothing else changes. */
  lemma StepAt(t: Table, c: FuncId, inst: Instruction, m: Module, k: FuncId)
    requires WellFormed(m) && Covers(t, m) && c in t && Resolvable(m, inst) && k in t
    ensures var r := Step(t, c, inst, m);
            && r[k].weight == t[k].weight + WeightGain(inst, k, m)
            && SameIdentity(t[k], r[k])
            && (k != c ==> r[k].directCalls == t[k].directCalls && r[k].callCount == t[k].callCount)
  {
    if inst.kind.Indirect? {
      var ops := inst.kind.operandTypes;
      ResolveIndirectWeights(t, c, t[c].callCount, ops, inst.loc, m.functions, k);
      ResolveIndirectFrame(t, c, t[c].callCount, ops, inst.loc, m.functions, k);
    }
  }

  /**
   * The whole effect of `handleInstruction`: the caller's counter rises by one
   * exactly for a numbered call, the caller gains exactly `NewRecords`, every
   * weight rises by exactly `WeightGain`, and nothing else changes.
   */
  lemma StepEffect(t: Table, c: FuncId, inst: Instruction, m: Module)
    requires WellFormed(m) && Covers(t, m) && c in t && Resolvable(m, inst)
    ensures var r := Step(t, c, inst, m);
            && r[c].callCount == t[c].callCount + (if IsNumberedCall(inst, m) then 1 else 0)
            && r[c].directCalls == t[c].directCalls + NewRecords(inst, t[c].callCount, m)
            && (forall k :: k in t ==> r[k].weight == t[k].weight + WeightGain(inst, k, m))
            && (forall k :: k in t && k != c ==> r[k].directCalls == t[k].directCalls && r[k].callCount == t[k].callCount)
            && (forall k :: k in t ==> SameIdentity(t[k], r[k]))
  {
    StepCaller(t, c, inst, m);
    forall k | k in t
      ensures var r := Step(t, c, inst, m);
              && r[k].weight == t[k].weight + WeightGain(inst, k, m)
              && SameIdentity(t[k], r[k])
              && (k != c ==> r[k].directCalls == t[k].directCalls && r[k].callCount == t[k].callCount)
    {
      StepAt(t, c, inst, m, k);
    }
  }

  /** A non-call, and a direct call to the debug intrinsic, leave every entry as it was (lines 59-61, 103-104). */
  lemma NonCallUnchanged(t: Table, c: FuncId, inst: Instruction, m: Module)
    requires WellFormed(m) && Covers(t, m) && c in t && Resolvable(m, inst)
    requires !IsNumberedCall(inst, m)
    ensures Step(t, c, inst, m) == t
  {
  }

  /**
   * A direct call appends one record numbered with the caller's counter and
   * raises the counter by one; the location decides what is recorded and
   * whether the callee's weight moves (lines 107-121).
   */
  lemma DirectCallEffect(t: Table, c: FuncId, inst: Instruction, m: Module)
    requires WellFormed(m) && Covers(t, m) && c in t && Resolvable(m, inst)
    requires inst.kind.Direct? && IsNumberedCall(inst, m)
    ensures var r := Step(t, c, inst, m);
            var g := inst.kind.callee;
            && g in t
            && r[c].callCount == t[c].callCount + 1
            && |r[c].directCalls| == |t[c].directCalls| + 1
            && r[c].directCalls[..|t[c].directCalls|] == t[c].directCalls
            && r[c].directCalls[|t[c].directCalls|].callee == g
            && r[c].directCalls[|t[c].directCalls|].callSiteNum == t[c].callCount
            && (inst.loc.Some? ==>
                  && r[c].directCalls[|t[c].directCalls|].lineNum == inst.loc.value.line
                  && r[c].directCalls[|t[c].directCalls|].filename == inst.loc.value.file
                  && r[g].weight == t[g].weight)
            && (inst.loc.None? ==>
                  && r[c].directCalls[|t[c].directCalls|].lineNum == 0
                  && r[c].directCalls[|t[c].directCalls|].filename == "unknown"
                  && r[g].weight == t[g].weight + 1)
  {
    var g := inst.kind.callee;
    var callee := Lookup(m.functions, g).value;
    assert callee in m.functions && callee.id == g;
    StepEffect(t, c, inst, m);
  }

  /**
   * An indirect call raises the caller's counter by exactly one however many
   * candidates match, and every record it appends carries the counter's old
   * value (lines 88-99).
   */
  lemma IndirectCallEffect(t: Table, c: FuncId, inst: Instruction, m: Module)
    requires WellFormed(m) && Covers(t, m) && c in t && Resolvable(m, inst)
    requires inst.kind.Indirect?
    ensures var r := Step(t, c, inst, m);
            && r[c].callCount == t[c].callCount + 1
            && |t[c].directCalls| <= |r[c].directCalls| <= |t[c].directCalls| + |m.functions|
            && r[c].directCalls[..|t[c].directCalls|] == t[c].directCalls
            && (forall i :: |t[c].directCalls| <= i < |r[c].directCalls| ==> r[c].directCalls[i].callSiteNum == t[c].callCount)
  {
    StepEffect(t, c, inst, m);
    MatchRecordsShape(m.functions, inst.kind.operandTypes, inst.loc, t[c].callCount);
  }

  /** The functions that the records `rs` point at. */
  function Callees(rs: seq<CallInfo>): set<FuncId>
  {
    set i | 0 <= i < |rs| :: rs[i].callee
  }

  /** The address-taken candidates whose signature matches operand types `ops`. */
  function MatchingIds(cands: seq<Function>, ops: seq<TypeTok>): set<FuncId>
  {
    set f | f in cands && f.hasAddressTaken && SignatureMatch(f.params, ops, f.isVarArg) :: f.id
  }

  /** A candidate gets a record from an indirect call exactly when it is address-taken and its signature matches. */
  lemma {:induction false} MatchRecordsCallees(cands: seq<Function>, ops: seq<TypeTok>, loc: Option<DebugLoc>, site: nat)
    ensures Callees(MatchRecords(cands, ops, loc, site)) == MatchingIds(cands, ops)
  {
    if cands != [] {
      var prefix := cands[..|cands| - 1];
      var f := cands[|cands| - 1];
      MatchRecordsCallees(prefix, ops, loc, site);
      var ps := MatchRecords(prefix, ops, loc, site);
      var rs := MatchRecords(cands, ops, loc, site);
      assert cands == prefix + [f];
      assert forall h :: h in cands <==> h in prefix || h == f;
      if f.hasAddressTaken && SignatureMatch(f.params, ops, f.isVarArg) {
        assert rs == ps + [CallInfo(f.id, LocLine(loc), LocFile(loc), site)];
        assert Callees(rs) == Callees(ps) + {f.id} by {
          assert forall i :: 0 <= i < |ps| ==> rs[i] == ps[i];
          assert rs[|ps|].callee == f.id;
          forall g | g in Callees(rs) ensures g in Callees(ps) + {f.id} {
            var i :| 0 <= i < |rs| && rs[i].callee == g;
            if i < |ps| { assert ps[i].callee == g; }
          }
          forall g | g in Callees(ps) ensures g in Callees(rs) {
            var i :| 0 <= i < |ps| && ps[i].callee == g;
            assert rs[i].callee == g;
          }
        }
        assert MatchingIds(cands, ops) == MatchingIds(prefix, ops) + {f.id};
      } else {
        assert rs == ps;
        assert MatchingIds(cands, ops) == MatchingIds(prefix, ops);
      }
    }
  }

  /** With distinct identities, an indirect call raises a candidate's weight by one exactly when it matches. */
  lemma {:induction false} MatchCountDistinct(cands: seq<Function>, ops: seq<TypeTok>, i: nat)
    requires i < |cands|
    requires forall a, b :: 0 <= a < b < |cands| ==> cands[a].id != cands[b].id
    ensures MatchCount(cands, ops, cands[i].id)
            == if cands[i].hasAddressTaken && SignatureMatch(cands[i].params, ops, cands[i].isVarArg) then 1 else 0
  {
    var n := |cands| - 1;
    if i == n {
      MatchCountAbsent(cands[..n], ops, cands[i].id);
    } else {
      MatchCountDistinct(cands[..n], ops, i);
    }
  }

  lemma {:induction false} MatchCountAbsent(cands: seq<Function>, ops: seq<TypeTok>, g: FuncId)
    requires forall f :: f in cands ==> f.id != g
    ensures MatchCount(cands, ops, g) == 0
  {
    if cands != [] {
      assert forall f :: f in cands[..|cands| - 1] ==> f in cands;
      MatchCountAbsent(cands[..|cands| - 1], ops, g);
    }
  }

  // ---------------------------------------------------------------------------
  // One function's instructions
  // ---------------------------------------------------------------------------

  /** How many numbered calls `insts` holds. */
  function CallCount(insts: seq<Instruction>, m: Module): nat
    requires AllResolvable(m, insts)
  {
    if insts == [] then 0
    else
      var prefix := insts[..|insts| - 1];
      assert AllResolvable(m, prefix);
      CallCount(prefix, m) + (if IsNumberedCall(insts[|insts| - 1], m) then 1 else 0)
  }

  /** The records a caller whose counter starts at `base` collects from `insts`, in order. */
  function CallRecords(insts: seq<Instruction>, base: nat, m: Module): seq<CallInfo>
    requires AllResolvable(m, insts)
  {
    if insts == [] then []
    else
      var prefix := insts[..|insts| - 1];
      assert AllResolvable(m, prefix);
      CallRecords(prefix, base, m) + NewRecords(insts[|insts| - 1], base + CallCount(prefix, m), m)
  }

  /** The weight `insts` adds to function `g`. */
  function BodyGain(insts: seq<Instruction>, g: FuncId, m: Module): nat
    requires AllResolvable(m, insts)
  {
    if insts == [] then 0
    else
      var prefix := insts[..|insts| - 1];
      assert AllResolvable(m, prefix);
      BodyGain(prefix, g, m) + WeightGain(insts[|insts| - 1], g, m)
  }

  /** The table after all but the last instruction of `insts` still covers the module. */
  lemma HandleAllPrefix(t: Table, c: FuncId, insts: seq<Instruction>, m: Module)
    requires WellFormed(m) && Covers(t, m) && c in t && AllResolvable(m, insts) && insts != []
    ensures AllResolvable(m, insts[..|insts| - 1]) && Resolvable(m, insts[|insts| - 1])
    ensures Covers(HandleAll(t, c, insts[..|insts| - 1], m), m)
  {
    assert AllResolvable(m, insts[..|insts| - 1]);
  }

  /** Walking `insts` is walking all but the last instruction, giving `r0`, then handling the last one. */
  lemma HandleAllSnoc(t: Table, c: FuncId, insts: seq<Instruction>, m: Module, r0: Table)
    requires WellFormed(m) && Covers(t, m) && c in t && AllResolvable(m, insts) && insts != []
    requires AllResolvable(m, insts[..|insts| - 1]) && Resolvable(m, insts[|insts| - 1])
    requires r0 == HandleAll(t, c, insts[..|insts| - 1], m) && Covers(r0, m)
    ensures HandleAll(t, c, insts, m) == Step(r0, c, insts[|insts| - 1], m)
  {
  }

  /** The records of `insts` are those of all but its last instruction, then the last one's. */
  lemma CallRecordsSnoc(insts: seq<Instruction>, base: nat, m: Module, prefix: seq<Instruction>, last: Instruction)
    requires AllResolvable(m, insts) && insts != []
    requires prefix == insts[..|insts| - 1] && last == insts[|insts| - 1]
    requires AllResolvable(m, prefix) && Resolvable(m, last)
    ensures CallRecords(insts, base, m) == CallRecords(prefix, base, m) + NewRecords(last, base + CallCount(prefix, m), m)
  {
  }

  /** Walking the instructions of caller `c` raises its counter by the number of numbered calls. */
  lemma {:induction false} HandleAllCount(t: Table, c: FuncId, insts: seq<Instruction>, m: Module)
    requires WellFormed(m) && Covers(t, m) && c in t && AllResolvable(m, insts)
    ensures HandleAll(t, c, insts, m)[c].callCount == t[c].callCount + CallCount(insts, m)
  {
    if insts != [] {
      var prefix := insts[..|insts| - 1];
      HandleAllPrefix(t, c, insts, m);
      HandleAllCount(t, c, prefix, m);
      var r0 := HandleAll(t, c, prefix, m);
      HandleAllSnoc(t, c, insts, m, r0);
      StepCaller(r0, c, insts[|insts| - 1], m);
    }
  }

  lemma AppendAssoc<T>(a: seq<T>, b: seq<T>, c: seq<T>)
    ensures (a + b) + c == a + (b + c)
  {
  }

  /** Walking the instructions of caller `c` appends exactly `CallRecords` to its records. */
  lemma {:induction false} HandleAllCaller(t: Table, c: FuncId, insts: seq<Instruction>, m: Module)
    requires WellFormed(m) && Covers(t, m) && c in t && AllResolvable(m, insts)
    ensures HandleAll(t, c, insts, m)[c].directCalls == t[c].directCalls + CallRecords(insts, t[c].callCount, m)
  {
    if insts != [] {
      var prefix := insts[..|insts| - 1];
      var last := insts[|insts| - 1];
      HandleAllPrefix(t, c, insts, m);
      HandleAllCaller(t, c, prefix, m);
      HandleAllCount(t, c, prefix, m);
      var r0 := HandleAll(t, c, prefix, m);
      HandleAllSnoc(t, c, insts, m, r0);
      StepCaller(r0, c, last, m);
      var base := t[c].callCount;
      var a, b, n := t[c].directCalls, CallRecords(prefix, base, m), NewRecords(last, base + CallCount(prefix, m), m);
      assert r0[c].directCalls == a + b;
      assert Step(r0, c, last, m)[c].directCalls == (a + b) + n;
      assert HandleAll(t, c, insts, m)[c].directCalls == (a + b) + n;
      CallRecordsSnoc(insts, base, m, prefix, last);
      AppendAssoc(a, b, n);
      assert CallRecords(insts, base, m) == b + n;
    }
  }

  /** Walking the instructions of caller `c`: entry `k` gains `BodyGain` weight and, unless it is the caller, keeps its records and counter. */
  lemma {:induction false} HandleAllAt(t: Table, c: FuncId, insts: seq<Instruction>, m: Module, k: FuncId)
    requires WellFormed(m) && Covers(t, m) && c in t && AllResolvable(m, insts) && k in t
    ensures var r := HandleAll(t, c, insts, m);
            && r[k].weight == t[k].weight + BodyGain(insts, k, m)
            && SameIdentity(t[k], r[k])
            && (k != c ==> r[k].directCalls == t[k].directCalls && r[k].callCount == t[k].callCount)
  {
    if insts != [] {
      var prefix := insts[..|insts| - 1];
      assert AllResolvable(m, prefix);
      HandleAllAt(t, c, prefix, m, k);
      var r0 := HandleAll(t, c, prefix, m);
      StepAt(r0, c, insts[|insts| - 1], m, k);
    }
  }

  /** An instruction's records all carry the site it is given, and it has some only if it is a numbered call. */
  lemma NewRecordsSites(inst: Instruction, site: nat, m: Module)
    requires Resolvable(m, inst)
    ensures forall i :: 0 <= i < |NewRecords(inst, site, m)| ==> NewRecords(inst, site, m)[i].callSiteNum == site
    ensures NewRecords(inst, site, m) != [] ==> IsNumberedCall(inst, m)
  {
    if inst.kind.Indirect? {
      MatchRecordsShape(m.functions, inst.kind.operandTypes, inst.loc, site);
    }
  }

  /** The records `rs` are numbered in order, each number in `[lo, hi)`. */
  predicate SitesWithin(rs: seq<CallInfo>, lo: nat, hi: nat)
  {
    && (forall i :: 0 <= i < |rs| ==> lo <= rs[i].callSiteNum < hi)
    && (forall i, j :: 0 <= i < j < |rs| ==> rs[i].callSiteNum <= rs[j].callSiteNum)
  }

  /** Records numbered in `[lo, site)` followed by records all numbered `site` are numbered in order in `[lo, hi)`. */
  lemma SitesWithinAppend(ps: seq<CallInfo>, ns: seq<CallInfo>, lo: nat, site: nat, hi: nat)
    requires SitesWithin(ps, lo, site)
    requires forall i :: 0 <= i < |ns| ==> ns[i].callSiteNum == site
    requires lo <= site <= hi && (ns != [] ==> site < hi)
    ensures SitesWithin(ps + ns, lo, hi)
  {
    var rs := ps + ns;
    forall i | 0 <= i < |rs| ensures lo <= rs[i].callSiteNum < hi {
      if i < |ps| {
        assert rs[i] == ps[i];
      } else {
        assert rs[i] == ns[i - |ps|];
      }
    }
    forall i, j | 0 <= i < j < |rs| ensures rs[i].callSiteNum <= rs[j].callSiteNum {
      if j < |ps| {
        assert rs[i] == ps[i] && rs[j] == ps[j];
      } else if i < |ps| {
        assert rs[i] == ps[i] && rs[j] == ns[j - |ps|];
      } else {
        assert rs[i] == ns[i - |ps|] && rs[j] == ns[j - |ps|];
      }
    }
  }

  /** The records of `insts` are numbered in order, from `base` to below `base` plus the number of calls. */
  lemma {:induction false} CallRecordsSites(insts: seq<Instruction>, base: nat, m: Module)
    requires AllResolvable(m, insts)
    ensures SitesWithin(CallRecords(insts, base, m), base, base + CallCount(insts, m))
  {
    if insts != [] {
      var prefix := insts[..|insts| - 1];
      var last := insts[|insts| - 1];
      assert AllResolvable(m, prefix);
      CallRecordsSites(prefix, base, m);
      var site := base + CallCount(prefix, m);
      NewRecordsSites(last, site, m);
      CallRecordsSnoc(insts, base, m, prefix, last);
      SitesWithinAppend(CallRecords(prefix, base, m), NewRecords(last, site, m), base, site, base + CallCount(insts, m));
    }
  }

  // ---------------------------------------------------------------------------
  // The whole module
  // ---------------------------------------------------------------------------

  /** The weight the first `n` functions of `m` give function `g`. */
  function ModuleGain(m: Module, n: nat, g: FuncId): nat
    requires WellFormed(m) && n <= |m.functions|
  {
    if n == 0 then 0
    else
      var f := m.functions[n - 1];
      assert f in m.functions;
      ModuleGain(m, n - 1, g) + (if f.name == DbgDeclare then 0 else BodyGain(Body(f), g, m))
  }

  /** The functions of `fs` that get a table entry. */
  function EntryIds(fs: seq<Function>): set<FuncId>
  {
    set f | f in fs && f.name != DbgDeclare :: f.id
  }

  /** Starting from an empty table, the first loop yields one fresh entry per function but the debug intrinsic. */
  lemma {:induction false} InitTableFresh(fs: seq<Function>)
    ensures var r := InitTable(map[], fs);
            && r.Keys == EntryIds(fs)
            && (forall k :: k in r ==> r[k] == NewFunctionInfo(k))
  {
    if fs != [] {
      var prefix := fs[..|fs| - 1];
      var f := fs[|fs| - 1];
      InitTableFresh(prefix);
      assert fs == prefix + [f];
      assert forall g :: g in fs <==> g in prefix || g == f;
      var ids := EntryIds(fs);
      var ids0 := EntryIds(prefix);
      if f.name == DbgDeclare {
        assert ids == ids0;
      } else {
        assert ids == ids0 + {f.id};
      }
    }
  }

  /** The second loop, over the first `n` functions: entry `k` gains their calls' weight and keeps its identity. */
  lemma {:induction false} BuildCallsAt(t: Table, m: Module, n: nat, k: FuncId)
    requires WellFormed(m) && Covers(t, m) && n <= |m.functions| && k in t
    ensures var r := BuildCalls(t, m, n);
            r[k].weight == t[k].weight + ModuleGain(m, n, k) && SameIdentity(t[k], r[k])
  {
    if n > 0 {
      BuildCallsAt(t, m, n - 1, k);
      var r0 := BuildCalls(t, m, n - 1);
      var g := m.functions[n - 1];
      assert g in m.functions;
      if g.name != DbgDeclare {
        HandleAllAt(r0, g.id, Body(g), m, k);
      }
    }
  }

  /**
   * The second loop, over the first `n` functions: function `i` collects
   * exactly its own body's records and counter if it is among them, and keeps
   * its entry's records and counter otherwise.
   */
  lemma {:induction false} BuildCallsEntry(t: Table, m: Module, n: nat, i: nat)
    requires WellFormed(m) && Covers(t, m) && n <= |m.functions|
    requires i < |m.functions| && m.functions[i].name != DbgDeclare
    ensures var r := BuildCalls(t, m, n);
            var f := m.functions[i];
            && f.id in t
            && (i < n ==> (&& r[f.id].callCount == t[f.id].callCount + CallCount(Body(f), m)
                           && r[f.id].directCalls == t[f.id].directCalls + CallRecords(Body(f), t[f.id].callCount, m)))
            && (n <= i ==> r[f.id].callCount == t[f.id].callCount && r[f.id].directCalls == t[f.id].directCalls)
  {
    var f := m.functions[i];
    assert f in m.functions;
    if n > 0 {
      BuildCallsEntry(t, m, n - 1, i);
      var r0 := BuildCalls(t, m, n - 1);
      var g := m.functions[n - 1];
      assert g in m.functions;
      if g.name != DbgDeclare {
        if i == n - 1 {
          HandleAllCaller(r0, g.id, Body(g), m);
          HandleAllCount(r0, g.id, Body(g), m);
        } else {
          assert f.id != g.id;
          HandleAllAt(r0, g.id, Body(g), m, f.id);
        }
      }
    }
  }

  /** After `runOnModule` on a fresh pass: exactly one entry per function other than the debug intrinsic, filed under that function. */
  lemma BuildKeys(m: Module)
    requires WellFormed(m)
    ensures var r := Build(map[], m);
            r.Keys == EntryIds(m.functions) && KeysMatch(r)
  {
    var t := InitTable(map[], m.functions);
    InitTableFresh(m.functions);
    var r := Build(map[], m);
    forall k | k in r ensures r[k].id == k {
      BuildCallsAt(t, m, |m.functions|, k);
    }
  }

  /**
   * After `runOnModule` on a fresh pass, `filename`, `bugweight` and
   * `possibleCalls` are still unset, and every weight is the gain from all
   * calls of the module.
   */
  lemma BuildEntryFields(m: Module, k: FuncId)
    requires WellFormed(m) && k in Build(map[], m)
    ensures var r := Build(map[], m);
            && r[k].weight == ModuleGain(m, |m.functions|, k)
            && r[k].filename == "" && r[k].bugweight == 0 && r[k].possibleCalls == []
  {
    var t := InitTable(map[], m.functions);
    InitTableFresh(m.functions);
    BuildCallsAt(t, m, |m.functions|, k);
  }

  /**
   * After `runOnModule` on a fresh pass, function `f`'s counter is the number
   * of its numbered calls, its records are exactly those of its own body,
   * numbered from 0 in visiting order, and each is below the counter.
   */
  lemma BuildFunctionEntry(m: Module, f: Function)
    requires WellFormed(m) && f in m.functions && f.name != DbgDeclare
    ensures var r := Build(map[], m);
            && f.id in r
            && r[f.id].callCount == CallCount(Body(f), m)
            && r[f.id].directCalls == CallRecords(Body(f), 0, m)
            && SitesWithin(r[f.id].directCalls, 0, r[f.id].callCount)
  {
    var t := InitTable(map[], m.functions);
    InitTableFresh(m.functions);
    var i :| 0 <= i < |m.functions| && m.functions[i] == f;
    BuildCallsEntry(t, m, |m.functions|, i);
    CallRecordsSites(Body(f), 0, m);
  }
}
