/**
 * Two defects of lib/callgraphs/CallGraph.cpp, each stated as written and
 * corrected as evidently intended.
 *
 * 1. `runOnModule` records a function's file on the local copy `fun` made at
 *    line 44 (lines 113 and 120), never on the table entry, so the score of
 *    lines 226-250 only ever sees the empty file name.
 * 2. `print` accumulates the score into the copy `fi` made at line 223 and
 *    prints the table's untouched `bugweight` at lines 260-262.
 */
module Findings {
  import opened Wrappers
  import opened CallGraphTypes
  import opened Ir
  import opened CallGraphBuilder
  import opened CallGraphProperties
  import opened WeightedCallGraph
  import opened CallGraphOutput

  // ---------------------------------------------------------------------------
  // 1. The function's file never reaches the table
  // ---------------------------------------------------------------------------

  /** As written: after `runOnModule`, no hotspot file but the empty name ever counts, so every score is 0. */
  lemma BuiltScoreIsZero(m: Module, freq: FreqMap, k: FuncId)
    requires WellFormed(m) && k in Build(map[], m) && "" !in freq
    ensures Score(Build(map[], m), freq, k) == 0
  {
    var r := Build(map[], m);
    forall j | j in r ensures r[j].filename !in freq {
      BuildEntryFields(m, j);
    }
    ScoreWithoutHotspots(r, freq, k);
  }

  /** A direct call to a function other than the debug intrinsic: the calls that set `fun->filename`. */
  predicate SetsFile(m: Module, inst: Instruction)
    requires Resolvable(m, inst)
  {
    inst.kind.Direct? && Lookup(m.functions, inst.kind.callee).value.name != DbgDeclare
  }

  /** The file `fun->filename` holds after handling `insts`: that of the last call that sets it, "" before any. */
  function FunctionFile(insts: seq<Instruction>, m: Module): string
    requires AllResolvable(m, insts)
  {
    if insts == [] then ""
    else
      var last := insts[|insts| - 1];
      assert AllResolvable(m, insts[..|insts| - 1]);
      if SetsFile(m, last) then LocFile(last.loc) else FunctionFile(insts[..|insts| - 1], m)
  }

  /** The file is that of the last direct call, with "unknown" for a call without a debug location. */
  lemma {:induction false} FunctionFileIsLastCall(insts: seq<Instruction>, m: Module, i: nat)
    requires AllResolvable(m, insts) && i < |insts| && SetsFile(m, insts[i])
    requires forall j :: i < j < |insts| ==> !SetsFile(m, insts[j])
    ensures FunctionFile(insts, m) == LocFile(insts[i].loc)
  {
    var prefix := insts[..|insts| - 1];
    if i < |insts| - 1 {
      assert AllResolvable(m, prefix);
      forall j | i < j < |prefix| ensures !SetsFile(m, prefix[j]) {
        assert prefix[j] == insts[j];
      }
      FunctionFileIsLastCall(prefix, m, i);
    }
  }

  /** A function without such a call keeps the empty file name. */
  lemma {:induction false} FunctionFileWithoutCall(insts: seq<Instruction>, m: Module)
    requires AllResolvable(m, insts)
    requires forall j :: 0 <= j < |insts| ==> !SetsFile(m, insts[j])
    ensures FunctionFile(insts, m) == ""
  {
    if insts != [] {
      var prefix := insts[..|insts| - 1];
      assert AllResolvable(m, prefix);
      forall j | 0 <= j < |prefix| ensures !SetsFile(m, prefix[j]) {
        assert prefix[j] == insts[j];
      }
      FunctionFileWithoutCall(prefix, m);
    }
  }

  /** Corrected: every entry of a module function takes the file its walk computed. */
  function WithFiles(t: Table, m: Module): (r: Table)
    requires WellFormed(m)
    ensures r.Keys == t.Keys
  {
    map k | k in t ::
      match Lookup(m.functions, k)
      case None => t[k]
      case Some(f) => t[k].(filename := FunctionFile(Body(f), m))
  }

  /** In a well-formed module, looking up a function's identity finds that function. */
  lemma LookupOwn(m: Module, f: Function)
    requires WellFormed(m) && f in m.functions
    ensures Lookup(m.functions, f.id) == Some(f)
  {
    var i :| 0 <= i < |m.functions| && m.functions[i] == f;
    LookupAt(m.functions, i);
  }

  lemma {:induction false} LookupAt(fs: seq<Function>, i: nat)
    requires i < |fs| && forall a, b :: 0 <= a < b < |fs| ==> fs[a].id != fs[b].id
    ensures Lookup(fs, fs[i].id) == Some(fs[i])
  {
    if i > 0 {
      assert fs[0].id != fs[i].id;
      LookupAt(fs[1..], i - 1);
    }
  }

  /**
   * Corrected: with the files recorded, the score of a function counts three
   * times the frequency of its own file, and a function whose last direct
   * call lies in a hotspot file scores at least three times that frequency.
   */
  lemma FiledScoreCountsOwnFile(m: Module, freq: FreqMap, f: Function)
    requires WellFormed(m) && f in m.functions && f.name != DbgDeclare
    ensures var r := WithFiles(Build(map[], m), m);
            && f.id in r
            && r[f.id].filename == FunctionFile(Body(f), m)
            && Score(r, freq, f.id) >= 3 * Freq(freq, FunctionFile(Body(f), m))
  {
    BuildKeys(m);
    assert f.id in EntryIds(m.functions);
    LookupOwn(m, f);
  }

  // ---------------------------------------------------------------------------
  // 2. The computed score is discarded
  // ---------------------------------------------------------------------------

  /** As written: each closing line prints the table's `bugweight`, whatever the score of that function is. */
  lemma PrintedWeightIgnoresScore(t: Table, names: map<FuncId, string>, order: seq<FuncId>, freq: FreqMap, i: nat)
    requires Enumerates(order, t, names) && i < |order|
    ensures WeightLines(t, names, order)[i] == WeightLine(names[order[i]], t[order[i]].bugweight)
    ensures Score(t, freq, order[i]) > 0 ==>
              WeightLines(t, names, order)[i] != WeightLine(names[order[i]], t[order[i]].bugweight + Score(t, freq, order[i]))
  {
    var k := order[i];
    if Score(t, freq, k) > 0 {
      var a := t[k].bugweight;
      var b := t[k].bugweight + Score(t, freq, k);
      WeightLineInjective(names[k], a, b);
    }
  }

  /** Different weights print different closing lines. */
  lemma WeightLineInjective(name: string, a: nat, b: nat)
    requires a != b
    ensures WeightLine(name, a) != WeightLine(name, b)
  {
    var n := |name + " has weight:"|;
    var la := WeightLine(name, a);
    var lb := WeightLine(name, b);
    assert la[n..|la| - 1] == Text.NatToString(a);
    assert lb[n..|lb| - 1] == Text.NatToString(b);
    Text.NatToStringRoundTrip(a);
    Text.NatToStringRoundTrip(b);
  }

  /** An entry in a hotspot file: its score is 6 while its closing line prints 0. */
  lemma DiscardedScoreExample()
    ensures var t := map[1 := FunctionInfo(1, [], [], 0, 0, "x.c", 0)];
            && Score(t, map["x.c" := 2], 1) == 6
            && WeightLines(t, map[1 := "f"], [1]) == ["f has weight:0\n"]
  {
    var t := map[1 := FunctionInfo(1, [], [], 0, 0, "x.c", 0)];
    assert Text.NatToString(0) == "0";
    assert WeightLines(t, map[1 := "f"], [1])[0] == "f has weight:0\n";
  }

  /** Tables that agree on everything the score reads: keys, files and records. */
  predicate SameShape(t: Table, u: Table)
  {
    t.Keys == u.Keys && forall k :: k in t ==> t[k].filename == u[k].filename && t[k].directCalls == u[k].directCalls
  }

  lemma {:induction false} Depth2Shape(t: Table, u: Table, freq: FreqMap, rs: seq<CallInfo>)
    requires SameShape(t, u)
    ensures Depth2(t, freq, rs) == Depth2(u, freq, rs)
  {
    if rs != [] {
      Depth2Shape(t, u, freq, rs[..|rs| - 1]);
    }
  }

  lemma {:induction false} Depth1Shape(t: Table, u: Table, freq: FreqMap, rs: seq<CallInfo>)
    requires SameShape(t, u)
    ensures Depth1(t, freq, rs) == Depth1(u, freq, rs)
  {
    if rs != [] {
      Depth1Shape(t, u, freq, rs[..|rs| - 1]);
      var g := rs[|rs| - 1].callee;
      if g in t {
        Depth2Shape(t, u, freq, t[g].directCalls);
      }
    }
  }

  /** Tables that agree on keys, files and records give every function the same score. */
  lemma ScoreShape(t: Table, u: Table, freq: FreqMap, f: FuncId)
    requires SameShape(t, u) && f in t
    ensures Score(t, freq, f) == Score(u, freq, f)
  {
    Depth1Shape(t, u, freq, t[f].directCalls);
  }

  /** The score does not read `bugweight`: writing one function's `bugweight` leaves every score unchanged. */
  lemma ScoreIgnoresBugweight(t: Table, freq: FreqMap, k: FuncId, b: nat, f: FuncId)
    requires k in t && f in t
    ensures Score(t[k := t[k].(bugweight := b)], freq, f) == Score(t, freq, f)
  {
    var u := t[k := t[k].(bugweight := b)];
    assert SameShape(t, u);
    ScoreShape(t, u, freq, f);
  }

  /** Corrected: the table after adding each function's score to its `bugweight`. */
  function ScoredTable(t: Table, freq: FreqMap): (r: Table)
    ensures r.Keys == t.Keys
  {
    map k | k in t :: t[k].(bugweight := t[k].bugweight + Score(t, freq, k))
  }

  /**
   * Corrected: the loop of lines 222-258 writing each score back to the table
   * as soon as it is computed, visiting the keys of `order` in turn, each
   * reading the table the earlier write-backs left.
   */
  function WriteBack(t: Table, freq: FreqMap, order: seq<FuncId>): (r: Table)
    requires forall i :: 0 <= i < |order| ==> order[i] in t
    ensures SameShape(t, r)
    ensures forall k :: k in t ==> r[k] == t[k].(bugweight := r[k].bugweight)
  {
    if order == [] then t
    else
      var p := order[..|order| - 1];
      assert forall i :: 0 <= i < |p| ==> p[i] == order[i];
      var u := WriteBack(t, freq, p);
      var k := order[|order| - 1];
      u[k := u[k].(bugweight := u[k].bugweight + Score(u, freq, k))]
  }

  /** After writing back along distinct keys, exactly the visited entries carry their original score. */
  lemma {:induction false} WriteBackAt(t: Table, freq: FreqMap, order: seq<FuncId>)
    requires forall i :: 0 <= i < |order| ==> order[i] in t
    requires forall i, j :: 0 <= i < j < |order| ==> order[i] != order[j]
    ensures forall k :: k in t ==>
              WriteBack(t, freq, order)[k]
                == if k in order then t[k].(bugweight := t[k].bugweight + Score(t, freq, k)) else t[k]
  {
    if order != [] {
      var p := order[..|order| - 1];
      assert forall i :: 0 <= i < |p| ==> p[i] == order[i];
      WriteBackAt(t, freq, p);
      var u := WriteBack(t, freq, p);
      var last := order[|order| - 1];
      assert last !in p;
      ScoreShape(t, u, freq, last);
      forall k | k in t
        ensures WriteBack(t, freq, order)[k]
                  == if k in order then t[k].(bugweight := t[k].bugweight + Score(t, freq, k)) else t[k]
      {
        if k != last {
          assert (k in order) == (k in p);
        }
      }
    }
  }

  /** Writing the scores back one by one in any visiting order gives `ScoredTable`. */
  lemma WriteBackAll(t: Table, names: map<FuncId, string>, order: seq<FuncId>, freq: FreqMap)
    requires Enumerates(order, t, names)
    ensures WriteBack(t, freq, order) == ScoredTable(t, freq)
  {
    WriteBackAt(t, freq, order);
    var a := WriteBack(t, freq, order);
    var b := ScoredTable(t, freq);
    assert a.Keys == b.Keys;
    forall k | k in a ensures a[k] == b[k] {
      assert k in order;
    }
  }

  /** Corrected: each closing line prints the function's `bugweight` plus its score. */
  lemma ScoredWeightLines(t: Table, names: map<FuncId, string>, order: seq<FuncId>, freq: FreqMap)
    requires Enumerates(order, t, names)
    ensures Enumerates(order, ScoredTable(t, freq), names)
    ensures forall i :: 0 <= i < |order| ==>
              WeightLines(ScoredTable(t, freq), names, order)[i]
                == WeightLine(names[order[i]], t[order[i]].bugweight + Score(t, freq, order[i]))
  {
  }

  /** Corrected: a function in a hotspot file prints a positive weight, whatever else the table holds. */
  lemma ScoredWeightPositive(t: Table, freq: FreqMap, k: FuncId)
    requires k in t && t[k].filename in freq && freq[t[k].filename] > 0
    ensures ScoredTable(t, freq)[k].bugweight >= 3 * freq[t[k].filename] > 0
  {
  }
}
