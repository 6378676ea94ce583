/**
 * The text `WeightedCallGraphPass::print` writes from the table
 * (lib/callgraphs/CallGraph.cpp:173-191 and 260-262): one comma-separated
 * line per function, a blank line, and the closing "has weight:" lines.
 *
 * `DenseMap` iteration order is unspecified, so every renderer takes the
 * order in which the table's keys are visited as a parameter.
 */
module CallGraphOutput {
  import opened CallGraphTypes
  import opened Text

  /** `order` visits every key of `t` exactly once, and every key has a name. */
  predicate Enumerates(order: seq<FuncId>, t: Table, names: map<FuncId, string>)
  {
    && (forall i, j :: 0 <= i < j < |order| ==> order[i] != order[j])
    && (forall i :: 0 <= i < |order| ==> order[i] in t)
    && (forall k :: k in t ==> k in order)
    && t.Keys <= names.Keys
  }

  // ---------------------------------------------------------------------------
  // The function lines (lines 178-188)
  // ---------------------------------------------------------------------------

  /** The `,i,file,line` fields of records `rs`, without the commas: `i` is the list position. */
  function SiteFields(rs: seq<CallInfo>): seq<string>
  {
    if rs == [] then []
    else
      var ci := rs[|rs| - 1];
      SiteFields(rs[..|rs| - 1]) + [NatToString(|rs| - 1), ci.filename, NatToString(ci.lineNum)]
  }

  /** The fields of the line of the function called `name` with entry `fi`. */
  function FunctionFields(name: string, fi: FunctionInfo): (fields: seq<string>)
    ensures 2 <= |fields|
  {
    [name, NatToString(fi.weight)] + SiteFields(fi.directCalls)
  }

  /** `name,weight,0,file,line,1,file,line,...` and a line break. */
  function FunctionLine(name: string, fi: FunctionInfo): string
  {
    Join(FunctionFields(name, fi)) + "\n"
  }

  /** Record `i` is rendered as the three fields at `3 * i`: its list position, its file and its line. */
  lemma {:induction false} SiteFieldsAt(rs: seq<CallInfo>, i: nat)
    requires i < |rs|
    ensures |SiteFields(rs)| == 3 * |rs|
    ensures SiteFields(rs)[3 * i] == NatToString(i)
    ensures SiteFields(rs)[3 * i + 1] == rs[i].filename
    ensures SiteFields(rs)[3 * i + 2] == NatToString(rs[i].lineNum)
  {
    var prefix := rs[..|rs| - 1];
    SiteFieldsLength(prefix);
    if i < |rs| - 1 {
      SiteFieldsAt(prefix, i);
    }
  }

  lemma {:induction false} SiteFieldsLength(rs: seq<CallInfo>)
    ensures |SiteFields(rs)| == 3 * |rs|
  {
    if rs != [] {
      SiteFieldsLength(rs[..|rs| - 1]);
    }
  }

  /** The lines of the functions, in visiting order (lines 178-188). */
  function FunctionLines(t: Table, names: map<FuncId, string>, order: seq<FuncId>): (lines: seq<string>)
    requires forall i :: 0 <= i < |order| ==> order[i] in t && order[i] in names
    ensures |lines| == |order|
  {
    seq(|order|, i requires 0 <= i < |order| => FunctionLine(names[order[i]], t[order[i]]))
  }

  /** Everything printed before the hotspot file is read: the function lines, then an empty line (line 191). */
  function FirstBlock(t: Table, names: map<FuncId, string>, order: seq<FuncId>): (lines: seq<string>)
    requires Enumerates(order, t, names)
    ensures |lines| == |t| + 1
  {
    EnumerationSize(order, t, names);
    FunctionLines(t, names, order) + ["\n"]
  }

  /** An enumeration of the keys is exactly as long as the table. */
  lemma EnumerationSize(order: seq<FuncId>, t: Table, names: map<FuncId, string>)
    requires Enumerates(order, t, names)
    ensures |order| == |t|
  {
    var s := set i | 0 <= i < |order| :: order[i];
    assert s == t.Keys;
    DistinctSize(order);
  }

  /** A sequence without repetitions has as many elements as its set. */
  lemma {:induction false} DistinctSize(xs: seq<FuncId>)
    requires forall i, j :: 0 <= i < j < |xs| ==> xs[i] != xs[j]
    ensures |set i | 0 <= i < |xs| :: xs[i]| == |xs|
  {
    if xs != [] {
      var p := xs[..|xs| - 1];
      DistinctSize(p);
      var sp := set i | 0 <= i < |p| :: p[i];
      var sx := set i | 0 <= i < |xs| :: xs[i];
      assert sx == sp + {xs[|xs| - 1]} by {
        forall x | x in sx ensures x in sp + {xs[|xs| - 1]} {
          var i :| 0 <= i < |xs| && xs[i] == x;
          if i < |p| {
            assert p[i] == x;
          }
        }
        forall x | x in sp ensures x in sx {
          var i :| 0 <= i < |p| && p[i] == x;
          assert xs[i] == x;
        }
      }
      assert xs[|xs| - 1] !in sp by {
        forall i | 0 <= i < |p| ensures p[i] != xs[|xs| - 1] {
          assert p[i] == xs[i];
        }
      }
    }
  }

  /** Each table entry has exactly one function line. */
  lemma FunctionLineOnce(t: Table, names: map<FuncId, string>, order: seq<FuncId>, k: FuncId)
    requires Enumerates(order, t, names) && k in t
    ensures exists i :: && 0 <= i < |order| && order[i] == k
                        && FunctionLines(t, names, order)[i] == FunctionLine(names[k], t[k])
                        && (forall j :: 0 <= j < |order| && order[j] == k ==> j == i)
  {
    var i :| 0 <= i < |order| && order[i] == k;
    assert FunctionLines(t, names, order)[i] == FunctionLine(names[k], t[k]);
  }

  // ---------------------------------------------------------------------------
  // The closing lines (lines 260-262)
  // ---------------------------------------------------------------------------

  /** `name has weight:bugweight`, with the `bugweight` the table holds. */
  function WeightLine(name: string, bugweight: nat): string
  {
    name + " has weight:" + NatToString(bugweight) + "\n"
  }

  /** The closing lines, in visiting order, each printing the table's own `bugweight`. */
  function WeightLines(t: Table, names: map<FuncId, string>, order: seq<FuncId>): (lines: seq<string>)
    requires forall i :: 0 <= i < |order| ==> order[i] in t && order[i] in names
    ensures |lines| == |order|
  {
    seq(|order|, i requires 0 <= i < |order| => WeightLine(names[order[i]], t[order[i]].bugweight))
  }
}
