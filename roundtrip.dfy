/**
 * The pass's first output block, read back by scripts/csv_to_gv.py: every
 * function line written at lib/callgraphs/CallGraph.cpp:178-188 parses back to
 * the same name, weight and (position, file, line) triples, and the blank line
 * of line 191 is the delimiter `read_callgraph` looks for.
 */
module OutputRoundTrip {
  import opened Wrappers
  import opened Text
  import opened CallGraphTypes
  import opened CallGraphOutput
  import opened CsvToGv

  /**
   * A name or file the CSV format carries unchanged: no comma, no whitespace
   * at either end, and neither '\n' nor '\r', each of which ends a line when
   * the converter reads its input with universal newlines.
   */
  predicate CleanField(s: string)
  {
    NoComma(s) && NoEdgeSpace(s) && (forall i :: 0 <= i < |s| ==> s[i] != '\n' && s[i] != '\r')
  }

  /** The function's name and the files of its records are clean. */
  predicate CleanEntry(name: string, fi: FunctionInfo)
  {
    CleanField(name) && forall i :: 0 <= i < |fi.directCalls| ==> CleanField(fi.directCalls[i].filename)
  }

  /** The call-site groups the converter should see for records `rs`: position, file, line. */
  function SiteGroups(rs: seq<CallInfo>): seq<Row>
  {
    seq(|rs|, i requires 0 <= i < |rs| => [NatToString(i), rs[i].filename, NatToString(rs[i].lineNum)])
  }

  /** The node the converter should read from the line of `name` and `fi`. */
  function ExpectedNode(name: string, fi: FunctionInfo): Node
  {
    Node(name, NatToString(fi.weight), SiteGroups(fi.directCalls))
  }

  /** Decimal text is always a clean field. */
  lemma NumberClean(n: nat)
    ensures CleanField(NatToString(n))
  {
    var s := NatToString(n);
    assert forall i :: 0 <= i < |s| ==> s[i] != ',' && s[i] != '\n' && !IsSpace(s[i]);
  }

  /** Appending text to a joined line appends it to the last field. */
  lemma {:induction false} JoinAppend(fields: seq<string>, suffix: string)
    requires 1 <= |fields|
    ensures Join(fields) + suffix == Join(fields[..|fields| - 1] + [fields[|fields| - 1] + suffix])
  {
    var n := |fields|;
    if n > 1 {
      JoinAppend(fields[1..], suffix);
      var g := fields[..n - 1] + [fields[n - 1] + suffix];
      assert g[1..] == fields[1..][..n - 2] + [fields[1..][n - 2] + suffix];
    }
  }

  /** Every field of the call sites of clean records is clean. */
  lemma {:induction false} SiteFieldsClean(rs: seq<CallInfo>)
    requires forall i :: 0 <= i < |rs| ==> CleanField(rs[i].filename)
    ensures forall j :: 0 <= j < |SiteFields(rs)| ==> CleanField(SiteFields(rs)[j])
  {
    if rs != [] {
      var prefix := rs[..|rs| - 1];
      SiteFieldsClean(prefix);
      NumberClean(|rs| - 1);
      NumberClean(rs[|rs| - 1].lineNum);
    }
  }

  /** Every field of a clean entry's line is clean. */
  lemma FieldsClean(name: string, fi: FunctionInfo)
    requires CleanEntry(name, fi)
    ensures forall j :: 0 <= j < |FunctionFields(name, fi)| ==> CleanField(FunctionFields(name, fi)[j])
  {
    var sites := SiteFields(fi.directCalls);
    SiteFieldsClean(fi.directCalls);
    NumberClean(fi.weight);
    var fields := FunctionFields(name, fi);
    assert forall j :: 2 <= j < |fields| ==> fields[j] == sites[j - 2];
  }

  /** A line break after a comma-free field leaves it comma-free. */
  lemma NewlineNoComma(s: string)
    requires NoComma(s)
    ensures NoComma(s + "\n")
  {
    var l := s + "\n";
    forall i | 0 <= i < |l| ensures l[i] != ',' {
      if i < |s| {
        assert l[i] == s[i];
      }
    }
  }

  /** The fields of a line as `split` sees them: the line break sticks to the last one. */
  function WithBreak(fields: seq<string>): (g: seq<string>)
    requires 1 <= |fields|
    ensures |g| == |fields|
  {
    fields[..|fields| - 1] + [fields[|fields| - 1] + "\n"]
  }

  /** `get_row_tuples` on stripped, comma-free fields joined by commas and ended by a line break gives the fields back. */
  lemma RowOfJoined(fields: seq<string>)
    requires 1 <= |fields|
    requires forall j :: 0 <= j < |fields| ==> NoComma(fields[j]) && NoEdgeSpace(fields[j])
    ensures RowTuple(Join(fields) + "\n") == fields
  {
    var g := WithBreak(fields);
    var line := Join(fields) + "\n";
    SplitWithBreak(fields);
    RowOfSplit(line, g);
    StripWithBreak(fields);
  }

  /** Splitting the joined line gives the fields, the last one with the line break. */
  lemma SplitWithBreak(fields: seq<string>)
    requires 1 <= |fields|
    requires forall j :: 0 <= j < |fields| ==> NoComma(fields[j])
    ensures Split(Join(fields) + "\n") == WithBreak(fields)
  {
    JoinAppend(fields, "\n");
    WithBreakNoComma(fields);
    SplitJoin(WithBreak(fields));
  }

  lemma WithBreakNoComma(fields: seq<string>)
    requires 1 <= |fields|
    requires forall j :: 0 <= j < |fields| ==> NoComma(fields[j])
    ensures forall j :: 0 <= j < |fields| ==> NoComma(WithBreak(fields)[j])
  {
    var n := |fields|;
    var g := WithBreak(fields);
    NewlineNoComma(fields[n - 1]);
    assert forall j :: 0 <= j < n - 1 ==> g[j] == fields[j];
  }

  /** Stripping each piece gives the fields back. */
  lemma StripWithBreak(fields: seq<string>)
    requires 1 <= |fields|
    requires forall j :: 0 <= j < |fields| ==> NoEdgeSpace(fields[j])
    ensures forall j :: 0 <= j < |fields| ==> Strip(WithBreak(fields)[j]) == fields[j]
  {
    var n := |fields|;
    var g := WithBreak(fields);
    forall j | 0 <= j < n ensures Strip(g[j]) == fields[j] {
      if j == n - 1 {
        StripTrailingSpace(fields[j], '\n');
      } else {
        assert g[j] == fields[j];
      }
    }
  }

  /** The row of a line is its pieces, stripped. */
  lemma RowOfSplit(line: string, g: seq<string>)
    requires Split(line) == g
    ensures |RowTuple(line)| == |g| && forall j :: 0 <= j < |g| ==> RowTuple(line)[j] == Strip(g[j])
  {
  }

  /** `get_row_tuples` gives back exactly the fields the pass joined into a function line. */
  lemma FunctionLineRow(name: string, fi: FunctionInfo)
    requires CleanEntry(name, fi)
    ensures RowTuple(FunctionLine(name, fi)) == FunctionFields(name, fi)
  {
    var fields := FunctionFields(name, fi);
    FieldsClean(name, fi);
    assert forall j :: 0 <= j < |fields| ==> NoComma(fields[j]) && NoEdgeSpace(fields[j]);
    RowOfJoined(fields);
  }

  /** The call-site fields group into the triples of the records, in list order. */
  lemma SiteFieldsGroups(rs: seq<CallInfo>)
    ensures Groups(SiteFields(rs)) == SiteGroups(rs)
  {
    var xs := SiteFields(rs);
    SiteFieldsLength(rs);
    GroupsCount(xs, |rs|);
    forall k | 0 <= k < |rs| ensures Groups(xs)[k] == SiteGroups(rs)[k] {
      SiteFieldsAt(rs, k);
      GroupAt(xs, k);
    }
  }

  /**
   * A clean entry's function line reads back as its node: the same name, the
   * weight's text, and one (position, file, line) triple per record.
   */
  lemma FunctionLineNode(name: string, fi: FunctionInfo)
    requires CleanEntry(name, fi)
    ensures ReadNode(RowTuple(FunctionLine(name, fi))) == Success(ExpectedNode(name, fi))
  {
    FunctionLineRow(name, fi);
    FieldsNode(name, fi);
  }

  /** `read_nodes` turns the fields of a function line into its node. */
  lemma FieldsNode(name: string, fi: FunctionInfo)
    ensures ReadNode(FunctionFields(name, fi)) == Success(ExpectedNode(name, fi))
  {
    var fields := FunctionFields(name, fi);
    assert fields[2..] == SiteFields(fi.directCalls);
    SiteFieldsGroups(fi.directCalls);
  }

  /** The numbers of the node read back are the entry's weight, and each record's position and line. */
  lemma ExpectedNodeNumbers(name: string, fi: FunctionInfo)
    ensures var node := ExpectedNode(name, fi);
            && node.name == name
            && DecimalValue(node.weight) == fi.weight
            && |node.sites| == |fi.directCalls|
            && forall i :: 0 <= i < |node.sites| ==>
                 && |node.sites[i]| == 3
                 && DecimalValue(node.sites[i][0]) == i
                 && node.sites[i][1] == fi.directCalls[i].filename
                 && DecimalValue(node.sites[i][2]) == fi.directCalls[i].lineNum
  {
    NatToStringRoundTrip(fi.weight);
    forall i | 0 <= i < |fi.directCalls| ensures DecimalValue(NatToString(i)) == i
                                          && DecimalValue(NatToString(fi.directCalls[i].lineNum)) == fi.directCalls[i].lineNum {
      NatToStringRoundTrip(i);
      NatToStringRoundTrip(fi.directCalls[i].lineNum);
    }
  }

  /** The blank line of line 191 is the delimiter row. */
  lemma BlankLineIsDelimiter()
    ensures RowTuple("\n") == Delimiter
  {
    SplitJoin(["\n"]);
    StripTrailingSpace("", '\n');
    assert "" + ['\n'] == "\n";
  }

  /** The nodes the converter should read from the first block, in visiting order. */
  function ExpectedNodes(t: Table, names: map<FuncId, string>, order: seq<FuncId>): seq<Node>
    requires forall i :: 0 <= i < |order| ==> order[i] in t && order[i] in names
  {
    seq(|order|, i requires 0 <= i < |order| => ExpectedNode(names[order[i]], t[order[i]]))
  }

  /** The fields of each function line, in visiting order. */
  function FunctionRows(t: Table, names: map<FuncId, string>, order: seq<FuncId>): (rows: seq<Row>)
    requires forall i :: 0 <= i < |order| ==> order[i] in t && order[i] in names
    ensures |rows| == |order|
  {
    seq(|order|, i requires 0 <= i < |order| => FunctionFields(names[order[i]], t[order[i]]))
  }

  /** `get_row_tuples` on the function lines gives their fields back. */
  lemma FunctionLinesRows(t: Table, names: map<FuncId, string>, order: seq<FuncId>)
    requires forall i :: 0 <= i < |order| ==> order[i] in t && order[i] in names
    requires forall i :: 0 <= i < |order| ==> CleanEntry(names[order[i]], t[order[i]])
    ensures GetRowTuples(FunctionLines(t, names, order)) == FunctionRows(t, names, order)
  {
    var lines := FunctionLines(t, names, order);
    forall i | 0 <= i < |order| ensures RowTuple(lines[i]) == FunctionRows(t, names, order)[i] {
      FunctionLineRow(names[order[i]], t[order[i]]);
    }
  }

  /** The rows of the first block and what follows it: the fields of each function line, the delimiter, then the rows of the rest. */
  lemma FirstBlockRows(t: Table, names: map<FuncId, string>, order: seq<FuncId>, rest: seq<string>)
    requires Enumerates(order, t, names)
    requires forall k :: k in t ==> CleanEntry(names[k], t[k])
    ensures GetRowTuples(FirstBlock(t, names, order) + rest) == FunctionRows(t, names, order) + [Delimiter] + GetRowTuples(rest)
  {
    var lines := FunctionLines(t, names, order);
    assert FirstBlock(t, names, order) == lines + ["\n"];
    assert forall i :: 0 <= i < |order| ==> order[i] in t && order[i] in names;
    FunctionLinesRows(t, names, order);
    BlankLineIsDelimiter();
    GetRowTuplesAppend(lines, ["\n"]);
    assert GetRowTuples(lines + ["\n"]) == FunctionRows(t, names, order) + [Delimiter];
    GetRowTuplesAppend(lines + ["\n"], rest);
  }

  /**
   * Whatever the pass prints after the first block, `read_callgraph` reads one
   * node per table entry, each equal to what its function line encodes, and
   * takes the rest as edges.
   */
  lemma ReadFirstBlock(t: Table, names: map<FuncId, string>, order: seq<FuncId>, rest: seq<string>)
    requires Enumerates(order, t, names)
    requires forall k :: k in t ==> CleanEntry(names[k], t[k])
    ensures ReadCallgraph(FirstBlock(t, names, order) + rest) == Success((ExpectedNodes(t, names, order), GetRowTuples(rest)))
  {
    FirstBlockRows(t, names, order, rest);
    FunctionRowsRead(t, names, order);
    PartitionBlock(FunctionRows(t, names, order), GetRowTuples(rest), ExpectedNodes(t, names, order));
  }

  /** The rows of the function lines are not delimiters, and read as the expected nodes. */
  lemma FunctionRowsRead(t: Table, names: map<FuncId, string>, order: seq<FuncId>)
    requires forall i :: 0 <= i < |order| ==> order[i] in t && order[i] in names
    ensures var rows := FunctionRows(t, names, order);
            forall i :: 0 <= i < |order| ==> rows[i] != Delimiter && ReadNode(rows[i]) == Success(ExpectedNodes(t, names, order)[i])
  {
    var rows := FunctionRows(t, names, order);
    forall i | 0 <= i < |order| ensures rows[i] != Delimiter && ReadNode(rows[i]) == Success(ExpectedNodes(t, names, order)[i]) {
      FieldsNode(names[order[i]], t[order[i]]);
    }
  }
}
