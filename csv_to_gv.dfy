/**
 * scripts/csv_to_gv.py: reads the comma-separated call graph that the pass
 * prints and writes it as a Graphviz DOT graph.
 *
 * The input is the sequence of lines Python's file iteration yields, each
 * with its line break. Each `print` call is one element of the output. The
 * exceptions the script can raise on malformed input (`IndexError` from
 * indexing or `str.format`, `ValueError` from `tuple.index`) are results.
 */
module CsvToGv {
  import opened Wrappers
  import opened Text

  /** A Python tuple of strings. */
  type Row = seq<string>

  datatype PyError = IndexError | ValueError

  // ---------------------------------------------------------------------------
  // get_row_tuples (lines 4-5)
  // ---------------------------------------------------------------------------

  /** `tuple(col.strip() for col in line.split(','))`. */
  function RowTuple(line: string): Row
  {
    var cols := Split(line);
    seq(|cols|, i requires 0 <= i < |cols| => Strip(cols[i]))
  }

  /** `get_row_tuples`: one row per line, in order. */
  function GetRowTuples(lines: seq<string>): (rows: seq<Row>)
    ensures |rows| == |lines|
  {
    seq(|lines|, i requires 0 <= i < |lines| => RowTuple(lines[i]))
  }

  /** The rows of two consecutive runs of lines are the rows of each, in order. */
  lemma GetRowTuplesAppend(a: seq<string>, b: seq<string>)
    ensures GetRowTuples(a + b) == GetRowTuples(a) + GetRowTuples(b)
  {
    var r := GetRowTuples(a + b);
    forall i | 0 <= i < |r| ensures r[i] == (GetRowTuples(a) + GetRowTuples(b))[i] {
      if i >= |a| {
        assert (a + b)[i] == b[i - |a|];
      }
    }
  }

  /** Stripping keeps a field free of commas. */
  lemma StripNoComma(s: string)
    requires NoComma(s)
    ensures NoComma(Strip(s))
  {
    var l := StripLeft(s);
    assert NoComma(l) by {
      forall i | 0 <= i < |l| ensures l[i] != ',' {
        assert l[i] == s[|s| - |l| + i];
      }
    }
    var r := StripRight(l);
    forall i | 0 <= i < |r| ensures r[i] != ',' {
      assert r[i] == l[i];
    }
  }

  /** A line has one field more than it has commas, and each field is stripped and comma-free. */
  lemma RowTupleShape(line: string)
    ensures |RowTuple(line)| == CommaCount(line) + 1
    ensures forall i :: 0 <= i < |RowTuple(line)| ==> NoEdgeSpace(RowTuple(line)[i]) && NoComma(RowTuple(line)[i])
  {
    SplitCount(line);
    var cols := Split(line);
    forall i | 0 <= i < |cols| ensures NoComma(Strip(cols[i])) {
      StripNoComma(cols[i]);
    }
  }

  // ---------------------------------------------------------------------------
  // read_nodes (lines 8-10)
  // ---------------------------------------------------------------------------

  /** A node: its name, its weight text and its call-site groups. */
  datatype Node = Node(name: string, weight: string, sites: seq<Row>)

  function Min(a: int, b: int): int { if a <= b then a else b }

  /** `tuple(node[i:i+3] for i in range(2, len(node), 3))` for `xs == node[2:]`. */
  function Groups(xs: seq<string>): seq<Row>
  {
    seq((|xs| + 2) / 3, k requires 0 <= k < (|xs| + 2) / 3 => xs[3 * k .. Min(3 * k + 3, |xs|)])
  }

  /** The concatenation of groups. */
  function Concat(gs: seq<Row>): seq<string>
  {
    if gs == [] then [] else Concat(gs[..|gs| - 1]) + gs[|gs| - 1]
  }

  /** The groups are the consecutive slices of 3 of `xs`, the last one possibly shorter, and together give `xs` back. */
  lemma GroupsShape(xs: seq<string>)
    ensures Concat(Groups(xs)) == xs
    ensures forall k :: 0 <= k < |Groups(xs)| ==> 1 <= |Groups(xs)[k]| <= 3
    ensures forall k :: 0 <= k < |Groups(xs)| - 1 ==> |Groups(xs)[k]| == 3
    ensures xs == [] <==> Groups(xs) == []
  {
    var gs := Groups(xs);
    GroupsConcat(xs, |gs|);
    assert gs[..|gs|] == gs;
    assert Min(3 * |gs|, |xs|) == |xs|;
    assert xs[..|xs|] == xs;
  }

  lemma {:induction false} GroupsConcat(xs: seq<string>, n: nat)
    requires n <= |Groups(xs)|
    ensures Concat(Groups(xs)[..n]) == xs[..Min(3 * n, |xs|)]
  {
    var gs := Groups(xs);
    if n == 0 {
      assert gs[..0] == [];
    } else {
      GroupsConcat(xs, n - 1);
      assert gs[..n][..n - 1] == gs[..n - 1];
      assert xs[..Min(3 * n, |xs|)] == xs[..3 * (n - 1)] + xs[3 * (n - 1)..Min(3 * n, |xs|)];
    }
  }

  /** A group that starts three fields before the end or earlier is the slice of three there. */
  lemma GroupAt(xs: seq<string>, k: nat)
    requires 3 * k + 3 <= |xs|
    ensures k < |Groups(xs)| && Groups(xs)[k] == [xs[3 * k], xs[3 * k + 1], xs[3 * k + 2]]
  {
    var g := xs[3 * k .. 3 * k + 3];
    assert Groups(xs)[k] == g;
  }

  /** A multiple of three fields gives exactly that many groups of three. */
  lemma GroupsCount(xs: seq<string>, n: nat)
    requires |xs| == 3 * n
    ensures |Groups(xs)| == n
  {
  }

  /** One node of `read_nodes`: fields 0 and 1, and the groups of the rest; fewer than 2 fields raise `IndexError`. */
  function ReadNode(row: Row): Result<Node, PyError>
  {
    if |row| < 2 then Failure(IndexError) else Success(Node(row[0], row[1], Groups(row[2..])))
  }

  /** `tuple(read_nodes(rows))`: the nodes in order, or the error of the first row that raises. */
  function ReadNodes(rows: seq<Row>): Result<seq<Node>, PyError>
  {
    if rows == [] then Success([])
    else
      match ReadNode(rows[0])
      case Failure(e) => Failure(e)
      case Success(n) =>
        match ReadNodes(rows[1..])
        case Failure(e) => Failure(e)
        case Success(ns) => Success([n] + ns)
  }

  /** `read_nodes` succeeds exactly when every row has at least two fields, and then gives one node per row. */
  lemma {:induction false} ReadNodesResult(rows: seq<Row>)
    ensures ReadNodes(rows).Success? <==> forall i :: 0 <= i < |rows| ==> |rows[i]| >= 2
    ensures ReadNodes(rows).Failure? ==> ReadNodes(rows).error == IndexError
    ensures ReadNodes(rows).Success? ==>
              && |ReadNodes(rows).value| == |rows|
              && forall i :: 0 <= i < |rows| ==> ReadNode(rows[i]) == Success(ReadNodes(rows).value[i])
  {
    if rows != [] {
      ReadNodesResult(rows[1..]);
      if |rows[0]| >= 2 && ReadNodes(rows[1..]).Success? {
        var ns := ReadNodes(rows[1..]).value;
        forall i | 0 <= i < |rows| ensures ReadNode(rows[i]) == Success(ReadNodes(rows).value[i]) {
          if i > 0 {
            assert rows[i] == rows[1..][i - 1];
          }
        }
      } else if |rows[0]| >= 2 {
        var i :| 0 <= i < |rows[1..]| && |rows[1..][i]| < 2;
        assert |rows[i + 1]| < 2;
      }
    }
  }

  // ---------------------------------------------------------------------------
  // read_callgraph (lines 13-18)
  // ---------------------------------------------------------------------------

  /** The row `('',)` that separates nodes from edges. */
  const Delimiter: Row := [""]

  /** `tuples.index(('',))`: the first delimiter row, if any. */
  function DelimIndex(rows: seq<Row>): (r: Option<nat>)
    ensures r.Some? ==> r.value < |rows| && rows[r.value] == Delimiter
                        && forall i :: 0 <= i < r.value ==> rows[i] != Delimiter
    ensures r.None? ==> forall i :: 0 <= i < |rows| ==> rows[i] != Delimiter
  {
    if rows == [] then None
    else if rows[0] == Delimiter then Some(0)
    else
      match DelimIndex(rows[1..])
      case None => None
      case Some(d) => Some(d + 1)
  }

  /** `read_callgraph`: the nodes before the first delimiter row and the rows after it. */
  function ReadCallgraph(lines: seq<string>): Result<(seq<Node>, seq<Row>), PyError>
  {
    Partition(GetRowTuples(lines))
  }

  /** Lines 15-17 on the rows of the input. */
  function Partition(rows: seq<Row>): Result<(seq<Node>, seq<Row>), PyError>
  {
    match DelimIndex(rows)
    case None => Failure(ValueError)
    case Some(d) =>
      match ReadNodes(rows[..d])
      case Failure(e) => Failure(e)
      case Success(nodes) => Success((nodes, rows[d + 1..]))
  }

  /** Without a row equal to `('',)`, and only then, `read_callgraph` raises `ValueError`. */
  lemma PartitionNoDelimiter(rows: seq<Row>)
    ensures Partition(rows) == Failure(ValueError) <==> forall i :: 0 <= i < |rows| ==> rows[i] != Delimiter
  {
    match DelimIndex(rows)
    case None =>
    case Some(d) =>
      ReadNodesResult(rows[..d]);
  }

  /**
   * With `d` the first delimiter row, `read_callgraph` succeeds exactly when
   * every row before it has at least two fields; the nodes are then exactly
   * the rows before it, in order, and the edges exactly the rows after it,
   * so the delimiter is in neither.
   */
  lemma PartitionAt(rows: seq<Row>, d: nat)
    requires d < |rows| && rows[d] == Delimiter
    requires forall i :: 0 <= i < d ==> rows[i] != Delimiter
    ensures Partition(rows).Success? <==> forall i :: 0 <= i < d ==> |rows[i]| >= 2
    ensures Partition(rows).Failure? ==> Partition(rows).error == IndexError
    ensures Partition(rows).Success? ==>
              && |Partition(rows).value.0| == d
              && (forall i :: 0 <= i < d ==> ReadNode(rows[i]) == Success(Partition(rows).value.0[i]))
              && Partition(rows).value.1 == rows[d + 1..]
  {
    assert DelimIndex(rows) == Some(d);
    var before := rows[..d];
    ReadNodesResult(before);
    assert forall i :: 0 <= i < d ==> before[i] == rows[i];
  }

  /** When the rows before the first delimiter read as `nodes`, `read_callgraph` gives `nodes` and the rows after it. */
  lemma PartitionOf(rows: seq<Row>, d: nat, nodes: seq<Node>)
    requires d < |rows| && rows[d] == Delimiter
    requires forall i :: 0 <= i < d ==> rows[i] != Delimiter
    requires |nodes| == d
    requires forall i :: 0 <= i < d ==> ReadNode(rows[i]) == Success(nodes[i])
    ensures Partition(rows) == Success((nodes, rows[d + 1..]))
  {
    assert forall i :: 0 <= i < d ==> |rows[i]| >= 2;
    PartitionAt(rows, d);
    var r := Partition(rows).value;
    assert r.0 == nodes;
  }

  /** Rows that read as `nodes`, a delimiter, then any rows: `read_callgraph` gives `nodes` and exactly those rows. */
  lemma PartitionBlock(nodeRows: seq<Row>, edgeRows: seq<Row>, nodes: seq<Node>)
    requires |nodes| == |nodeRows|
    requires forall i :: 0 <= i < |nodeRows| ==> nodeRows[i] != Delimiter && ReadNode(nodeRows[i]) == Success(nodes[i])
    ensures Partition(nodeRows + [Delimiter] + edgeRows) == Success((nodes, edgeRows))
  {
    var rows := nodeRows + [Delimiter] + edgeRows;
    var d := |nodeRows|;
    assert forall i :: 0 <= i < d ==> rows[i] == nodeRows[i];
    assert rows[d + 1..] == edgeRows;
    PartitionOf(rows, d, nodes);
  }

  // ---------------------------------------------------------------------------
  // print_callgraph (lines 21-33)
  // ---------------------------------------------------------------------------

  /** What the script prints: one element per `print` call, and the exception that stopped it, if any. */
  datatype Printed = Printed(lines: seq<string>, error: Option<PyError>)

  const Header: string := "digraph {\n  node [shape=record];"

  /** `'|<l{0}>{1}:{2}'.format(*site)`. */
  function SiteText(site: Row): Result<string, PyError>
  {
    if |site| < 3 then Failure(IndexError) else Success("|<l" + site[0] + ">" + site[1] + ":" + site[2])
  }

  /** `''.join(...)` over the call-site groups, in order. */
  function CallSites(sites: seq<Row>): Result<string, PyError>
  {
    if sites == [] then Success("")
    else
      match SiteText(sites[0])
      case Failure(e) => Failure(e)
      case Success(s) =>
        match CallSites(sites[1..])
        case Failure(e) => Failure(e)
        case Success(rest) => Success(s + rest)
  }

  /** The node line `  name[label="{name|Weight: weight<call sites>}"];`. */
  function NodeLine(node: Node): Result<string, PyError>
  {
    match CallSites(node.sites)
    case Failure(e) => Failure(e)
    case Success(cs) => Success("  " + node.name + "[label=\"{" + node.name + "|Weight: " + node.weight + cs + "}\"];")
  }

  /** `'  {0}:l{1} -> {2};'.format(*edge)`. */
  function EdgeLine(edge: Row): Result<string, PyError>
  {
    if |edge| < 3 then Failure(IndexError) else Success("  " + edge[0] + ":l" + edge[1] + " -> " + edge[2] + ";")
  }

  /** The node loop: the lines printed before the first node that raises. */
  function PrintNodes(nodes: seq<Node>): Printed
  {
    if nodes == [] then Printed([], None)
    else
      match NodeLine(nodes[0])
      case Failure(e) => Printed([], Some(e))
      case Success(l) =>
        var rest := PrintNodes(nodes[1..]);
        Printed([l] + rest.lines, rest.error)
  }

  /** The edge loop: the lines printed before the first edge that raises. */
  function PrintEdges(edges: seq<Row>): Printed
  {
    if edges == [] then Printed([], None)
    else
      match EdgeLine(edges[0])
      case Failure(e) => Printed([], Some(e))
      case Success(l) =>
        var rest := PrintEdges(edges[1..]);
        Printed([l] + rest.lines, rest.error)
  }

  /** `print_callgraph((nodes, edges))`. */
  function PrintCallgraph(nodes: seq<Node>, edges: seq<Row>): Printed
  {
    var pn := PrintNodes(nodes);
    if pn.error.Some? then Printed([Header] + pn.lines, pn.error)
    else
      var pe := PrintEdges(edges);
      if pe.error.Some? then Printed([Header] + pn.lines + pe.lines, pe.error)
      else Printed([Header] + pn.lines + pe.lines + ["}"], None)
  }

  /** Every group of the node has at least three fields. */
  predicate NodePrintable(node: Node)
  {
    forall k :: 0 <= k < |node.sites| ==> |node.sites[k]| >= 3
  }

  /** Each call site adds `|<l{site}>{file}:{line}` to the label, in order, and only groups of fewer than three fields raise. */
  lemma {:induction false} CallSitesText(sites: seq<Row>)
    ensures CallSites(sites).Success? <==> forall k :: 0 <= k < |sites| ==> |sites[k]| >= 3
    ensures CallSites(sites).Failure? ==> CallSites(sites).error == IndexError
    ensures sites != [] && CallSites(sites).Success? ==>
              CallSites(sites).value == SiteText(sites[0]).value + CallSites(sites[1..]).value
  {
    if sites != [] {
      CallSitesText(sites[1..]);
      if |sites[0]| >= 3 && !CallSites(sites[1..]).Success? {
        var k :| 0 <= k < |sites[1..]| && |sites[1..][k]| < 3;
        assert |sites[k + 1]| < 3;
      }
      if |sites[0]| >= 3 && CallSites(sites[1..]).Success? {
        forall k | 0 <= k < |sites| ensures |sites[k]| >= 3 {
          if k > 0 {
            assert sites[k] == sites[1..][k - 1];
          }
        }
      }
    }
  }

  lemma {:induction false} PrintNodesLines(nodes: seq<Node>)
    ensures PrintNodes(nodes).error.None? <==> forall i :: 0 <= i < |nodes| ==> NodePrintable(nodes[i])
    ensures PrintNodes(nodes).error.Some? ==> PrintNodes(nodes).error.value == IndexError
    ensures PrintNodes(nodes).error.None? ==>
              && |PrintNodes(nodes).lines| == |nodes|
              && forall i :: 0 <= i < |nodes| ==> NodeLine(nodes[i]) == Success(PrintNodes(nodes).lines[i])
  {
    if nodes != [] {
      PrintNodesLines(nodes[1..]);
      CallSitesText(nodes[0].sites);
      var rest := PrintNodes(nodes[1..]);
      if NodePrintable(nodes[0]) && rest.error.None? {
        forall i | 0 <= i < |nodes| ensures NodePrintable(nodes[i]) && NodeLine(nodes[i]) == Success(PrintNodes(nodes).lines[i]) {
          if i > 0 {
            assert nodes[i] == nodes[1..][i - 1];
          }
        }
      } else if NodePrintable(nodes[0]) {
        var i :| 0 <= i < |nodes[1..]| && !NodePrintable(nodes[1..][i]);
        assert nodes[i + 1] == nodes[1..][i];
      }
    }
  }

  lemma {:induction false} PrintEdgesLines(edges: seq<Row>)
    ensures PrintEdges(edges).error.None? <==> forall i :: 0 <= i < |edges| ==> |edges[i]| >= 3
    ensures PrintEdges(edges).error.Some? ==> PrintEdges(edges).error.value == IndexError
    ensures PrintEdges(edges).error.None? ==>
              && |PrintEdges(edges).lines| == |edges|
              && forall i :: 0 <= i < |edges| ==> PrintEdges(edges).lines[i] == "  " + edges[i][0] + ":l" + edges[i][1] + " -> " + edges[i][2] + ";"
  {
    if edges != [] {
      PrintEdgesLines(edges[1..]);
      var rest := PrintEdges(edges[1..]);
      if |edges[0]| >= 3 && rest.error.None? {
        forall i | 0 <= i < |edges| ensures |edges[i]| >= 3 {
          if i > 0 {
            assert edges[i] == edges[1..][i - 1];
          }
        }
      } else if |edges[0]| >= 3 {
        var i :| 0 <= i < |edges[1..]| && |edges[1..][i]| < 3;
        assert edges[i + 1] == edges[1..][i];
      }
    }
  }

  /**
   * `print_callgraph` prints the header, one line per node in input order,
   * one line per edge in input order, then "}"; it raises `IndexError` exactly
   * when a call-site group or an edge has fewer than three fields.
   */
  lemma PrintCallgraphLayout(nodes: seq<Node>, edges: seq<Row>)
    ensures var p := PrintCallgraph(nodes, edges);
            && (p.error.None? <==> (forall i :: 0 <= i < |nodes| ==> NodePrintable(nodes[i]))
                                   && (forall i :: 0 <= i < |edges| ==> |edges[i]| >= 3))
            && (p.error.Some? ==> p.error.value == IndexError && 1 <= |p.lines| && p.lines[0] == Header)
            && (p.error.None? ==>
                  && |p.lines| == |nodes| + |edges| + 2
                  && p.lines[0] == Header
                  && (forall i :: 0 <= i < |nodes| ==> NodeLine(nodes[i]) == Success(p.lines[1 + i]))
                  && (forall i :: 0 <= i < |edges| ==>
                        p.lines[1 + |nodes| + i] == "  " + edges[i][0] + ":l" + edges[i][1] + " -> " + edges[i][2] + ";")
                  && p.lines[|p.lines| - 1] == "}")
  {
    PrintNodesLines(nodes);
    PrintEdgesLines(edges);
  }
}
