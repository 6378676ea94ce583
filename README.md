# Targeted call graph: builder, weighting and CSV-to-DOT converter

This project models three parts of an LLVM call-graph analysis for targeted symbolic execution. It proves properties of each model in Dafny.

1. **`CallGraphPass`** walks every instruction of every function of an IR module. For each function it fills a table entry (`FunctionInfo`) with:
   - the records of the calls the function makes (`CallInfo`: callee, line, file, call-site number);
   - a per-caller call counter;
   - an incoming `weight` counter.

   Direct calls are resolved by their target. An indirect call is matched against every address-taken function whose parameter types equal the call's operand types, position by position. The class `CallGraphBuilder.CallGraphPass` keeps the table in a field and updates it in place, as the source does. Each of its methods is proved equal to a pure function (`InitTable`, `ResolveIndirect`, `Step`, `HandleAll`, `Build`). Module `CallGraphProperties` proves what those functions guarantee:
   - which counters move;
   - how call-site numbers are assigned;
   - which candidates match;
   - that nothing else changes.
2. **`WeightedCallGraphPass::print`** does three things:
   - It turns parsed hotspot lines into a frequency map (`WeightedCallGraph.ReadFrequencies`).
   - It computes each function's bounded two-hop score with factors 3, 2 and 1 (`WeightedCallGraph.ComputeBugWeight`, which mirrors the loop, proved against `Score`).
   - It renders the `name,weight,site,file,line,...` lines and the closing `has weight:` lines (`CallGraphOutput`).
3. **`scripts/csv_to_gv.py`** (`CsvToGv`) does four things:
   - splits lines on commas and strips the fields;
   - splits the rows at the first blank row;
   - groups node columns into triples;
   - prints a DOT graph.

   Python exceptions (`IndexError`, `ValueError`) are results.

`OutputRoundTrip` connects parts 2 and 3. A function line written by the pass parses back to the same name, weight and `(position, file, line)` triples, and the pass's blank line is the delimiter the converter looks for. The converter is meant to read the pass's output, but after the blank line the pass prints the nested listing and the closing lines (the edge block is disabled). Those lines are read as edges with fewer than three fields, so `PrintCallgraphLayout` reports `IndexError` for them. `ReadFirstBlock` is therefore stated for any continuation of the first block.

`DenseMap` iteration order is unspecified. Every renderer therefore takes the visiting order of the table's keys as a parameter, with a predicate (`Enumerates`) saying that the order visits each key exactly once.

Three behaviours of the builder are worth stating plainly, and the model follows each:
- A direct call with a debug location does not raise the callee's `weight`. Only a direct call without one does (lib/callgraphs/CallGraph.cpp:107-121).
- An indirect candidate matches with up to parameters + 1 operands, because the operand list includes the called value (lines 71-86).
- Every direct call sets the caller's file, to "unknown" when there is no location, and the last such call wins (lines 113 and 120). The file never reaches the table (finding 1).

## Model

| member | source | states |
|---|---|---|
| CallGraphTypes.NewCallInfo | include/CallGraph.h:22-25 | the constructor stores callee, line, file and call-site number unchanged, and `getFunction` returns the callee |
| CallGraphTypes.NewFunctionInfo | include/CallGraph.h:33-42 | a fresh entry holds the given function, which `getFunction` returns; counters are 0 and both call lists are empty; the undeclared `filename` and `bugweight` start at "" and 0 |
| Ir.Lookup | lib/callgraphs/CallGraph.cpp:63-64 | the resolved callee is a function of the module with that identity, and resolution fails only when no function has it |
| CallGraphBuilder.MatchesSignature | lib/callgraphs/CallGraph.cpp:69-86 | the `match`/`j` loop returns true exactly when every parameter type equals the operand type at its position, a parameter without an operand being a mismatch, and, unless variadic, there are at most parameters + 1 operands |
| CallGraphBuilder.SignatureMatch | lib/callgraphs/CallGraph.cpp:69-86 | the declarative match of lines 69-86: every parameter type equals the operand type at its position, each parameter has an operand, and, unless variadic, there are at most parameters + 1 operands; `MatchesSignature` is proved to compute it |
| CallGraphBuilder.ResolveIndirect | lib/callgraphs/CallGraph.cpp:66-98 | the candidate loop adds and removes no table entry and leaves the caller's counter as it was |
| CallGraphBuilder.Step | lib/callgraphs/CallGraph.cpp:56-123 | handling one instruction adds and removes no table entry |
| CallGraphBuilder.HandleAll | lib/callgraphs/CallGraph.cpp:46-50 | handling a function's instructions adds and removes no table entry |
| CallGraphBuilder.InitTable | lib/callgraphs/CallGraph.cpp:33-37 | the first loop keeps every existing entry and gives every function not named `llvm.dbg.declare` an entry |
| CallGraphBuilder.BuildCalls | lib/callgraphs/CallGraph.cpp:40-51 | the second loop adds and removes no table entry |
| CallGraphBuilder.Build | lib/callgraphs/CallGraph.cpp:28-53 | the table `runOnModule` leaves: the first loop, then the second; its keys, counters, records and weights are stated by `BuildKeys`, `BuildFunctionEntry` and `BuildEntryFields` |
| CallGraphBuilder.CallGraphPass.constructor | include/CallGraph.h:54-57 | a new pass has an empty `funcs` table |
| CallGraphBuilder.CallGraphPass.ResolveCandidates | lib/callgraphs/CallGraph.cpp:66-98 | the in-place candidate loop leaves exactly the table `ResolveIndirect` describes, numbering records with the caller's counter before the call |
| CallGraphBuilder.CallGraphPass.HandleInstruction | lib/callgraphs/CallGraph.cpp:56-123 | `handleInstruction` leaves exactly the table `Step` describes |
| CallGraphBuilder.CallGraphPass.WalkFunction | lib/callgraphs/CallGraph.cpp:46-50 | the block and instruction loops leave exactly the table `HandleAll` describes for the function's instructions in program order |
| CallGraphBuilder.CallGraphPass.InsertFunctions | lib/callgraphs/CallGraph.cpp:33-37 | the first loop leaves exactly the table `InitTable` describes |
| CallGraphBuilder.CallGraphPass.RunOnModule | lib/callgraphs/CallGraph.cpp:28-53 | `runOnModule` leaves exactly the table `Build` describes and returns false |
| CallGraphProperties.MatchRecordsShape | lib/callgraphs/CallGraph.cpp:88-94 | an indirect call appends at most one record per candidate, each numbered with the same site and carrying the call's line and file |
| CallGraphProperties.ResolveIndirectRecords | lib/callgraphs/CallGraph.cpp:88-94 | the candidate loop appends exactly the matching candidates' records to the caller, in module order |
| CallGraphProperties.ResolveIndirectWeights | lib/callgraphs/CallGraph.cpp:92 | the candidate loop raises each entry's weight by the number of times it matches |
| CallGraphProperties.ResolveIndirectFrame | lib/callgraphs/CallGraph.cpp:66-98 | the candidate loop changes no counter, no other function's records and no other field |
| CallGraphProperties.StepCaller | lib/callgraphs/CallGraph.cpp:56-123 | the caller's counter rises by 1 exactly for an indirect call or a direct call to a function other than `llvm.dbg.declare`, and the caller gains exactly that instruction's records |
| CallGraphProperties.StepAt | lib/callgraphs/CallGraph.cpp:56-123 | every entry gains exactly the instruction's weight gain for it, and entries other than the caller keep their records and counter |
| CallGraphProperties.StepEffect | lib/callgraphs/CallGraph.cpp:56-123 | the whole effect of one instruction on every entry: caller's counter and records, every weight, and nothing else |
| CallGraphProperties.NonCallUnchanged | lib/callgraphs/CallGraph.cpp:59-61 | a non-call, or a direct call to `llvm.dbg.declare`, leaves the whole table unchanged, the caller's counter included |
| CallGraphProperties.DirectCallEffect | lib/callgraphs/CallGraph.cpp:107-121 | a direct call appends one record numbered with the caller's old counter, then raises the counter by 1; with a location it records that line and file and leaves the callee's weight alone; without one it records 0 and "unknown" and raises the callee's weight by 1 |
| CallGraphProperties.IndirectCallEffect | lib/callgraphs/CallGraph.cpp:88-99 | an indirect call raises the caller's counter by exactly 1 however many candidates match; it keeps the old records and appends at most one per function, each numbered with the old counter |
| CallGraphProperties.MatchRecordsCallees | lib/callgraphs/CallGraph.cpp:69-94 | a function receives a record from an indirect call exactly when it is address-taken and its signature matches |
| CallGraphProperties.MatchCountDistinct | lib/callgraphs/CallGraph.cpp:69-94 | with distinct identities, an indirect call raises a candidate's weight by 1 if it matches and by 0 otherwise |
| CallGraphProperties.HandleAllCount | lib/callgraphs/CallGraph.cpp:46-50 | walking a function raises its counter by the number of its numbered calls |
| CallGraphProperties.HandleAllCaller | lib/callgraphs/CallGraph.cpp:46-50 | walking a function appends exactly its instructions' records, in program order, numbered from its counter |
| CallGraphProperties.HandleAllAt | lib/callgraphs/CallGraph.cpp:46-50 | walking a function raises each entry's weight by its body's gain for it; other entries keep records and counter |
| CallGraphProperties.NewRecordsSites | lib/callgraphs/CallGraph.cpp:88-121 | every record an instruction appends carries the site it is given, and only numbered calls append records |
| CallGraphProperties.CallRecordsSites | lib/callgraphs/CallGraph.cpp:88-121 | call-site numbers never decrease along the records and stay between the base and the base plus the number of calls |
| CallGraphProperties.InitTableFresh | lib/callgraphs/CallGraph.cpp:33-37 | from an empty table, the first loop yields exactly one fresh entry per function not named `llvm.dbg.declare` |
| CallGraphProperties.BuildCallsAt | lib/callgraphs/CallGraph.cpp:40-51 | after the second loop over n functions, each entry's weight has grown by their calls' gain, and nothing but weight, records and counter changed |
| CallGraphProperties.BuildCallsEntry | lib/callgraphs/CallGraph.cpp:40-51 | each visited function collects exactly its own body's counter and records; an unvisited one keeps them |
| CallGraphProperties.BuildKeys | include/CallGraph.h:54 | after `runOnModule` the table has one entry per function not named `llvm.dbg.declare`, filed under that function |
| CallGraphProperties.BuildEntryFields | lib/callgraphs/CallGraph.cpp:28-53 | after `runOnModule` each weight is the gain from all calls of the module, and `filename`, `bugweight` and `possibleCalls` are still "", 0 and empty |
| CallGraphProperties.BuildFunctionEntry | lib/callgraphs/CallGraph.cpp:40-51 | after `runOnModule` a function's counter is its number of calls and its records are exactly its own, numbered from 0 in order and below the counter |
| WeightedCallGraph.FreqFoldKeys | lib/callgraphs/CallGraph.cpp:206-217 | the hotspot map has exactly one entry per name on a hotspot line |
| WeightedCallGraph.FreqFold | lib/callgraphs/CallGraph.cpp:206-217 | the map the hotspot loop builds by `insert`ing each line in order; its keys and first-entry rule are stated by `FreqFoldKeys` and `FreqFoldFirst` |
| WeightedCallGraph.FreqFoldFirst | lib/callgraphs/CallGraph.cpp:215-216 | a repeated hotspot name keeps the frequency of its first line |
| WeightedCallGraph.ReadFrequencies | lib/callgraphs/CallGraph.cpp:203-219 | an unopenable hotspot file gives the empty map; otherwise the loop inserts the lines in order, first entry kept |
| WeightedCallGraph.ComputeBugWeight | lib/callgraphs/CallGraph.cpp:222-258 | the nested loop adds to the copy's `bugweight` exactly the function's two-hop score |
| WeightedCallGraph.Score | lib/callgraphs/CallGraph.cpp:222-258 | the amount the loop adds for one function: 3 times its own file's frequency, plus per recorded callee with an entry 2 times that callee's file frequency and 1 times each of its callees' file frequency; `ScoreIsPathSum` states it as a sum over call paths |
| WeightedCallGraph.ScoreIsPathSum | lib/callgraphs/CallGraph.cpp:226-252 | the score is the sum, over every path of at most two recorded calls through functions with an entry, of 3, 2 or 1 (by length) times the frequency of the file at its end |
| WeightedCallGraph.ScoreMonotone | lib/callgraphs/CallGraph.cpp:226-252 | raising hotspot frequencies never lowers a score |
| WeightedCallGraph.ScoreWithoutHotspots | lib/callgraphs/CallGraph.cpp:203-252 | when no file of the table is a hotspot, as when the file cannot be opened, every score is 0 |
| WeightedCallGraph.ScoreExample | lib/callgraphs/CallGraph.cpp:222-258 | f in a.c calls g in b.c, which calls f back, with hotspot `a.c 2`: f scores 8 and g scores 4 |
| CallGraphOutput.FunctionFields | lib/callgraphs/CallGraph.cpp:178-188 | a function line has at least the name and weight fields |
| CallGraphOutput.SiteFields | lib/callgraphs/CallGraph.cpp:182-186 | the `,siteID,file,line` fields of the records; `SiteFieldsAt` states their positions and values |
| CallGraphOutput.FunctionLine | lib/callgraphs/CallGraph.cpp:178-188 | one function line: its fields joined by commas and a line break; `FunctionLineRow` and `FunctionLineNode` show it reads back as those fields |
| CallGraphOutput.SiteFieldsAt | lib/callgraphs/CallGraph.cpp:181-185 | record i is rendered as the three fields at 3i: its list position (not its call-site number), its file and its line |
| CallGraphOutput.FunctionLines | lib/callgraphs/CallGraph.cpp:177-188 | one line per visited key |
| CallGraphOutput.FirstBlock | lib/callgraphs/CallGraph.cpp:177-191 | the first block has one line per table entry plus the blank line |
| CallGraphOutput.EnumerationSize | lib/callgraphs/CallGraph.cpp:177 | a visiting order is exactly as long as the table |
| CallGraphOutput.FunctionLineOnce | lib/callgraphs/CallGraph.cpp:177-188 | every table entry has exactly one function line, at its position in the visiting order |
| CallGraphOutput.WeightLines | lib/callgraphs/CallGraph.cpp:260-262 | one closing line per visited key |
| CallGraphOutput.WeightLine | lib/callgraphs/CallGraph.cpp:262 | `name has weight:bugweight` and a line break; `WeightLineInjective` shows different weights give different lines |
| CsvToGv.GetRowTuples | scripts/csv_to_gv.py:4-5 | one row per input line |
| CsvToGv.RowTuple | scripts/csv_to_gv.py:5 | one line split on commas with every piece stripped; `RowTupleShape` states its shape |
| CsvToGv.GetRowTuplesAppend | scripts/csv_to_gv.py:4-5 | rows are computed line by line, so the rows of consecutive inputs concatenate |
| CsvToGv.RowTupleShape | scripts/csv_to_gv.py:5 | a row has one field more than its line has commas, and every field is stripped and comma-free |
| CsvToGv.GroupsShape | scripts/csv_to_gv.py:9 | the groups concatenate back to the fields after the second, each has 1 to 3 fields, all but the last exactly 3, and a 2-field row gives none |
| CsvToGv.GroupAt | scripts/csv_to_gv.py:9 | group k is the three fields starting at index 3k of the rest |
| CsvToGv.GroupsCount | scripts/csv_to_gv.py:9 | 3n fields give n groups |
| CsvToGv.ReadNodesResult | scripts/csv_to_gv.py:8-10 | `read_nodes` raises `IndexError` exactly when a row has fewer than two fields, and otherwise gives one node per row, in order |
| CsvToGv.ReadNode | scripts/csv_to_gv.py:9 | one node: name, weight text and the triples of the remaining fields, or `IndexError` for fewer than two fields |
| CsvToGv.ReadNodes | scripts/csv_to_gv.py:8-10 | `read_nodes`, stopping at the first exception; `ReadNodesResult` states its result |
| CsvToGv.DelimIndex | scripts/csv_to_gv.py:15 | `tuples.index(('',))` finds the first row equal to `('',)`, or none when there is no such row |
| CsvToGv.Partition | scripts/csv_to_gv.py:15-18 | the split of the rows at the first delimiter, with the node rows read; `PartitionNoDelimiter`, `PartitionAt` and `PartitionBlock` state its result |
| CsvToGv.ReadCallgraph | scripts/csv_to_gv.py:13-18 | `read_callgraph`: the rows of the lines, partitioned; `ReadFirstBlock` states what it reads from the pass's first block |
| CsvToGv.PartitionNoDelimiter | scripts/csv_to_gv.py:15 | `read_callgraph` raises `ValueError` exactly when no row is `('',)` |
| CsvToGv.PartitionAt | scripts/csv_to_gv.py:13-18 | with a first delimiter at d, `read_callgraph` succeeds exactly when every row before it has two fields; the nodes are then exactly the rows before it and the edges exactly the rows after it, the delimiter in neither |
| CsvToGv.PartitionOf | scripts/csv_to_gv.py:13-18 | when the rows before the first delimiter read as given nodes, `read_callgraph` gives those nodes and the rows after it |
| CsvToGv.PartitionBlock | scripts/csv_to_gv.py:13-18 | node rows, a blank row, then any rows read back as exactly those nodes and those rows |
| CsvToGv.CallSitesText | scripts/csv_to_gv.py:26 | each call site adds `\|<l{site}>{file}:{line}` to the label in order, and only a group of fewer than three fields raises `IndexError` |
| CsvToGv.SiteText | scripts/csv_to_gv.py:26 | the label text of one call site, or `IndexError` for fewer than three fields |
| CsvToGv.CallSites | scripts/csv_to_gv.py:26 | the label text of all call sites, stopping at the first exception; `CallSitesText` states its result |
| CsvToGv.NodeLine | scripts/csv_to_gv.py:25-28 | the DOT line of one node; `PrintNodesLines` states it per node |
| CsvToGv.EdgeLine | scripts/csv_to_gv.py:31 | the DOT line of one edge, or `IndexError` for fewer than three fields |
| CsvToGv.PrintNodes | scripts/csv_to_gv.py:25-28 | the node loop, stopping at the first exception; `PrintNodesLines` states its result |
| CsvToGv.PrintEdges | scripts/csv_to_gv.py:30-31 | the edge loop, stopping at the first exception; `PrintEdgesLines` states its result |
| CsvToGv.PrintNodesLines | scripts/csv_to_gv.py:25-28 | the node loop prints one line per node in input order, and raises exactly when a node has a short call-site group |
| CsvToGv.PrintEdgesLines | scripts/csv_to_gv.py:30-31 | the edge loop prints `  {a}:l{n} -> {b};` from each edge's first three fields in order, and raises exactly when an edge has fewer |
| CsvToGv.PrintCallgraphLayout | scripts/csv_to_gv.py:21-33 | the header, one line per node, one per edge, then "}" when nothing raises; `IndexError` exactly when a group or edge is short, after the header |
| CsvToGv.PrintCallgraph | scripts/csv_to_gv.py:21-33 | `print_callgraph`: header, nodes, edges and the closing brace, with the lines printed before an exception; `PrintCallgraphLayout` states its result |
| OutputRoundTrip.RowOfJoined | scripts/csv_to_gv.py:5 | stripped comma-free fields joined by commas and ended by a line break split and strip back to themselves |
| OutputRoundTrip.FunctionLineRow | lib/callgraphs/CallGraph.cpp:178-188 | the fields of a function line with clean name and files come back unchanged from `get_row_tuples` |
| OutputRoundTrip.SiteFieldsGroups | scripts/csv_to_gv.py:9 | the call-site fields group into one (position, file, line) triple per record |
| OutputRoundTrip.FieldsNode | scripts/csv_to_gv.py:8-10 | `read_nodes` turns the fields of a function line into name, weight text and the records' triples |
| OutputRoundTrip.FunctionLineNode | scripts/csv_to_gv.py:8-10 | a function line with clean name and files parses back to the same name, weight and (position, file, line) triples |
| OutputRoundTrip.ExpectedNodeNumbers | lib/callgraphs/CallGraph.cpp:179-185 | the numbers read back are the entry's weight and each record's list position and line |
| OutputRoundTrip.BlankLineIsDelimiter | lib/callgraphs/CallGraph.cpp:191 | the blank line the pass writes is the row `('',)` |
| OutputRoundTrip.FirstBlockRows | lib/callgraphs/CallGraph.cpp:177-191 | the rows of the first block are the fields of each function line, then the delimiter |
| OutputRoundTrip.ReadFirstBlock | scripts/csv_to_gv.py:13-18 | whatever follows the first block, `read_callgraph` reads one node per table entry, equal to what its line encodes, and the rest as edges |
| Findings.BuiltScoreIsZero | lib/callgraphs/CallGraph.cpp:110-121 | as written: after `runOnModule` every score is 0 unless the empty name is a hotspot |
| Findings.FunctionFileIsLastCall | lib/callgraphs/CallGraph.cpp:107-121 | the file the walk computes is that of the last direct call, "unknown" when it has no location |
| Findings.FunctionFile | lib/callgraphs/CallGraph.cpp:113-120 | the file `fun->filename` holds after the walk; `FunctionFileIsLastCall` and `FunctionFileWithoutCall` state it |
| Findings.FunctionFileWithoutCall | lib/callgraphs/CallGraph.cpp:44 | a function without direct calls keeps the empty file name |
| Findings.WithFiles | lib/callgraphs/CallGraph.cpp:113-120 | corrected: recording files adds and removes no entry |
| Findings.FiledScoreCountsOwnFile | lib/callgraphs/CallGraph.cpp:226-229 | corrected: with files recorded, a function's score counts 3 times its own file's frequency |
| Findings.PrintedWeightIgnoresScore | lib/callgraphs/CallGraph.cpp:260-262 | as written: each closing line prints the table's `bugweight`, and differs from the computed weight whenever the score is positive |
| Findings.WeightLineInjective | lib/callgraphs/CallGraph.cpp:261 | different weights print different closing lines |
| Findings.DiscardedScoreExample | lib/callgraphs/CallGraph.cpp:222-262 | an entry in x.c with hotspot `x.c 2` scores 6 but prints `has weight:0` |
| Findings.ScoreShape | lib/callgraphs/CallGraph.cpp:226-252 | the score reads only the keys, files and records of the table |
| Findings.ScoreIgnoresBugweight | lib/callgraphs/CallGraph.cpp:226-252 | writing one function's `bugweight` changes no score |
| Findings.ScoredTable | lib/callgraphs/CallGraph.cpp:222-258 | corrected: writing the scores back adds and removes no entry |
| Findings.WriteBack | lib/callgraphs/CallGraph.cpp:222-258 | corrected in place: writing each score back as soon as it is computed changes only `bugweight`s: every other field of every entry, and the keys, stay as they were |
| Findings.WriteBackAt | lib/callgraphs/CallGraph.cpp:222-258 | corrected in place: after the write-backs along distinct keys, each visited entry has its `bugweight` raised by its score in the original table, and the others are unchanged |
| Findings.WriteBackAll | lib/callgraphs/CallGraph.cpp:222-258 | corrected in place: writing the scores back one by one along any visiting order gives `ScoredTable` |
| Findings.ScoredWeightLines | lib/callgraphs/CallGraph.cpp:260-262 | corrected: each closing line prints the function's `bugweight` plus its score |
| Findings.ScoredWeightPositive | lib/callgraphs/CallGraph.cpp:226-229 | corrected: a function in a hotspot file prints a positive weight |
| Text.NatToString | lib/callgraphs/CallGraph.cpp:179 | an unsigned prints as nonempty decimal digits without a leading zero |
| Text.NatToStringRoundTrip | lib/callgraphs/CallGraph.cpp:179 | reading the printed digits back gives the number |
| Text.Strip | scripts/csv_to_gv.py:5 | `str.strip` leaves no whitespace at either end and keeps a string that has none |
| Text.Split | scripts/csv_to_gv.py:5 | `split(',')` gives at least one piece, none containing a comma |
| Text.SplitCount | scripts/csv_to_gv.py:5 | `split(',')` gives one piece more than there are commas |
| Text.JoinSplit | scripts/csv_to_gv.py:5 | joining the pieces with commas gives the line back |
| Text.SplitJoin | lib/callgraphs/CallGraph.cpp:179-183 | comma-free fields written with commas split back into the same fields |

## Findings

| source | as written | input that shows it | evidently intended | confidence | as-written member | corrected member |
|---|---|---|---|---|---|---|
| lib/callgraphs/CallGraph.cpp:113-120 | the caller's file is stored on the local copy `fun` made at line 44, never on the table entry, so every score only ever looks up the empty name | function f in a.c calling g at a.c:3, hotspot line `a.c 1`: f scores 0 | the table entry holds the file of the function's calls, and f scores at least 3 | not executed | Findings.BuiltScoreIsZero | Findings.FiledScoreCountsOwnFile |
| lib/callgraphs/CallGraph.cpp:223-262 | the score is added to the copy `fi` made at line 223, and the closing lines print the table's untouched `bugweight` | an entry in x.c with hotspot line `x.c 2`: computed 6, printed `has weight:0` | the closing line prints the computed weight | not executed | Findings.PrintedWeightIgnoresScore | Findings.ScoredWeightLines |

The corrected pipeline is `Build`, then `WithFiles`, then `ScoredTable`, then `WeightLines`. `WriteBackAll` shows that writing the scores back during the visiting loop, one function at a time, gives the same table.

## Left out

- Integer width: `callCount`, `weight`, `lineNum`, `bugweight` and the hotspot frequencies are `unsigned` in the source. The model uses unbounded naturals, so 32-bit wrap-around is not modelled.
- CallGraphBuilder.ResolveIndirect: the source dereferences the debug location of an indirect call without a null check (lines 89-90). For a call without a location the model records line 0 and file "unknown", as a direct call does; the source's undefined behaviour is not modelled.
- CallGraphBuilder.SignatureMatch: `argslist[j++]` reads past the operand list when a candidate has more parameters than the call has operands (line 79). That read is modelled as a mismatch.
- An instruction whose callee is a function outside the module cannot occur: `Ir.WellFormed` requires every direct callee to be a module function, and every function identity to be distinct.
- `llvm.dbg.declare` is never address-taken (`Ir.WellFormed`). The source would consider it as an indirect candidate if it were.
- LLVM casts (`dyn_cast`, `stripPointerCasts`, `CallSite`) and IR types are replaced by the abstract instruction datatype and type tokens compared for identity.
- `funcList` is written but never read, so it is not modelled. `possibleCalls` is never written and stays empty.
- `WeightedCallGraphPass::runOnModule` (lines 128-166) attaches LLVM metadata to instructions and is not part of this model. Pass registration and analysis-usage boilerplate are not part of it either.
- Opening and reading the `hotspots` file and the `stringstream` extraction (lines 203-219) are not modelled. `ReadFrequencies` takes the parsed `(name, frequency)` lines, or nothing when the file cannot be opened. Malformed lines, which leave the frequency uninitialised, are not modelled.
- The `errs()` diagnostics and the nested tab-indented listing (lines 225, 235 and 253) are output only and are not modelled. The disabled `#if FALSE` edge block (lines 193-201) is not modelled either.
- `DenseMap` iteration order is unspecified. Renderers take the visiting order as a parameter, and no property depends on a particular order.
- The converter's argument parsing and file or standard-input handling (scripts/csv_to_gv.py:36-46) are not modelled. Its input is the sequence of lines that file iteration yields, each with its line break.
- `print_callgraph` stops at the first exception. The model returns the lines printed before it together with the error. What the interpreter does with the exception afterwards is not modelled.
- Python strings are sequences of characters. `str.strip` is modelled with Python's whitespace set. Unicode normalisation and encodings are not modelled.
- CallGraphTypes.NewFunctionInfo: `FunctionInfo` in include/CallGraph.h:33-44 declares neither `filename` nor `bugweight`, although lib/callgraphs/CallGraph.cpp reads and writes both. The model declares them, and a fresh entry starts them at "" and 0. A C++ `unsigned` member without an initialiser would hold an indeterminate value; that is not modelled.
- OutputRoundTrip.ReadFirstBlock: stated only for names and files without commas, whitespace at either end, `'\n'` or `'\r'` (`CleanField`). The pass writes names and files unescaped, and the converter reads its input with universal newlines, so such a field splits or shifts the row and is not read back.
