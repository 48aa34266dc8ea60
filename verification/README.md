# gem5 course template: the logic under the configuration scripts

This project models, in Dafny, the parts of the gem5 assignment template that
compute something rather than hand parameters to the simulator:

- **`L1L2ClusterTree.connectControllers`** (module `Topology`). This is the tree
  network of the MESI two-level hierarchy. The process-wide class counters
  hand out router and link IDs. Each L1 controller but the first is paired
  with an L2 bank through two switches. Every L2 switch, the directory and
  the first L1 hang off one crossbar. The file
  `false-sharing/components/network.py` is a second copy of this class with
  the same logic (only formatting and one commented-out line differ), so one
  model stands for both.
- **`HW5MESITwoLevelCacheHierarchy.incorporate_cache`** (module
  `CacheHierarchy`): the controllers it creates for a board, the sequencer
  count, and the order in which its two failure modes strike.
- **The statistics interpreter** (module `Stats`). A `Stat` value slot is set
  once, read and reset. `RootStat` and `AggregateStat` fill it from a gem5
  `stats.txt`.
- **The header generators** `array.py`, `matrix.py` and `graph.py` (modules
  `HeaderText`, `Headers` and `Csr`). They cover:
  - the 80-character wrapping loop they share;
  - the include guard and preamble of each header;
  - the conversion of an edge list into the CSR arrays `columns` and `edges`.
- **The three integer kernels**: the level-synchronous BFS (`Bfs`), the
  exchange sort (`Bubble`) and N-queens backtracking (`Queens`).
- **`OutOfOrderCPU`** of assignment 3 (`Processors`): the core parameters it
  sets and its area score.

Every mutable object is a value here:
- a board, an array or a statistic is a `seq` or a datatype;
- each assignment produces the next value;
- the network's class counters are an `IdCounters` value threaded through
  the calls.

Errors the source raises are `Err` values of a `Result` (module `Wrappers`).
Text is `string`. A number the scripts print with `f"{x}"` is the decimal
text `IntToString` gives, and `ParseInt` reads it back.

Each kernel has a declarative partner:
- BFS: reachability by walks from vertex 0;
- sort: `Sorted`, the multiset, and uniqueness of the sorted arrangement;
- N-queens: the squares `isSafe` inspects, as a set (`Threatened`), and
  `Placed`, the placement invariant of the search;
- wrapping loop: the least-cut chunking `Chunks`;
- scan loops: `CountMatches`, `Total` and `IsLastMatch`;
- `connectControllers`: the closed-form wiring `Wired`.

## Model

| member | source | states |
|---|---|---|
| `Topology.ConnectControllers` | components/cache_hierarchies.py:239-350 | Fails exactly when `len(l1_ctrls) - 1 != len(l2_ctrls)`. Otherwise the network is wired as `Wired` lays out: the crossbar takes the first router ID; pair i adds an L1 switch, an L2 switch, two external links and four internal links, in source order; the directory link and the first-L1 link come last; each counter advances by the IDs drawn |
| `Topology.WiredPairing` | components/cache_hierarchies.py:260-310 | Pair i: `l1_ctrls[i+1]` sits on router 1+2i and `l2_ctrls[i]` on router 2+2i. Links 4i and 4i+1 join those two routers in both directions. Links 4i+2 and 4i+3 join the L2 switch and the crossbar in both directions |
| `Topology.WiredCrossbar` | components/cache_hierarchies.py:336-346 | The crossbar is router 0. The directory and `l1_ctrls[0]` are the last two external links, both on the crossbar. No other external link touches the crossbar. There are 2n+1 routers, 2n+2 external and 4n internal links |
| `Topology.WiredReverseLinks` | components/cache_hierarchies.py:290-334 | Every internal link has a partner with source and destination swapped and the same latency |
| `Topology.WiredXbarLatency` | components/cache_hierarchies.py:312-334 | An internal link carries `xbar_latency` exactly when the crossbar is one of its ends. The L1-L2 links keep the default latency |
| `Topology.WiredIdsIncreasing` | components/cache_hierarchies.py:211-228 | Each getter returns the counter's old value and raises it by one. So within a network the router, external-link and internal-link IDs are strictly increasing. All of them lie between the counters on entry and on exit |
| `Topology.SuccessiveNetworksDisjointIds` | false-sharing/components/network.py:19-36 | The counters are class attributes, so two networks built one after the other share no router ID and no link ID of either kind |
| `CacheHierarchy.IncorporateCache` | components/cache_hierarchies.py:76-181 | Creates one L1 per core, cores-1 L2 banks, one directory per memory port, and one DMA controller per DMA port (none without DMA ports). The sequencer count is #L1 + #DMA. A board with no memory port fails on `_directory_controllers[0]` before anything else. A board with no core fails the controller-count assertion. Otherwise the network is wired from the L1 and L2 lists and the first directory |
| `CacheHierarchy.L2BanksMatchAssertion` | components/cache_hierarchies.py:90-144 | On the L1 and L2 lists `incorporate_cache` builds (`_num_l2_banks = cores - 1`, and `range` of a negative count is empty), the assertion `len(l1) - 1 == len(l2)` holds exactly when the board has at least one core |
| `CacheHierarchy.IncorporatedNetworkSize` | components/cache_hierarchies.py:178-181 | For c >= 1 cores the network has 2c-1 routers, 2c external links and 4(c-1) internal links, and the router counter advances by 2c-1 |
| `Stats.NewStat` | util/stat_interpreters.py:32-34 | A new statistic keeps its name and starts unset |
| `Stats.SetValue` | util/stat_interpreters.py:40-43 | Succeeds exactly when the value is unset and stores the given value. Otherwise it fails with the already-set error |
| `Stats.GetValue` | util/stat_interpreters.py:45-48 | Returns the stored value exactly when one is set. Otherwise it fails with the not-set error |
| `Stats.Reset` | util/stat_interpreters.py:50-53 | Succeeds exactly when a value is set, and leaves the statistic unset. Otherwise it fails with the not-set error |
| `Stats.SetThenGet` | util/stat_interpreters.py:40-48 | A value set on a new statistic reads back unchanged |
| `Stats.SetTwiceFails` | util/stat_interpreters.py:40-43 | A second `set_value` after a successful one is refused |
| `Stats.ResetThenSet` | util/stat_interpreters.py:40-53 | After a successful `reset`, reading fails and a new `set_value` succeeds |
| `Stats.SliceBound` | util/stat_interpreters.py:67 | Python's clamping of a slice bound: an in-range bound stays, a negative one down to `-len` counts from the end, one past the end clamps to the length and one below `-len` clamps to 0 |
| `Stats.RootWindow` | util/stat_interpreters.py:67 | `readlines()[2:10]` is lines 2 to 9 of a file of at least ten lines, lines 2 to the end of a file of three to nine lines, and nothing for a file of at most two |
| `Stats.AggregateWindow` | util/stat_interpreters.py:87 | `readlines()[10:-3]` is lines 10 to len-4 of a file of more than 13 lines, and nothing otherwise |
| `Stats.LastComponentSuffix` | util/stat_interpreters.py:88 | `split(".")[-1]` is a dot-free suffix of the token. When it is not the whole token, a dot precedes it |
| `Stats.RootScanOk` | util/stat_interpreters.py:67-71 | The root loop raises exactly when its window has a blank line, or a matching line whose second token is missing or not a number |
| `Stats.RootScanCount` | util/stat_interpreters.py:67-71 | On a readable window the root loop counts exactly the lines whose first token equals the name |
| `Stats.RootScanLast` | util/stat_interpreters.py:67-71 | On a readable window the root loop ends with the value of the last matching line |
| `Stats.CountZeroIff` | util/stat_interpreters.py:72-75 | The match count is zero exactly when no line of the window matches |
| `Stats.AggregateScanOk` | util/stat_interpreters.py:87-91 | The aggregate loop raises exactly when its window has a blank line, or a matching line whose second token is missing or not a number |
| `Stats.AggregateScanSum` | util/stat_interpreters.py:87-91 | On a readable window the aggregate loop adds the sum of the matching lines' values to its start value and counts the matches, where a line matches when the last dotted component of its first token equals the name |
| `Stats.SetValueFromStatFile` | util/stat_interpreters.py:36-96 | The base `Stat` raises not-implemented. On success the name and kind are kept and a value is set |
| `Stats.RootStatFromFile` | util/stat_interpreters.py:63-76 | On a readable window: not found exactly when no line of lines 2..9 matches. Otherwise the value of the last match is stored, overwriting any value already set |
| `Stats.AggregateStatFromFile` | util/stat_interpreters.py:83-96 | On a readable window: not found exactly when nothing matches. Otherwise the sum of all matching values is stored, overwriting any value already set |
| `Stats.RootStatFileFails` | util/stat_interpreters.py:63-76 | Reading a root statistic fails with an error other than not-found exactly when the window is unreadable, whatever the statistic's state |
| `HeaderText.NatToString` | array.py:20-22 | The decimal text of a number is non-empty, all digits, and has no leading zero |
| `HeaderText.IntToStringRoundTrip` | array.py:38 | Reading back the text `f"{n}"` of any integer gives n |
| `HeaderText.JoinSnoc` | array.py:19-22 | Appending an element to the open line (`line = e`, or `line += ", " + e`) gives the join of the elements so far |
| `HeaderText.FirstCutIsLeast` | array.py:23-26 | The first cut is the least prefix whose join exceeds 80 characters, or the whole list when none does |
| `HeaderText.WrapLinesAreChunks` | array.py:17-29 | The wrapping loop emits exactly the rendered least-cut chunks of the element list |
| `HeaderText.ChunksLayout` | array.py:17-29 | The chunks, concatenated, are the elements in order. Every chunk but the last joins to more than 80 characters. Every chunk without its last element joins to at most 80 |
| `HeaderText.WrapLayout` | array.py:16-31 | The body has one line per chunk. Every line but the last is its chunk's join, longer than 80, followed by `", \n"`. The elements come back in order |
| `Headers.GuardedIff` | array.py:33-36 | A generated header is guarded by a macro exactly when its `#ifndef` and its `#define` both name that macro |
| `Headers.ArrayFilePreamble` | array.py:33-40 | `array.h` is guarded by `__BUBBLE_ARRAY_H__`. ARRAY_SIZE is defined as a number that reads back as the element count |
| `Headers.ArrayFileData` | array.py:16-31 | The `data` initialiser follows the preamble. Its body is the wrapped chunks, which hold the elements in order. It has no element line exactly when there is no element |
| `Headers.MatrixFilePreamble` | workloads/matmul/matrix.py:52-62 | `matrix.h` is guarded by `__MATMUL_MATRIX_H__`. NUM_ELEMENTS, with its line ended by the next entry, is size squared. C is zero-initialised. Any `int` size is admitted, negative ones included |
| `Headers.MatrixFileData` | workloads/matmul/matrix.py:17-51 | A's initialiser follows the preamble and B's follows A's. Each lists its size*size elements in order, wrapped by the 80-character rule |
| `Headers.GraphGuardAsWrittenBroken` | workloads/bfs/graph.py:68-72 | As written, `graph.h` is guarded by no macro at all: `#ifndef` and `#define` name different macros |
| `Headers.GraphFileGuarded` | workloads/bfs/graph.py:68-76 | With the `#define` naming the macro that `#ifndef` and `#endif` name, `graph.h` is guarded by `__BFS_GRAPH_H__` |
| `Headers.GraphFileVisited` | workloads/bfs/graph.py:74 | `visited` is declared with one entry per vertex, that is `len(columns) - 1` |
| `Headers.GraphFileData` | workloads/bfs/graph.py:34-67 | `columns` and then `edges` are declared with their lengths and list their values in order, wrapped by the 80-character rule |
| `Headers.GraphFileDefineOnly` | workloads/bfs/graph.py:68-76 | The header the script writes and the corrected one have the same number of lines and differ only in line 1, the `#define` |
| `Headers.GenerateGraphHeader` | workloads/bfs/graph.py:11-79 | The whole script as written: `edges` is the destination list. No macro name guards the output, and it agrees with the corrected header on every line but the `#define`. For a sorted, non-negative, non-empty edge list the graph is well formed and `visited` is sized one past the largest vertex named |
| `Csr.MaxDst` | workloads/bfs/graph.py:18-23 | The running maximum, which starts at -1, bounds every destination read and, when all fields are non-negative, is one of them when there is any |
| `Csr.Repeat` | workloads/bfs/graph.py:24-31 | `for _ in range(n)` appends the value max(n, 0) times |
| `Csr.BuildCsr` | workloads/bfs/graph.py:13-32 | `edges` is the destinations in input order. `columns` ends with `len(edges)`. For every input its entries never decrease and none exceeds `len(edges)`. For input sorted by source with non-negative fields, `columns[v]` is the number of lines with source below v, for v up to one past the largest vertex named |
| `Csr.BuiltGraphWellFormed` | workloads/bfs/graph.py:13-32 | From a sorted, non-negative, non-empty edge list the arrays form a well-formed CSR graph: columns start at 0, never decrease and end at `len(edges)`, and every edge names a vertex. The vertex count is max(last source, largest destination) + 1 |
| `Csr.EmptyInputColumns` | workloads/bfs/graph.py:13-32 | An empty edge list gives `columns = [0]` |
| `Bfs.ColumnsInRange` | workloads/bfs/bfs.cpp:29-32 | In a well-formed graph `columns[v] <= columns[v+1]` both lie in `[0, len(edges)]`, so the kernel's reads of `columns` and `edges` are in bounds |
| `Bfs.Succ` | workloads/bfs/bfs.cpp:29-32 | Every neighbour the kernel reads is a vertex, so `visited[neighbor]` is in bounds |
| `Bfs.PushesMark` | workloads/bfs/bfs.cpp:33-36 | Test-and-set: an unmarked vertex is marked and pushed once, and one fewer vertex is left unmarked |
| `Bfs.Expand` | workloads/bfs/bfs.cpp:29-37 | Expanding one vertex pushes exactly the neighbours that were unmarked, each once. Every pushed vertex is a neighbour. Afterwards every neighbour is marked |
| `Bfs.Level` | workloads/bfs/bfs.cpp:28-38 | One level pushes only neighbours of the frontier, each newly marked and once. Afterwards every neighbour of the frontier is marked |
| `Bfs.LevelKeeps` | workloads/bfs/bfs.cpp:27-41 | The state between levels is kept by one level: marked vertices are reached, expanded vertices have marked neighbours, and vertex 0 is expanded or on the frontier |
| `Bfs.ReachedIsVisited` | workloads/bfs/bfs.cpp:27-41 | Once vertex 0 is expanded and every marked vertex has been expanded, every vertex reached from 0 is marked |
| `Bfs.Search` | workloads/bfs/bfs.cpp:13-41 | The loop ends, with `visited[v]` set exactly for the vertices reached from 0 by one edge or more. So 0 itself is set only when it lies on a cycle. Each set vertex was pushed exactly once, so at most V vertices are pushed in all |
| `Bubble.CompareSwap` | workloads/bubble/bubble.cpp:20-24 | The smaller value ends at i and the larger at j, and nothing else moves. The entries are those of the input. A pair already in order, equal values included, is left alone |
| `Bubble.PassStep` | workloads/bubble/bubble.cpp:19-25 | One comparison extends the inner-loop invariant: `data[i]` is the least of `data[i..j]` |
| `Bubble.InnerPass` | workloads/bubble/bubble.cpp:19-25 | After the inner loop `data[i]` is the least entry from i on. The entries before i are untouched. The entries are a permutation of the input. The pass changes nothing when `data[i]` is already least |
| `Bubble.Sort` | workloads/bubble/bubble.cpp:18-26 | The result is sorted and a permutation of the input. A sorted input, in particular one of at most one entry, is returned unchanged |
| `Bubble.SortedUnique` | workloads/bubble/bubble.cpp:18-26 | There is only one sorted arrangement of a collection, so the result is determined by the input's multiset |
| `Queens.SetCellUndo` | workloads/queens/queens.cpp:37-42 | Writing a cell's old value back undoes the write |
| `Queens.IsSafe` | workloads/queens/queens.cpp:15-29 | Safe exactly when no queen stands on the row to the left, or on the up-left or down-left diagonal through (row, col), the square itself included |
| `Queens.ThreatenedLooksLeft` | workloads/queens/queens.cpp:15-29 | The answer depends only on columns 0 to col |
| `Queens.SafeSquareEmpty` | workloads/queens/queens.cpp:20-22 | A square judged safe is empty, because the up-left walk starts at the square itself |
| `Queens.PlaceKeeps` | workloads/queens/queens.cpp:35-40 | A queen on a safe square of the first empty column extends a non-attacking placement of the earlier columns by one column |
| `Queens.SolveUtil` | workloads/queens/queens.cpp:31-47 | `col >= N` succeeds with the board untouched. A failure leaves the board as it was. No cell left of col changes. A success from a non-attacking placement of columns before col, with the rest empty, leaves one queen in every column and no two queens on a row or diagonal |
| `Queens.Solve` | workloads/queens/queens.cpp:49-58 | From an empty board a success is a full solution, and a failure leaves the board as it was |
| `Queens.EmptyBoard` | workloads/queens/queens.cpp:66-74 | The board `main` allocates is N by N and all zero |
| `Queens.Run` | workloads/queens/queens.cpp:62-83 | The measured region: a reported success is a full solution, and on failure the board stays empty |
| `Processors.MakeCore` | assignment-3/components/processors.py:60-76 | All six stage widths equal `width`. ROB entries and physical register counts equal their arguments. Load and store queues have 128 entries |
| `Processors.MakeProcessor` | assignment-3/components/processors.py:113-120 | One core, built from the four arguments, which are also kept unchanged for scoring |
| `Processors.AreaScoreFactored` | assignment-3/components/processors.py:132-139 | The score equals (width + 1)(2 rob + int + fp) + 4 width |
| `Processors.AreaScoreMonotone` | assignment-3/components/processors.py:132-139 | Over non-negative parameters, raising any of width, ROB size or register counts never lowers the score |
| `Processors.AreaScoreFromCore` | assignment-3/components/processors.py:113-139 | The score computed from the kept arguments equals the one computed from the core's issue width, ROB entries and register counts |
| `Processors.LittleScore` | out-of-order-cpu/experiments.py:26 | The little configuration (4, 32, 64, 64) scores 976 |
| `Processors.BigScore` | out-of-order-cpu/experiments.py:27 | The big configuration (12, 384, 512, 512) scores 23344 |

## Left out

- The gem5 objects behind the models are left out: `RubySystem`, sequencers, ports, the interrupt wiring, ISA and clock queries, `setup_buffers`, the system-port proxy, the branch predictor, and `BaseCPUProcessor`. They are calls into the simulator, whose behaviour is not visible here. A controller is known only by the core, bank or port it was made for.
- In `incorporate_cache`, three steps are left out: the coherence-protocol `requires` check, the five virtual networks, and the cache line size handed to every controller. They are build settings of the simulator and do not affect the controller lists.
- The `setattr` names of the network's link and switch attributes are left out. Only the lists assigned to `routers`, `ext_links` and `int_links` are modelled.
- The default latency of a `SimpleIntLink` is left out. It is a simulator default, so it is an abstract `DefaultLatency`.
- I/O is left out:
  - the scripts' `argparse` input and the `writelines` output;
  - the kernels' console messages and `printSolution`;
  - the stats file's `seek` and `readlines`.
- The input those steps produce becomes a parameter:
  - a size, or an element list;
  - a list of header lines;
  - a file as a list of token lists.
- Randomness is left out. The elements that `randint` and `uniform` draw, and the `round(x, 2)` text of each, are parameters: already-rendered strings.
- `float()` is left out. Each token carries the number `float()` would read from it, or none when it would raise. Floating-point addition in the aggregate sum is exact real addition. A token's number is a real, so the `nan`, `inf` and `-inf` that `float()` accepts, and a sum that becomes one of them, are not represented: such a token reads as not a number.
- `Stat.__str__` is left out. It only formats the name and value.
- `int(line.split()[0])` on a malformed edge-list line is left out. The edge list is given already parsed.
- `Csr.BuildCsr`: the exact contents of `columns` are stated only for input sorted by source with non-negative fields, which is the input the BFS headers are made from. For other input the loop is modelled exactly, but of its columns only the order and the bound `len(edges)` are stated.
- `Bfs.Search`: requires a well-formed graph. An empty edge list gives `columns = [0]` (see `Csr.EmptyInputColumns`), and on that graph the kernel reads `columns[1]` past the array's end. That read is undefined behaviour in C++ and is not modelled.
- C `int` overflow is left out. The BFS, sort and N-queens kernels only compare, copy and index, so unbounded integers model them exactly.
- The `main` of the N-queens program with a negative size is left out: `new int*[size]` throws there. `Queens.Run` takes a natural size. The usage message for a wrong argument count is left out too.
- Completeness of the N-queens search (a failure means no placement exists) is not stated, because the program does not promise it.
- `array.py` with a negative `array_size`: `randint` raises for a negative size; `ArrayFile` starts from the drawn elements, so this error path is not modelled.
- `Headers.ArrayFileData`, `Headers.MatrixFileData`: require every rendered element to be non-empty. The decimal text of a number always is, and the wrapping loop's `line == ""` test relies on it.
- The other files of the repository are left out: the run scripts, the other processor, memory and cache wrappers, the floating-point and threaded workloads, and the visualisation utility. They pass parameters to simulator constructors, or do floating-point numerics, threading or plotting.

## Findings

| source | as written | input that shows it | evidently intended | confidence | as-written member | corrected member |
|---|---|---|---|---|---|---|
| workloads/bfs/graph.py:71-72 | `#ifndef __BFS_GRAPH_H__` is followed by `#define __BFS__GRAPH_H__` (two underscores before `GRAPH`), so the macro `#ifndef` checks is never defined and a second `#include "graph.h"` would redefine `visited`, `columns` and `edges` | any graph, e.g. the empty edge list | the `#define` names `__BFS_GRAPH_H__`, like the `#ifndef` and the `#endif` on line 68 | high (not executed) | `Headers.GraphGuardAsWrittenBroken` | `Headers.GraphFileGuarded` |
