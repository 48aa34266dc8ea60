/** The three C header generators: `array.py` (the bubble-sort input),
    `workloads/matmul/matrix.py` (the two matrix operands) and
    `workloads/bfs/graph.py` (the BFS graph). Each builds a list of lines and
    hands it to `writelines`, which writes them one after another. All three
    lists have the same shape, which `HeaderFile` captures: an include guard,
    a few fixed preamble lines, then one wrapped initialiser per array. */
module Headers {
  import opened HeaderText
  import opened Csr

  function IfndefLine(name: string): string { "#ifndef " + name + "\n" }
  function DefineLine(name: string): string { "#define " + name + "\n" }
  function EndifLine(name: string): string { "#endif // " + name + "\n" }

  /** The lines open with `#ifndef name` and `#define name` and close with
      the matching `#endif // name`: the header is guarded by one macro. */
  predicate GuardedBy(lines: seq<string>, name: string)
  {
    && |lines| >= 3
    && lines[0] == IfndefLine(name)
    && lines[1] == DefineLine(name)
    && lines[|lines| - 1] == EndifLine(name)
  }

  /** One array initialiser: its declaration line and its body lines. */
  datatype ArrayInit = ArrayInit(decl: string, body: seq<string>)

  /** The initialiser the scripts build: the declaration, then the elements,
      already rendered as text, laid out by the wrapping loop. */
  function Wrapped(decl: string, elems: seq<string>): ArrayInit
  {
    ArrayInit(decl, WrapLines(elems))
  }

  /** A generated header: the macro `#ifndef` checks (named again by
      `#endif`), the macro the `#define` line defines, the preamble lines
      after those two, and the array initialisers in order. */
  datatype HeaderFile = HeaderFile(guard: string, defined: string, preamble: seq<string>,
                                   arrays: seq<ArrayInit>)

  /** The lines of one initialiser: the declaration, the body, the closing
      brace and a blank line. */
  function InitLines(a: ArrayInit): seq<string>
  {
    [a.decl] + a.body + ["}; \n", "\n"]
  }

  function ArraysLines(arrays: seq<ArrayInit>): seq<string>
  {
    if arrays == [] then [] else InitLines(arrays[0]) + ArraysLines(arrays[1..])
  }

  /** The list the script passes to `writelines`. */
  function Lines(f: HeaderFile): seq<string>
  {
    [IfndefLine(f.guard), DefineLine(f.defined)] + f.preamble + ArraysLines(f.arrays)
    + [EndifLine(f.guard)]
  }

  // ---------------------------------------------------------------------------
  // The guard.

  lemma IfndefInjective(a: string, b: string)
    requires IfndefLine(a) == IfndefLine(b)
    ensures a == b
  {
    var s := IfndefLine(a);
    assert a == s[8..|s| - 1];
    assert b == IfndefLine(b)[8..|s| - 1];
  }

  lemma DefineInjective(a: string, b: string)
    requires DefineLine(a) == DefineLine(b)
    ensures a == b
  {
    var s := DefineLine(a);
    assert a == s[8..|s| - 1];
    assert b == DefineLine(b)[8..|s| - 1];
  }

  /** A header is guarded by `name` exactly when both its `#ifndef` and its
      `#define` name that macro. */
  lemma GuardedIff(f: HeaderFile, name: string)
    ensures GuardedBy(Lines(f), name) <==> f.guard == name && f.defined == name
  {
    var l := Lines(f);
    assert l[0] == IfndefLine(f.guard);
    assert l[1] == DefineLine(f.defined);
    if GuardedBy(l, name) {
      IfndefInjective(f.guard, name);
      DefineInjective(f.defined, name);
    }
  }

  // ---------------------------------------------------------------------------
  // Where each initialiser sits.

  /** The number of lines before initialiser `k` within the array part. */
  function Offset(arrays: seq<ArrayInit>, k: nat): nat
    requires k <= |arrays|
  {
    |ArraysLines(arrays[..k])|
  }

  lemma {:induction false} ArraysLinesSplit(arrays: seq<ArrayInit>, k: nat)
    requires k <= |arrays|
    ensures ArraysLines(arrays) == ArraysLines(arrays[..k]) + ArraysLines(arrays[k..])
    decreases k
  {
    if k > 0 {
      ArraysLinesSplit(arrays[1..], k - 1);
      assert arrays[1..][..k - 1] == arrays[..k][1..];
      assert arrays[1..][k - 1..] == arrays[k..];
      ConcatAssoc(InitLines(arrays[0]), ArraysLines(arrays[..k][1..]), ArraysLines(arrays[k..]));
    } else {
      assert arrays[..0] == [];
      assert arrays[0..] == arrays;
    }
  }

  /** The lines from `at` on hold one initialiser: the declaration, the
      body, then the closing brace. */
  predicate PlacedAt(lines: seq<string>, at: nat, decl: string, body: seq<string>)
  {
    && at + |body| + 1 < |lines|
    && lines[at] == decl
    && lines[at + 1..at + 1 + |body|] == body
    && lines[at + 1 + |body|] == "}; \n"
  }

  /** The lines from `at` on hold the initialiser of `elems`: its body is the
      elements' chunks rendered in order, and those chunks, taken together,
      are exactly the elements in order. */
  predicate HoldsArray(lines: seq<string>, at: nat, decl: string, elems: seq<string>)
  {
    PlacedAt(lines, at, decl, Render(Chunks(elems))) && Flatten(Chunks(elems)) == elems
  }

  /** The wrapped lines are the rendered chunks, and the chunks are the
      elements in order. */
  lemma WrappedBody(elems: seq<string>)
    requires NoneEmpty(elems)
    ensures WrapLines(elems) == Render(Chunks(elems))
    ensures Flatten(Chunks(elems)) == elems
  {
    WrapLinesAreChunks(elems);
    ChunksLayout(elems);
  }

  /** The middle part of a concatenation. */
  lemma MiddleSlice<T>(x: seq<T>, y: seq<T>, z: seq<T>)
    ensures |x + y + z| == |x| + |y| + |z|
    ensures (x + y + z)[|x|..|x| + |y|] == y
  {
    var s := x + y + z;
    forall k | 0 <= k < |y|
      ensures s[|x|..|x| + |y|][k] == y[k]
    {
      assert s[|x| + k] == y[k];
    }
  }

  /** Initialiser `k` occupies a window of the array lines starting at its
      offset, and the next one starts right after that window. */
  lemma ArrayAt(arrays: seq<ArrayInit>, k: nat)
    requires k < |arrays|
    ensures var o := Offset(arrays, k);
      && o + |InitLines(arrays[k])| <= |ArraysLines(arrays)|
      && ArraysLines(arrays)[o..o + |InitLines(arrays[k])|] == InitLines(arrays[k])
      && Offset(arrays, k + 1) == o + |InitLines(arrays[k])|
  {
    var a := arrays[k];
    var before := ArraysLines(arrays[..k]);
    var after := ArraysLines(arrays[k + 1..]);
    assert ArraysLines(arrays) == before + InitLines(a) + after by {
      ArraysLinesSplit(arrays, k);
      assert arrays[k..][0] == a;
      assert arrays[k..][1..] == arrays[k + 1..];
      ConcatAssoc(before, InitLines(a), after);
    }
    assert Offset(arrays, k + 1) == |before| + |InitLines(a)| by {
      ArraysLinesSplit(arrays[..k + 1], k);
      assert arrays[..k + 1][..k] == arrays[..k];
      assert arrays[..k + 1][k..] == [a];
      assert [a][1..] == [];
    }
    MiddleSlice(before, InitLines(a), after);
  }

  /** A window holding an initialiser's lines places it there. */
  lemma WindowPlaced(lines: seq<string>, at: nat, a: ArrayInit)
    requires at + |InitLines(a)| <= |lines|
    requires lines[at..at + |InitLines(a)|] == InitLines(a)
    ensures PlacedAt(lines, at, a.decl, a.body)
  {
    var w := lines[at..at + |InitLines(a)|];
    assert lines[at] == w[0];
    assert lines[at + 1..at + 1 + |a.body|] == a.body by {
      forall k | 0 <= k < |a.body|
        ensures lines[at + 1..at + 1 + |a.body|][k] == a.body[k]
      {
        assert lines[at + 1 + k] == w[1 + k];
      }
    }
    assert lines[at + 1 + |a.body|] == w[1 + |a.body|];
  }

  /** A slice inside the middle part of a concatenation is a slice of that
      part. */
  lemma SliceOfMiddle<T>(x: seq<T>, y: seq<T>, z: seq<T>, i: nat, j: nat)
    requires i <= j <= |y|
    ensures |x| + j <= |x + y + z|
    ensures (x + y + z)[|x| + i..|x| + j] == y[i..j]
  {
    var s := x + y + z;
    forall k | 0 <= k < j - i
      ensures s[|x| + i..|x| + j][k] == y[i..j][k]
    {
      assert s[|x| + i + k] == y[i + k];
    }
  }

  /** Initialiser `k` within the whole header: past the two guard lines and
      the preamble. */
  lemma FileArrayAt(f: HeaderFile, k: nat)
    requires k < |f.arrays|
    ensures PlacedAt(Lines(f), 2 + |f.preamble| + Offset(f.arrays, k), f.arrays[k].decl, f.arrays[k].body)
    ensures Offset(f.arrays, k + 1) == Offset(f.arrays, k) + |f.arrays[k].body| + 3
  {
    var head := [IfndefLine(f.guard), DefineLine(f.defined)] + f.preamble;
    var body := ArraysLines(f.arrays);
    var o := Offset(f.arrays, k);
    var a := f.arrays[k];
    var n := |InitLines(a)|;
    assert o + n <= |body| && body[o..o + n] == InitLines(a) && Offset(f.arrays, k + 1) == o + n by {
      ArrayAt(f.arrays, k);
    }
    assert Lines(f)[|head| + o..|head| + o + n] == InitLines(a) by {
      assert Lines(f) == head + body + [EndifLine(f.guard)];
      SliceOfMiddle(head, body, [EndifLine(f.guard)], o, o + n);
    }
    WindowPlaced(Lines(f), |head| + o, a);
  }

  /** A header with two initialisers: the first right after the preamble,
      the second right after the first one's closing brace and blank line. */
  lemma TwoPlaced(f: HeaderFile)
    requires |f.arrays| == 2
    ensures PlacedAt(Lines(f), 2 + |f.preamble|, f.arrays[0].decl, f.arrays[0].body)
    ensures PlacedAt(Lines(f), 5 + |f.preamble| + |f.arrays[0].body|, f.arrays[1].decl, f.arrays[1].body)
  {
    assert Offset(f.arrays, 0) == 0 by {
      assert f.arrays[..0] == [];
    }
    FileArrayAt(f, 0);
    FileArrayAt(f, 1);
  }

  /** The preamble sits right after the guard lines. */
  lemma PreambleAt(f: HeaderFile, i: nat)
    requires i < |f.preamble|
    ensures 2 + i < |Lines(f)| && Lines(f)[2 + i] == f.preamble[i]
  {
  }

  /** The values as the scripts print them, `f"{x}"` for each, in order. */
  function Texts(xs: seq<int>): (ts: seq<string>)
    ensures |ts| == |xs|
    ensures forall i :: 0 <= i < |xs| ==> ts[i] == IntToString(xs[i])
    ensures NoneEmpty(ts)
  {
    seq(|xs|, i requires 0 <= i < |xs| => IntToString(xs[i]))
  }

  // ---------------------------------------------------------------------------
  // array.py

  const ArrayGuard: string := "__BUBBLE_ARRAY_H__"

  /** `array.h` for the drawn elements, rendered as text (`randint` draws
      exactly `array_size` of them, so their count is the size). */
  function ArrayFile(elems: seq<string>): HeaderFile
  {
    HeaderFile(ArrayGuard, ArrayGuard,
               ["\n", "#define ARRAY_SIZE " + IntToString(|elems|) + "\n", "\n"],
               [Wrapped("int data [ARRAY_SIZE] = { \n", elems)])
  }

  /** `array.h` is guarded by one macro, and ARRAY_SIZE is written as a
      number that reads back as the element count. */
  lemma ArrayFilePreamble(elems: seq<string>)
    ensures var l := Lines(ArrayFile(elems));
      && GuardedBy(l, ArrayGuard)
      && |l| > 3
      && l[3] == "#define ARRAY_SIZE " + IntToString(|elems|) + "\n"
      && ParseInt(IntToString(|elems|)) == |elems|
  {
    var f := ArrayFile(elems);
    GuardedIff(f, ArrayGuard);
    PreambleAt(f, 1);
    IntToStringRoundTrip(|elems|);
  }

  /** The data initialiser right after the preamble lists the elements in
      order, wrapped into the chunks of the 80-character rule, with no
      element line when there is no element. */
  lemma ArrayFileData(elems: seq<string>)
    requires NoneEmpty(elems)
    ensures HoldsArray(Lines(ArrayFile(elems)), 5, "int data [ARRAY_SIZE] = { \n", elems)
    ensures elems == [] <==> Render(Chunks(elems)) == []
  {
    var f := ArrayFile(elems);
    assert Offset(f.arrays, 0) == 0 by {
      assert f.arrays[..0] == [];
    }
    FileArrayAt(f, 0);
    WrappedBody(elems);
    WrapLayout(elems);
  }

  // ---------------------------------------------------------------------------
  // workloads/matmul/matrix.py

  const MatrixGuard: string := "__MATMUL_MATRIX_H__"

  /** `matrix.h` for a size and the two drawn operands, rendered as text
      (`uniform` draws size * size values for each). The size is any `int`
      the command line parses: a negative one is written as given, and
      NUM_ELEMENTS as its square. The NUM_ELEMENTS line has no newline of its
      own; the "\n" entry after it ends it. */
  function MatrixFile(matSize: int, a: seq<string>, b: seq<string>): HeaderFile
    requires |a| == matSize * matSize && |b| == matSize * matSize
  {
    HeaderFile(MatrixGuard, MatrixGuard,
               ["\n",
                "#define SIZE " + IntToString(matSize) + "\n",
                "#define NUM_ELEMENTS " + IntToString(matSize * matSize),
                "\n",
                "double C [NUM_ELEMENTS] = {0};\n",
                "\n"],
               [Wrapped("double A [NUM_ELEMENTS] = { \n", a),
                Wrapped("double B [NUM_ELEMENTS] = { \n", b)])
  }

  /** `matrix.h` is guarded by one macro; NUM_ELEMENTS, once its line is
      ended by the next entry, is size squared; C is zero-initialised. */
  lemma MatrixFilePreamble(matSize: int, a: seq<string>, b: seq<string>)
    requires |a| == matSize * matSize && |b| == matSize * matSize
    ensures var l := Lines(MatrixFile(matSize, a, b));
      && GuardedBy(l, MatrixGuard)
      && |l| > 6
      && l[4] + l[5] == "#define NUM_ELEMENTS " + IntToString(matSize * matSize) + "\n"
      && l[6] == "double C [NUM_ELEMENTS] = {0};\n"
  {
    var f := MatrixFile(matSize, a, b);
    GuardedIff(f, MatrixGuard);
    PreambleAt(f, 2);
    PreambleAt(f, 3);
    PreambleAt(f, 4);
  }

  /** A's initialiser comes right after the preamble and B's right after
      A's; each lists its size * size elements in order, wrapped by the
      80-character rule. */
  lemma MatrixFileData(matSize: int, a: seq<string>, b: seq<string>)
    requires |a| == matSize * matSize && |b| == matSize * matSize
    requires NoneEmpty(a) && NoneEmpty(b)
    ensures HoldsArray(Lines(MatrixFile(matSize, a, b)), 8, "double A [NUM_ELEMENTS] = { \n", a)
    ensures HoldsArray(Lines(MatrixFile(matSize, a, b)), 11 + |Render(Chunks(a))|,
                       "double B [NUM_ELEMENTS] = { \n", b)
  {
    TwoPlaced(MatrixFile(matSize, a, b));
    WrappedBody(a);
    WrappedBody(b);
  }

  // ---------------------------------------------------------------------------
  // workloads/bfs/graph.py

  const GraphGuard: string := "__BFS_GRAPH_H__"

  /** `graph.h` for a graph, with the `#define` line defining `defined`. */
  function GraphFileDefining(g: Graph, defined: string): HeaderFile
  {
    HeaderFile(GraphGuard, defined,
               ["\n", "int visited [" + IntToString(|g.columns| - 1) + "] = {0};\n", "\n"],
               [Wrapped("int columns [" + IntToString(|g.columns|) + "] = { \n", Texts(g.columns)),
                Wrapped("int edges [" + IntToString(|g.edges|) + "] = { \n", Texts(g.edges))])
  }

  /** `graph.h` exactly as the script writes it: the `#define` names
      `__BFS__GRAPH_H__`, with a doubled underscore, so the macro the
      `#ifndef` tests is never defined. */
  function GraphFileAsWritten(g: Graph): HeaderFile
  {
    GraphFileDefining(g, "__BFS__GRAPH_H__")
  }

  /** The header as written has no consistent guard, whatever macro name one
      tries. */
  lemma GraphGuardAsWrittenBroken(g: Graph, name: string)
    ensures !GuardedBy(Lines(GraphFileAsWritten(g)), name)
  {
    GuardedIff(GraphFileAsWritten(g), name);
  }

  /** `graph.h` with the guard its `#ifndef` and `#endif` lines name. */
  function GraphFile(g: Graph): HeaderFile
  {
    GraphFileDefining(g, GraphGuard)
  }

  /** `graph.h` is guarded by one macro. */
  lemma GraphFileGuarded(g: Graph)
    ensures GuardedBy(Lines(GraphFile(g)), GraphGuard)
  {
    GuardedIff(GraphFile(g), GraphGuard);
  }

  /** `visited` has one entry per vertex. */
  lemma GraphFileVisited(g: Graph)
    ensures var l := Lines(GraphFile(g));
      |l| > 3 && l[3] == "int visited [" + IntToString(NumVertices(g)) + "] = {0};\n"
  {
    PreambleAt(GraphFile(g), 1);
  }

  /** `columns` and then `edges` are declared with their lengths and list
      their values in order, wrapped by the 80-character rule. */
  lemma GraphFileData(g: Graph)
    ensures HoldsArray(Lines(GraphFile(g)), 5, "int columns [" + IntToString(|g.columns|) + "] = { \n",
                       Texts(g.columns))
    ensures HoldsArray(Lines(GraphFile(g)), 8 + |Render(Chunks(Texts(g.columns)))|,
                       "int edges [" + IntToString(|g.edges|) + "] = { \n", Texts(g.edges))
  {
    TwoPlaced(GraphFile(g));
    WrappedBody(Texts(g.columns));
    WrappedBody(Texts(g.edges));
  }

  /** Two headers that differ only in the macro their `#define` names
      differ only in line 1. */
  lemma DefineLineOnly(f: HeaderFile, defined: string)
    ensures var w := Lines(f.(defined := defined)); var c := Lines(f);
      |w| == |c| && forall k :: 0 <= k < |w| && k != 1 ==> w[k] == c[k]
  {
    var rest := f.preamble + ArraysLines(f.arrays) + [EndifLine(f.guard)];
    assert Lines(f) == [IfndefLine(f.guard), DefineLine(f.defined)] + rest;
    assert Lines(f.(defined := defined)) == [IfndefLine(f.guard), DefineLine(defined)] + rest;
  }

  /** The header as written and the corrected one differ in the `#define`
      line alone. */
  lemma GraphFileDefineOnly(g: Graph)
    ensures var w := Lines(GraphFileAsWritten(g)); var c := Lines(GraphFile(g));
      && |w| == |c| && w[1] != c[1]
      && forall k :: 0 <= k < |w| && k != 1 ==> w[k] == c[k]
  {
    DefineLineOnly(GraphFile(g), "__BFS__GRAPH_H__");
    assert GraphFile(g).(defined := "__BFS__GRAPH_H__") == GraphFileAsWritten(g);
    if DefineLine("__BFS__GRAPH_H__") == DefineLine(GraphGuard) {
      DefineInjective("__BFS__GRAPH_H__", GraphGuard);
      assert false;
    }
  }

  /** The script end to end: build the graph from the edge list, then write
      the header as the script does. Its `#define` names a different macro
      from its `#ifndef`, so no macro guards the output; every other line is
      that of the corrected header. For a sorted, non-negative, non-empty
      edge list the graph is well formed and `visited` is sized one past the
      largest vertex named. */
  method GenerateGraphHeader(input: seq<EdgeLine>) returns (g: Graph, lines: seq<string>)
    ensures g.edges == Dsts(input)
    ensures lines == Lines(GraphFileAsWritten(g))
    ensures forall name :: !GuardedBy(lines, name)
    ensures |lines| == |Lines(GraphFile(g))|
    ensures forall k :: 0 <= k < |lines| && k != 1 ==> lines[k] == Lines(GraphFile(g))[k]
    ensures SortedBySrc(input) && NonNegative(input) && input != [] ==>
      && WellFormed(g)
      && lines[3] == "int visited [" + IntToString(Max(LastSrc(input), MaxDst(input)) + 1) + "] = {0};\n"
  {
    var columns, edges := BuildCsr(input);
    g := Graph(columns, edges);
    lines := Lines(GraphFileAsWritten(g));
    forall name: string
      ensures !GuardedBy(lines, name)
    {
      GraphGuardAsWrittenBroken(g, name);
    }
    GraphFileDefineOnly(g);
    GraphFileVisited(g);
    if SortedBySrc(input) && NonNegative(input) && input != [] {
      BuiltGraphWellFormed(input, columns, edges);
    }
  }
}
