/** The compressed-sparse-row graph that `workloads/bfs/graph.py` builds from
    an edge-list file and that the BFS kernel walks. */
module Csr {

  /** One line of the edge-list file: `src dst`. */
  datatype EdgeLine = EdgeLine(src: int, dst: int)

  /** `columns` has one entry per vertex plus one; vertex v's neighbours are
      `edges[columns[v] .. columns[v + 1]]`. */
  datatype Graph = Graph(columns: seq<int>, edges: seq<int>)

  /** The number of vertices: `visited` is declared with this many entries. */
  function NumVertices(g: Graph): int
  {
    |g.columns| - 1
  }

  /** What the BFS kernel relies on to stay inside its arrays. */
  predicate WellFormed(g: Graph)
  {
    && |g.columns| >= 2
    && g.columns[0] == 0
    && (forall v :: 0 <= v < |g.columns| - 1 ==> g.columns[v] <= g.columns[v + 1])
    && g.columns[|g.columns| - 1] == |g.edges|
    && (forall i :: 0 <= i < |g.edges| ==> 0 <= g.edges[i] < |g.columns| - 1)
  }

  // ---------------------------------------------------------------------------
  // The input file.

  predicate SortedBySrc(input: seq<EdgeLine>)
  {
    forall i, j :: 0 <= i < j < |input| ==> input[i].src <= input[j].src
  }

  predicate NonNegative(input: seq<EdgeLine>)
  {
    forall i :: 0 <= i < |input| ==> input[i].src >= 0 && input[i].dst >= 0
  }

  /** How many lines have a source below v. */
  function CountBelow(input: seq<EdgeLine>, v: int): (n: nat)
    ensures n <= |input|
  {
    if input == [] then 0
    else CountBelow(input[..|input| - 1], v) + (if input[|input| - 1].src < v then 1 else 0)
  }

  /** The destinations, in input order. */
  function Dsts(input: seq<EdgeLine>): (d: seq<int>)
    ensures |d| == |input|
    ensures forall k :: 0 <= k < |input| ==> d[k] == input[k].dst
  {
    if input == [] then [] else Dsts(input[..|input| - 1]) + [input[|input| - 1].dst]
  }

  /** `max_dst` after reading `input`: starts at -1. */
  function MaxDst(input: seq<EdgeLine>): (m: int)
    ensures m >= -1
    ensures forall k :: 0 <= k < |input| ==> input[k].dst <= m
    ensures |input| > 0 && NonNegative(input) ==> exists k :: 0 <= k < |input| && input[k].dst == m
  {
    if input == [] then -1
    else
      var m := MaxDst(input[..|input| - 1]);
      var d := input[|input| - 1].dst;
      if d > m then d else m
  }

  /** The source of the last line, or -1 for no line. */
  function LastSrc(input: seq<EdgeLine>): int
  {
    if input == [] then -1 else input[|input| - 1].src
  }

  function Max(a: int, b: int): int
  {
    if a < b then b else a
  }

  /** `for _ in range(n): columns.append(x)`; nothing when n <= 0. */
  function Repeat(x: int, n: int): (r: seq<int>)
    ensures |r| == Max(n, 0)
    ensures forall k :: 0 <= k < |r| ==> r[k] == x
  {
    if n <= 0 then [] else [x] + Repeat(x, n - 1)
  }

  /** The columns a sorted input calls for: entry v counts the lines whose
      source lies below v, for v up to one past the largest vertex named. */
  predicate IsPrefixCount(input: seq<EdgeLine>, columns: seq<int>)
  {
    && |columns| == Max(LastSrc(input), MaxDst(input)) + 2
    && forall v :: 0 <= v < |columns| ==> columns[v] == CountBelow(input, v)
  }

  lemma CountBelowSplit(input: seq<EdgeLine>, k: nat, v: int)
    requires k <= |input|
    requires forall j :: 0 <= j < k ==> input[j].src < v
    requires forall j :: k <= j < |input| ==> input[j].src >= v
    ensures CountBelow(input, v) == k
    decreases |input|
  {
    if input != [] {
      var init := input[..|input| - 1];
      if k == |input| {
        CountBelowSplit(init, k - 1, v);
      } else {
        CountBelowSplit(init, k, v);
      }
    }
  }

  /** The columns so far hold the prefix counts of vertices 0 .. prevSrc. */
  ghost predicate ColumnsSoFar(input: seq<EdgeLine>, columns: seq<int>, prevSrc: int)
  {
    && |columns| == prevSrc + 1
    && forall v :: 0 <= v < |columns| ==> columns[v] == CountBelow(input, v)
  }

  /** The loop of `graph.py` that reads the edge list and builds `columns`
      and `edges`, with the final `columns.append(len(edges))`. */
  method BuildCsr(input: seq<EdgeLine>) returns (columns: seq<int>, edges: seq<int>)
    ensures edges == Dsts(input)
    ensures |columns| >= 1 && columns[|columns| - 1] == |edges|
    ensures ColumnsGrow(columns, |edges|)
    ensures SortedBySrc(input) && NonNegative(input) ==> IsPrefixCount(input, columns)
  {
    columns := [];
    edges := [];
    var prevSrc := -1;
    var prefixSum := 0;
    var maxDst := -1;
    var k := 0;
    while k < |input|
      invariant 0 <= k <= |input|
      invariant edges == Dsts(input[..k])
      invariant prefixSum == k
      invariant maxDst == MaxDst(input[..k])
      invariant prevSrc == LastSrc(input[..k])
      invariant ColumnsGrow(columns, prefixSum)
      invariant SortedBySrc(input) && NonNegative(input) ==> ColumnsSoFar(input, columns, prevSrc)
    {
      var src := input[k].src;
      var dst := input[k].dst;
      if dst > maxDst {
        maxDst := dst;
      }
      if src != prevSrc {
        if SortedBySrc(input) && NonNegative(input) {
          ExtendColumns(input, k, columns, prevSrc);
        }
        columns := columns + Repeat(prefixSum, src - prevSrc);
        prevSrc := src;
      }
      edges := edges + [dst];
      prefixSum := prefixSum + 1;
      PrefixStep(input, k);
      k := k + 1;
    }
    assert input[..k] == input;
    if SortedBySrc(input) && NonNegative(input) {
      FinishColumns(input, columns, prevSrc, maxDst);
    }
    columns := columns + Repeat(prefixSum, maxDst - prevSrc);
    columns := columns + [|edges|];
  }

  /** Column entries never decrease and none exceeds `bound`: the prefix
      sum they copy only grows. */
  predicate ColumnsGrow(columns: seq<int>, bound: int)
  {
    && (forall a, b :: 0 <= a < b < |columns| ==> columns[a] <= columns[b])
    && (forall a :: 0 <= a < |columns| ==> columns[a] <= bound)
  }

  /** Reading line k updates the running values as the functions say. */
  lemma PrefixStep(input: seq<EdgeLine>, k: nat)
    requires k < |input|
    ensures Dsts(input[..k + 1]) == Dsts(input[..k]) + [input[k].dst]
    ensures LastSrc(input[..k + 1]) == input[k].src
    ensures MaxDst(input[..k + 1]) == if input[k].dst > MaxDst(input[..k]) then input[k].dst else MaxDst(input[..k])
  {
    assert input[..k + 1][..k] == input[..k];
  }

  /** A new source fills the columns up to it with the count read so far. */
  lemma ExtendColumns(input: seq<EdgeLine>, k: nat, columns: seq<int>, prevSrc: int)
    requires SortedBySrc(input) && NonNegative(input)
    requires k < |input| && prevSrc == LastSrc(input[..k]) && input[k].src != prevSrc
    requires ColumnsSoFar(input, columns, prevSrc)
    ensures ColumnsSoFar(input, columns + Repeat(k, input[k].src - prevSrc), input[k].src)
  {
    var src := input[k].src;
    assert prevSrc < src by {
      if k > 0 { assert input[k - 1].src <= src; }
    }
    var c' := columns + Repeat(k, src - prevSrc);
    forall v | |columns| <= v < |c'|
      ensures c'[v] == CountBelow(input, v)
    {
      forall j | 0 <= j < k ensures input[j].src < v {
        assert input[j].src <= input[k - 1].src;
      }
      CountBelowSplit(input, k, v);
    }
  }

  /** After the last line, the remaining vertices up to the largest
      destination, and one past it, all get the total count. */
  lemma FinishColumns(input: seq<EdgeLine>, columns: seq<int>, prevSrc: int, maxDst: int)
    requires SortedBySrc(input) && NonNegative(input)
    requires prevSrc == LastSrc(input) && maxDst == MaxDst(input)
    requires ColumnsSoFar(input, columns, prevSrc)
    ensures IsPrefixCount(input, columns + Repeat(|input|, maxDst - prevSrc) + [|input|])
  {
    var c' := columns + Repeat(|input|, maxDst - prevSrc) + [|input|];
    forall v | |columns| <= v < |c'|
      ensures c'[v] == CountBelow(input, v)
    {
      forall j | 0 <= j < |input| ensures input[j].src < v {
        assert input[j].src <= input[|input| - 1].src;
      }
      CountBelowSplit(input, |input|, v);
    }
  }

  lemma {:induction false} CountBelowMonotone(input: seq<EdgeLine>, v: int, w: int)
    requires v <= w
    ensures CountBelow(input, v) <= CountBelow(input, w)
    decreases |input|
  {
    if input != [] {
      CountBelowMonotone(input[..|input| - 1], v, w);
    }
  }

  /** For a sorted, non-negative, non-empty edge list the generated arrays
      form a well-formed graph: the columns start at 0, never decrease and
      end at the number of edges, and every edge names a vertex. */
  lemma BuiltGraphWellFormed(input: seq<EdgeLine>, columns: seq<int>, edges: seq<int>)
    requires SortedBySrc(input) && NonNegative(input) && input != []
    requires edges == Dsts(input) && IsPrefixCount(input, columns)
    ensures WellFormed(Graph(columns, edges))
    ensures NumVertices(Graph(columns, edges)) == Max(LastSrc(input), MaxDst(input)) + 1
  {
    assert CountBelow(input, 0) == 0 by { CountBelowSplit(input, 0, 0); }
    forall v | 0 <= v < |columns| - 1
      ensures columns[v] <= columns[v + 1]
    {
      CountBelowMonotone(input, v, v + 1);
    }
    assert columns[|columns| - 1] == |edges| by {
      CountBelowSplit(input, |input|, |columns| - 1);
    }
  }

  /** An empty edge list gives `columns = [0]` and no edges: a graph of no
      vertex, on which the BFS kernel would read past `columns`. */
  lemma EmptyInputColumns(columns: seq<int>)
    requires IsPrefixCount([], columns)
    ensures columns == [0]
  {
  }
}
