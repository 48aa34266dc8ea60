/** The BFS kernel of `workloads/bfs/bfs.cpp`: a level-by-level breadth-first
    search from vertex 0 over the `columns`/`edges` arrays of `graph.h`,
    marking `visited` and collecting each level's new vertices in `next`. */
module Bfs {
  import opened Csr

  /** Vertex u's neighbours, in the order the kernel reads them. */
  function Succ(g: Graph, u: int): (ns: seq<int>)
    requires WellFormed(g) && 0 <= u < NumVertices(g)
    ensures forall w :: w in ns ==> 0 <= w < NumVertices(g)
  {
    ColumnsInRange(g, u);
    g.edges[g.columns[u]..g.columns[u + 1]]
  }

  /** A walk: consecutive vertices are joined by an edge. */
  ghost predicate IsWalk(g: Graph, p: seq<int>)
    requires WellFormed(g)
  {
    && |p| >= 1
    && (forall k :: 0 <= k < |p| ==> 0 <= p[k] < NumVertices(g))
    && (forall k :: 0 <= k < |p| - 1 ==> p[k + 1] in Succ(g, p[k]))
  }

  /** v is reached from vertex 0 by a walk of one edge or more. */
  ghost predicate Reach(g: Graph, v: int)
    requires WellFormed(g)
  {
    exists p :: IsWalk(g, p) && |p| >= 2 && p[0] == 0 && p[|p| - 1] == v
  }

  predicate Distinct(s: seq<int>)
  {
    forall a, b :: 0 <= a < b < |s| ==> s[a] != s[b]
  }

  /** The number of unmarked entries: what is left for the search to mark. */
  function CountFalse(s: seq<bool>): nat
  {
    if s == [] then 0 else (if s[0] then 0 else 1) + CountFalse(s[1..])
  }

  // ---------------------------------------------------------------------------
  // Facts the kernel relies on.

  /** The columns never drop below 0 nor rise above the number of edges, so
      the kernel's reads of `columns` and `edges` stay inside them. */
  lemma ColumnsInRange(g: Graph, u: int)
    requires WellFormed(g) && 0 <= u < NumVertices(g)
    ensures 0 <= g.columns[u] <= g.columns[u + 1] <= |g.edges|
  {
    ColumnsFromZero(g, u);
    ColumnsUpToEnd(g, u + 1);
  }

  lemma {:induction false} ColumnsFromZero(g: Graph, v: int)
    requires WellFormed(g) && 0 <= v < |g.columns|
    ensures 0 <= g.columns[v]
    decreases v
  {
    if v > 0 {
      ColumnsFromZero(g, v - 1);
    }
  }

  lemma {:induction false} ColumnsUpToEnd(g: Graph, v: int)
    requires WellFormed(g) && 0 <= v < |g.columns|
    ensures g.columns[v] <= |g.edges|
    decreases |g.columns| - v
  {
    if v < |g.columns| - 1 {
      ColumnsUpToEnd(g, v + 1);
    }
  }

  /** Marking one unmarked entry leaves one fewer to mark. */
  lemma {:induction false} MarkOne(s: seq<bool>, i: int)
    requires 0 <= i < |s| && !s[i]
    ensures CountFalse(s[i := true]) == CountFalse(s) - 1
    decreases |s|
  {
    if i > 0 {
      assert s[i := true][1..] == s[1..][i - 1 := true];
      MarkOne(s[1..], i - 1);
    }
  }

  /** All of `visited [V] = {0}` is left to mark. */
  lemma {:induction false} NoneMarked(n: nat)
    ensures CountFalse(seq(n, _ => false)) == n
    decreases n
  {
    if n > 0 {
      assert seq(n, _ => false)[1..] == seq(n - 1, _ => false);
      NoneMarked(n - 1);
    }
  }

  // ---------------------------------------------------------------------------
  // Marking.

  /** `marked` is `visited` with exactly the vertices of `pushed` newly
      marked: each of them was unmarked before and is pushed once. */
  predicate Pushes(visited: seq<bool>, marked: seq<bool>, pushed: seq<int>)
  {
    && |marked| == |visited|
    && (forall v :: 0 <= v < |visited| ==> (marked[v] <==> visited[v] || v in pushed))
    && (forall i :: 0 <= i < |pushed| ==> 0 <= pushed[i] < |visited| && !visited[pushed[i]])
    && Distinct(pushed)
    && CountFalse(marked) + |pushed| == CountFalse(visited)
  }

  /** Nothing pushed, nothing marked. */
  lemma PushesNone(visited: seq<bool>)
    ensures Pushes(visited, visited, [])
  {
  }

  /** The test-and-set of lines 33-35: an unvisited neighbour is marked and
      pushed. */
  lemma PushesMark(visited: seq<bool>, marked: seq<bool>, pushed: seq<int>, w: int)
    requires Pushes(visited, marked, pushed)
    requires 0 <= w < |marked| && !marked[w]
    ensures Pushes(visited, marked[w := true], pushed + [w])
  {
    MarkOne(marked, w);
    assert w !in pushed;
    forall v | 0 <= v < |visited|
      ensures marked[w := true][v] <==> visited[v] || v in pushed + [w]
    {
      assert v in pushed + [w] <==> v in pushed || v == w;
    }
  }

  /** Two rounds of pushing, one after the other, are one round pushing both
      lists. */
  lemma PushesThen(visited: seq<bool>, mid: seq<bool>, marked: seq<bool>, xs: seq<int>, ys: seq<int>)
    requires Pushes(visited, mid, xs) && Pushes(mid, marked, ys)
    ensures Pushes(visited, marked, xs + ys)
  {
    forall i | 0 <= i < |xs|
      ensures mid[xs[i]]
    {
      assert xs[i] in xs;
    }
    forall v | 0 <= v < |visited|
      ensures marked[v] <==> visited[v] || v in xs + ys
    {
      assert v in xs + ys <==> v in xs || v in ys;
    }
    forall a, b | 0 <= a < b < |xs + ys|
      ensures (xs + ys)[a] != (xs + ys)[b]
    {
      if a < |xs| && b >= |xs| {
        assert mid[(xs + ys)[a]] && !mid[(xs + ys)[b]];
      }
    }
    forall i | 0 <= i < |xs + ys|
      ensures !visited[(xs + ys)[i]]
    {
      if i >= |xs| {
        assert !mid[ys[i - |xs|]];
      }
    }
  }

  // ---------------------------------------------------------------------------
  // The kernel, loop by loop.

  /** The innermost loop: for each neighbour of `u` in turn, an unvisited one
      is marked and pushed onto `next`. Exactly the neighbours not already
      marked are pushed, each once, and afterwards every neighbour is marked. */
  method Expand(g: Graph, visited: seq<bool>, u: int) returns (marked: seq<bool>, pushed: seq<int>)
    requires WellFormed(g) && |visited| == NumVertices(g) && 0 <= u < NumVertices(g)
    ensures Pushes(visited, marked, pushed)
    ensures forall v :: v in pushed ==> v in Succ(g, u)
    ensures forall w :: w in Succ(g, u) ==> marked[w]
  {
    ColumnsInRange(g, u);
    var start := g.columns[u];
    var end := g.columns[u + 1];
    ghost var ns := Succ(g, u);
    assert |ns| == end - start && forall k :: 0 <= k < |ns| ==> ns[k] == g.edges[start + k];
    marked := visited;
    pushed := [];
    PushesNone(visited);
    var i := start;
    while i < end
      invariant start <= i <= end
      invariant Pushes(visited, marked, pushed)
      invariant forall v :: v in pushed ==> v in ns
      invariant forall k :: 0 <= k < i - start ==> marked[ns[k]]
    {
      var neighbor := g.edges[i];
      assert neighbor == ns[i - start];
      if !marked[neighbor] {
        PushesMark(visited, marked, pushed, neighbor);
        marked := marked[neighbor := true];
        pushed := pushed + [neighbor];
      }
      i := i + 1;
    }
  }

  /** One pass of `for (auto vertex: frontier)`: every vertex of the frontier
      is expanded in turn, into one `next` list. Each vertex pushed is a
      neighbour of the frontier, and every neighbour of the frontier ends up
      marked. */
  method Level(g: Graph, visited: seq<bool>, frontier: seq<int>) returns (marked: seq<bool>, next: seq<int>)
    requires WellFormed(g) && |visited| == NumVertices(g)
    requires forall i :: 0 <= i < |frontier| ==> 0 <= frontier[i] < NumVertices(g)
    ensures Pushes(visited, marked, next)
    ensures forall v :: v in next ==> exists u :: u in frontier && v in Succ(g, u)
    ensures forall u, w :: u in frontier && w in Succ(g, u) ==> marked[w]
  {
    marked := visited;
    next := [];
    PushesNone(visited);
    var j := 0;
    while j < |frontier|
      invariant 0 <= j <= |frontier|
      invariant Pushes(visited, marked, next)
      invariant forall v :: v in next ==> exists i :: 0 <= i < j && v in Succ(g, frontier[i])
      invariant forall i, w :: 0 <= i < j && w in Succ(g, frontier[i]) ==> marked[w]
    {
      var pushed;
      var before := marked;
      marked, pushed := Expand(g, marked, frontier[j]);
      PushesThen(visited, before, marked, next, pushed);
      assert forall w :: 0 <= w < |before| && before[w] ==> marked[w];
      next := next + pushed;
      j := j + 1;
    }
    forall u, w | u in frontier && w in Succ(g, u)
      ensures marked[w]
    {
      var i :| 0 <= i < |frontier| && frontier[i] == u;
    }
    forall v | v in next
      ensures exists u :: u in frontier && v in Succ(g, u)
    {
      var i :| 0 <= i < |frontier| && v in Succ(g, frontier[i]);
      assert frontier[i] in frontier;
    }
  }

  /** The state of `main` between two levels. `order` is everything pushed
      so far; `processed` is every vertex already expanded, a ghost record. */
  ghost predicate Explored(g: Graph, visited: seq<bool>, order: seq<int>, frontier: seq<int>, processed: set<int>)
    requires WellFormed(g)
  {
    var n := NumVertices(g);
    && Pushes(seq(n, _ => false), visited, order)
    && (forall i :: 0 <= i < |frontier| ==> 0 <= frontier[i] < n && (frontier[i] == 0 || visited[frontier[i]]))
    && (0 in processed || 0 in frontier)
    && (forall v :: 0 <= v < n && visited[v] ==> v in processed || v in frontier)
    && (forall u :: u in processed ==> 0 <= u < n)
    && (forall u, w :: u in processed && w in Succ(g, u) ==> visited[w])
    && (forall v :: 0 <= v < n && visited[v] ==> Reach(g, v))
  }

  /** One level keeps the state: the frontier joins the expanded vertices
      and the vertices it pushed become the new frontier. */
  lemma LevelKeeps(g: Graph, visited: seq<bool>, order: seq<int>, frontier: seq<int>, processed: set<int>,
                   marked: seq<bool>, next: seq<int>)
    requires WellFormed(g) && Explored(g, visited, order, frontier, processed)
    requires Pushes(visited, marked, next)
    requires forall v :: v in next ==> exists u :: u in frontier && v in Succ(g, u)
    requires forall u, w :: u in frontier && w in Succ(g, u) ==> marked[w]
    ensures Explored(g, marked, order + next, next, processed + set x | x in frontier)
  {
    var n := NumVertices(g);
    PushesThen(seq(n, _ => false), visited, marked, order, next);
    forall v | v in next
      ensures Reach(g, v)
    {
      var u :| u in frontier && v in Succ(g, u);
      ReachStep(g, u, v);
    }
    assert forall i :: 0 <= i < |next| ==> next[i] in next;
    assert forall i :: 0 <= i < |frontier| ==> frontier[i] in frontier;
  }

  /** `main`: start from `frontier = {0}` with nothing visited, and expand
      level after level until a level finds no new vertex. `order` is every
      `next` list, one after another. On exit exactly the vertices reached
      from 0 by one edge or more are marked (0 itself only when it lies on a
      cycle), and each of them was pushed exactly once. */
  method Search(g: Graph) returns (visited: seq<bool>, order: seq<int>)
    requires WellFormed(g)
    ensures |visited| == NumVertices(g)
    ensures forall v :: 0 <= v < NumVertices(g) ==> (visited[v] <==> Reach(g, v))
    ensures forall v :: 0 <= v < NumVertices(g) ==> (visited[v] <==> v in order)
    ensures forall v :: v in order ==> 0 <= v < NumVertices(g)
    ensures Distinct(order) && |order| <= NumVertices(g)
  {
    var n := NumVertices(g);
    visited := seq(n, _ => false);
    order := [];
    var frontier := [0];
    ghost var processed: set<int> := {};
    PushesNone(visited);
    NoneMarked(n);
    while frontier != []
      invariant Explored(g, visited, order, frontier, processed)
      decreases CountFalse(visited), |frontier|
    {
      var next;
      var marked;
      marked, next := Level(g, visited, frontier);
      LevelKeeps(g, visited, order, frontier, processed, marked, next);
      processed := processed + set x | x in frontier;
      visited := marked;
      order := order + next;
      frontier := next;
    }
    forall v | 0 <= v < n && Reach(g, v)
      ensures visited[v]
    {
      ReachedIsVisited(g, visited, processed, v);
    }
    assert forall i :: 0 <= i < |order| ==> order[i] in order;
  }

  // ---------------------------------------------------------------------------
  // Reachability.

  /** A neighbour of vertex 0 or of a reached vertex is reached. */
  lemma ReachStep(g: Graph, u: int, w: int)
    requires WellFormed(g) && 0 <= u < NumVertices(g) && (u == 0 || Reach(g, u))
    requires w in Succ(g, u)
    ensures Reach(g, w)
  {
    if u == 0 {
      var p := [0, w];
      assert IsWalk(g, p);
    } else {
      var p :| IsWalk(g, p) && |p| >= 2 && p[0] == 0 && p[|p| - 1] == u;
      var q := p + [w];
      assert forall k :: 0 <= k < |p| ==> q[k] == p[k];
      assert IsWalk(g, q);
    }
  }

  /** When vertex 0 has been expanded, every marked vertex has been expanded
      and every expanded vertex's neighbours are marked, each vertex reached
      from 0 is marked. */
  lemma ReachedIsVisited(g: Graph, visited: seq<bool>, processed: set<int>, v: int)
    requires WellFormed(g) && |visited| == NumVertices(g)
    requires 0 in processed && forall u :: u in processed ==> 0 <= u < NumVertices(g)
    requires forall x :: 0 <= x < NumVertices(g) && visited[x] ==> x in processed
    requires forall u, w :: u in processed && w in Succ(g, u) ==> visited[w]
    requires 0 <= v < NumVertices(g) && Reach(g, v)
    ensures visited[v]
  {
    var p :| IsWalk(g, p) && |p| >= 2 && p[0] == 0 && p[|p| - 1] == v;
    WalkVisited(g, visited, processed, p, |p| - 1);
  }

  lemma {:induction false} WalkVisited(g: Graph, visited: seq<bool>, processed: set<int>, p: seq<int>, k: int)
    requires WellFormed(g) && |visited| == NumVertices(g)
    requires 0 in processed && forall u :: u in processed ==> 0 <= u < NumVertices(g)
    requires forall x :: 0 <= x < NumVertices(g) && visited[x] ==> x in processed
    requires forall u, w :: u in processed && w in Succ(g, u) ==> visited[w]
    requires IsWalk(g, p) && p[0] == 0 && 1 <= k < |p|
    ensures visited[p[k]]
    decreases k
  {
    if k > 1 {
      WalkVisited(g, visited, processed, p, k - 1);
    }
    assert p[k] in Succ(g, p[k - 1]);
  }
}
