/** The sorting kernel of `workloads/bubble/bubble.cpp`: an exchange sort over
    the `data` array of `array.h`. For each position i it compares `data[i]`
    with every later entry and swaps the two when the later one is smaller. */
module Bubble {

  predicate Sorted(s: seq<int>)
  {
    forall a, b :: 0 <= a < b < |s| ==> s[a] <= s[b]
  }

  /** Lines 20-24: swap positions i and j when they are out of order. The
      smaller value ends at i and the larger at j, nothing else moves, and
      entries already in order (equal ones included) stay where they are. */
  function CompareSwap(s: seq<int>, i: int, j: int): (r: seq<int>)
    requires 0 <= i < j < |s|
    ensures |r| == |s| && multiset(r) == multiset(s)
    ensures r[i] <= r[j] && {r[i], r[j]} == {s[i], s[j]}
    ensures forall k :: 0 <= k < |s| && k != i && k != j ==> r[k] == s[k]
    ensures s[i] <= s[j] ==> r == s
  {
    if s[i] > s[j] then s[i := s[j]][j := s[i]] else s
  }

  /** The inner loop for position i after comparing with every j' < j: the
      entries before i are untouched, `data[i]` is the least of positions i
      to j - 1, and every entry from i on is one that was there before. */
  predicate PassedUpTo(data: seq<int>, r: seq<int>, i: int, j: int)
    requires 0 <= i < j <= |data|
  {
    && |r| == |data| && multiset(r) == multiset(data)
    && (forall k :: 0 <= k < i ==> r[k] == data[k])
    && (forall k :: i < k < j ==> r[i] <= r[k])
    && (forall k :: i <= k < |r| ==> r[k] in data[i..])
    && ((forall k :: i < k < |data| ==> data[i] <= data[k]) ==> r == data)
  }

  /** One comparison of the inner loop extends the state by one position. */
  lemma PassStep(data: seq<int>, r: seq<int>, i: int, j: int)
    requires 0 <= i < j < |data| && PassedUpTo(data, r, i, j)
    ensures PassedUpTo(data, CompareSwap(r, i, j), i, j + 1)
  {
    var r' := CompareSwap(r, i, j);
    assert r'[i] in data[i..] && r'[j] in data[i..] by {
      assert r[i] in data[i..] && r[j] in data[i..];
    }
    if forall k :: i < k < |data| ==> data[i] <= data[k] {
      assert r == data;
    }
  }

  /** The inner loop for position i: afterwards `data[i]` is the least entry
      from i on, the entries before i are untouched, and every entry from i
      on is one of the entries that were there before. */
  method InnerPass(data: seq<int>, i: int) returns (r: seq<int>)
    requires 0 <= i < |data|
    ensures |r| == |data| && multiset(r) == multiset(data)
    ensures forall k :: 0 <= k < i ==> r[k] == data[k]
    ensures forall k :: i < k < |r| ==> r[i] <= r[k]
    ensures forall k :: i <= k < |r| ==> r[k] in data[i..]
    ensures (forall k :: i < k < |data| ==> data[i] <= data[k]) ==> r == data
  {
    r := data;
    var j := i + 1;
    assert forall k :: i <= k < |r| ==> r[k] == data[i..][k - i];
    while j < |r|
      invariant i + 1 <= j <= |r| == |data|
      invariant PassedUpTo(data, r, i, j)
    {
      PassStep(data, r, i, j);
      r := CompareSwap(r, i, j);
      j := j + 1;
    }
  }

  /** `main`'s nested loops. The result is sorted and holds the same entries
      as the input, each as often; an already sorted input (in particular
      one of at most one entry) comes back unchanged. */
  method Sort(data: seq<int>) returns (r: seq<int>)
    ensures |r| == |data| && multiset(r) == multiset(data)
    ensures Sorted(r)
    ensures Sorted(data) ==> r == data
    ensures |data| <= 1 ==> r == data
  {
    r := data;
    var i := 0;
    while i < |data| - 1
      invariant 0 <= i && (|data| > 0 ==> i <= |data| - 1)
      invariant |r| == |data| && multiset(r) == multiset(data)
      invariant forall a, b :: 0 <= a < i && a < b < |r| ==> r[a] <= r[b]
      invariant Sorted(data) ==> r == data
    {
      var before := r;
      r := InnerPass(r, i);
      forall a, b | 0 <= a < i + 1 && a < b < |r|
        ensures r[a] <= r[b]
      {
        if a < i && b >= i {
          assert r[b] in before[i..];
          var k :| 0 <= k < |before[i..]| && before[i..][k] == r[b];
          assert before[a] <= before[i + k];
        }
      }
      i := i + 1;
    }
  }

  /** The sorted arrangement of a collection is unique: the sort's result is
      the one sorted sequence holding the input's entries. */
  lemma {:induction false} SortedUnique(a: seq<int>, b: seq<int>)
    requires Sorted(a) && Sorted(b) && multiset(a) == multiset(b)
    ensures a == b
    decreases |a|
  {
    assert |b| == |a| by {
      assert |multiset(a)| == |a| && |multiset(b)| == |b|;
    }
    if a != [] {
      assert a[0] == b[0] by {
        assert a[0] in multiset(b) && b[0] in multiset(a) by {
          assert a[0] in a && b[0] in b;
        }
        var i :| 0 <= i < |b| && b[i] == a[0];
        var j :| 0 <= j < |a| && a[j] == b[0];
        assert b[0] <= b[i] && a[0] <= a[j];
      }
      assert multiset(a[1..]) == multiset(b[1..]) by {
        MultisetCons(a);
        MultisetCons(b);
        MultisetCancel(a[0], multiset(a[1..]), multiset(b[1..]));
      }
      SortedUnique(a[1..], b[1..]);
      assert a == [a[0]] + a[1..] && b == [b[0]] + b[1..];
    }
  }

  lemma MultisetCons(s: seq<int>)
    requires s != []
    ensures multiset(s) == multiset{s[0]} + multiset(s[1..])
  {
    assert s == [s[0]] + s[1..];
  }

  lemma MultisetCancel(x: int, m1: multiset<int>, m2: multiset<int>)
    requires multiset{x} + m1 == multiset{x} + m2
    ensures m1 == m2
  {
    forall y
      ensures m1[y] == m2[y]
    {
      assert (multiset{x} + m1)[y] == (multiset{x} + m2)[y];
    }
  }
}
