/**
 * Order-preserving sequence operations: `MapSeq` is a stream's `map(...).collect`; `Filter` is a
 * repository query that selects the stored rows satisfying a condition, in storage order.
 */
module Sequences {

  /** Applies `f` to every element, keeping the order. */
  function MapSeq<A, B>(f: A -> B, s: seq<A>): (r: seq<B>)
    ensures |r| == |s|
    ensures forall i :: 0 <= i < |s| ==> r[i] == f(s[i])
  {
    if s == [] then [] else [f(s[0])] + MapSeq(f, s[1..])
  }

  /** Keeps exactly the elements satisfying `keep`, in their original order. */
  function Filter<T(!new)>(keep: T -> bool, s: seq<T>): (r: seq<T>)
    ensures |r| <= |s|
    ensures forall x :: x in r <==> x in s && keep(x)
  {
    if s == [] then []
    else if keep(s[0]) then [s[0]] + Filter(keep, s[1..])
    else Filter(keep, s[1..])
  }

  /** Filtering distributes over concatenation: the relative order of kept elements is preserved. */
  lemma {:induction false} FilterConcat<T(!new)>(keep: T -> bool, a: seq<T>, b: seq<T>)
    ensures Filter(keep, a + b) == Filter(keep, a) + Filter(keep, b)
  {
    if a == [] {
      assert a + b == b;
    } else {
      assert (a + b)[1..] == a[1..] + b;
      FilterConcat(keep, a[1..], b);
    }
  }

  /** The positions of the kept elements, ascending: each kept element's position exactly once. */
  function KeptIndices<T>(keep: T -> bool, s: seq<T>): (idx: seq<nat>)
    ensures forall k :: 0 <= k < |idx| ==> idx[k] < |s| && keep(s[idx[k]])
    ensures forall k, l :: 0 <= k < l < |idx| ==> idx[k] < idx[l]
    ensures forall i :: 0 <= i < |s| && keep(s[i]) ==> i in idx
  {
    if s == [] then []
    else
      var n := |s| - 1;
      var front := KeptIndices(keep, s[..n]);
      assert forall j :: 0 <= j < n ==> s[..n][j] == s[j];
      if keep(s[n]) then front + [n] else front
  }

  /** The filter's result is the input read at the kept positions, in ascending order. */
  lemma {:induction false} FilterAtKeptIndices<T(!new)>(keep: T -> bool, s: seq<T>)
    ensures |Filter(keep, s)| == |KeptIndices(keep, s)|
    ensures forall k :: 0 <= k < |KeptIndices(keep, s)| ==> Filter(keep, s)[k] == s[KeptIndices(keep, s)[k]]
  {
    if s != [] {
      var n := |s| - 1;
      var front := s[..n];
      FilterAtKeptIndices(keep, front);
      assert s == front + [s[n]];
      FilterConcat(keep, front, [s[n]]);
      assert [s[n]][1..] == [];
      assert Filter(keep, [s[n]]) == (if keep(s[n]) then [s[n]] else []);
      assert forall j :: 0 <= j < n ==> front[j] == s[j];
    }
  }
}
