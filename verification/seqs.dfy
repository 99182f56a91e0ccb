/** Facts about sequences shared by the client and server models. */
module Seqs {

  /** `xs` lists each of its elements once. */
  predicate Distinct<T(==)>(xs: seq<T>) {
    forall i, j :: 0 <= i < j < |xs| ==> xs[i] != xs[j]
  }

  /** Applies `f` to every element, keeping the order. */
  function MapSeq<A, B>(f: A -> B, xs: seq<A>): (ys: seq<B>)
    ensures |ys| == |xs|
    ensures forall i :: 0 <= i < |xs| ==> ys[i] == f(xs[i])
  {
    seq(|xs|, i requires 0 <= i < |xs| => f(xs[i]))
  }

  /** Two arrangements of the same elements stay arrangements of each other under `f`. */
  lemma {:induction false} MapSeqMultiset<A, B>(f: A -> B, xs: seq<A>, ys: seq<A>)
    requires multiset(xs) == multiset(ys)
    ensures multiset(MapSeq(f, xs)) == multiset(MapSeq(f, ys))
    decreases |xs|
  {
    if |xs| == 0 {
      assert |ys| == |multiset(ys)| == 0;
    } else {
      var k := FindIn(ys, xs[0]);
      var tail, rest := xs[1..], ys[..k] + ys[k + 1..];
      RemoveMatching(xs, ys, k);
      MapSeqMultiset(f, tail, rest);
      MapSeqRemoveAt(f, ys, k);
      MapSeqRemoveFirst(f, xs);
    }
  }

  /** Taking one copy of the same element out of two arrangements leaves two arrangements. */
  lemma RemoveMatching<T>(xs: seq<T>, ys: seq<T>, k: nat)
    requires multiset(xs) == multiset(ys)
    requires 0 < |xs| && k < |ys| && ys[k] == xs[0]
    ensures multiset(xs[1..]) == multiset(ys[..k] + ys[k + 1..])
  {
    RemoveAt(ys, k);
    RemoveFirst(xs);
  }

  /** Dropping the head removes one copy of it. */
  lemma RemoveFirst<T>(xs: seq<T>)
    requires 0 < |xs|
    ensures multiset(xs[1..]) == multiset(xs) - multiset{xs[0]}
  {
    assert xs == [xs[0]] + xs[1..];
  }

  /** Mapping, then counting, sees the first element once more than the tail. */
  lemma MapSeqRemoveFirst<A, B>(f: A -> B, xs: seq<A>)
    requires 0 < |xs|
    ensures multiset(MapSeq(f, xs)) == multiset(MapSeq(f, xs[1..])) + multiset{f(xs[0])}
  {
    assert xs == [xs[0]] + xs[1..];
    MapSeqConcat(f, [xs[0]], xs[1..]);
    assert MapSeq(f, [xs[0]]) == [f(xs[0])];
  }

  /** A position of `x` in a sequence holding `x`. */
  lemma FindIn<T>(ys: seq<T>, x: T) returns (k: nat)
    requires multiset(ys)[x] > 0
    ensures k < |ys| && ys[k] == x
  {
    assert x in ys;
    k :| k < |ys| && ys[k] == x;
  }

  /** Mapping, then counting, sees the element at `k` once more than the rest. */
  lemma {:induction false} MapSeqRemoveAt<A, B>(f: A -> B, ys: seq<A>, k: nat)
    requires k < |ys|
    ensures multiset(MapSeq(f, ys)) == multiset(MapSeq(f, ys[..k] + ys[k + 1..])) + multiset{f(ys[k])}
  {
    var pre, post := MapSeq(f, ys[..k]), MapSeq(f, ys[k + 1..]);
    var mid := [ys[k]] + ys[k + 1..];
    assert ys == ys[..k] + mid;
    MapSeqConcat(f, ys[..k], mid);
    MapSeqConcat(f, [ys[k]], ys[k + 1..]);
    assert MapSeq(f, [ys[k]]) == [f(ys[k])];
    MapSeqConcat(f, ys[..k], ys[k + 1..]);
    assert MapSeq(f, ys) == pre + [f(ys[k])] + post;
  }

  /** Removing position `k` removes one copy of that element. */
  lemma {:induction false} RemoveAt<T>(ys: seq<T>, k: nat)
    requires k < |ys|
    ensures multiset(ys[..k] + ys[k + 1..]) == multiset(ys) - multiset{ys[k]}
  {
    assert ys == ys[..k] + [ys[k]] + ys[k + 1..];
  }

  /** Concatenation is associative. */
  lemma AppendAssoc<T>(a: seq<T>, b: seq<T>, c: seq<T>)
    ensures a + b + c == a + (b + c)
  {
  }

  /** `MapSeq` distributes over concatenation. */
  lemma {:induction false} MapSeqConcat<A, B>(f: A -> B, xs: seq<A>, ys: seq<A>)
    ensures MapSeq(f, xs + ys) == MapSeq(f, xs) + MapSeq(f, ys)
  {
  }

  /** A list without repetitions is as long as the set of its elements. */
  lemma {:induction false} DistinctCard<T>(xs: seq<T>)
    requires Distinct(xs)
    ensures |set x | x in xs| == |xs|
  {
    if |xs| > 0 {
      var tail := xs[1..];
      assert Distinct(tail);
      DistinctCard(tail);
      assert (set x | x in xs) == (set x | x in tail) + {xs[0]};
      assert xs[0] !in (set x | x in tail);
    }
  }

  /** A list without repetitions holds each of its elements exactly once. */
  lemma {:induction false} DistinctCount<T>(xs: seq<T>, x: T)
    requires Distinct(xs)
    ensures multiset(xs)[x] == if x in xs then 1 else 0
  {
    if |xs| > 0 {
      var tail := xs[1..];
      assert xs == [xs[0]] + tail;
      DistinctCount(tail, x);
      assert xs[0] !in tail;
    }
  }

  /** Two lists without repetitions over the same elements are arrangements of each other. */
  lemma DistinctSameElements<T>(xs: seq<T>, ys: seq<T>)
    requires Distinct(xs) && Distinct(ys)
    requires forall x :: x in xs <==> x in ys
    ensures multiset(xs) == multiset(ys)
  {
    forall x
      ensures multiset(xs)[x] == multiset(ys)[x]
    {
      DistinctCount(xs, x);
      DistinctCount(ys, x);
    }
  }
}
