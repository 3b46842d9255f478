/** Evidence trails: lists of ids taken from a longer list of fed ids, in feed order. */
module Trails {

  predicate Distinct<T(==)>(xs: seq<T>) {
    forall i, j :: 0 <= i < j < |xs| ==> xs[i] != xs[j]
  }

  lemma {:induction false} DistinctConcat<T>(a: seq<T>, b: seq<T>)
    requires Distinct(a) && Distinct(b) && forall x :: x in a ==> x !in b
    ensures Distinct(a + b)
  {
    forall i, j | 0 <= i < j < |a + b|
      ensures (a + b)[i] != (a + b)[j]
    {
      assert i < |a| <= j ==> (a + b)[i] in a && (a + b)[j] in b;
    }
  }

  /** The positions ixs pick xs out of ys, from left to right. */
  predicate Picks<T(==)>(ixs: seq<int>, xs: seq<T>, ys: seq<T>) {
    && |ixs| == |xs|
    && (forall i, j :: 0 <= i < j < |ixs| ==> ixs[i] < ixs[j])
    && (forall i :: 0 <= i < |ixs| ==> 0 <= ixs[i] < |ys| && xs[i] == ys[ixs[i]])
  }

  /** xs is a subsequence of ys. */
  ghost predicate InOrder<T>(xs: seq<T>, ys: seq<T>) {
    exists ixs :: Picks(ixs, xs, ys)
  }

  /** A trail over distinct ids has distinct ids, all of them fed. */
  lemma {:induction false} InOrderDistinct<T>(xs: seq<T>, ys: seq<T>)
    requires InOrder(xs, ys)
    ensures forall x :: x in xs ==> x in ys
    ensures Distinct(ys) ==> Distinct(xs)
  {
    var ixs :| Picks(ixs, xs, ys);
    assert forall i :: 0 <= i < |xs| ==> xs[i] == ys[ixs[i]];
  }

  lemma {:induction false} PicksAscend<T>(ixs: seq<int>, xs: seq<T>, ys: seq<T>, i: nat)
    requires Picks(ixs, xs, ys) && i < |ixs|
    ensures i <= ixs[i]
  {
    if i > 0 {
      PicksAscend(ixs, xs, ys, i - 1);
    }
  }

  lemma {:induction false} InOrderNoLonger<T>(xs: seq<T>, ys: seq<T>)
    requires InOrder(xs, ys)
    ensures |xs| <= |ys|
  {
    var ixs :| Picks(ixs, xs, ys);
    if |xs| > 0 {
      PicksAscend(ixs, xs, ys, |xs| - 1);
    }
  }

  lemma {:induction false} SliceInOrder<T>(ys: seq<T>, i: nat, j: nat)
    requires i <= j <= |ys|
    ensures InOrder(ys[i..j], ys)
  {
    var ixs := seq(j - i, k requires 0 <= k < j - i => i + k);
    assert Picks(ixs, ys[i..j], ys);
  }

  lemma {:induction false} InOrderLonger<T>(xs: seq<T>, ys: seq<T>, n: nat)
    requires n <= |ys| && InOrder(xs, ys[..n])
    ensures InOrder(xs, ys)
  {
    var ixs :| Picks(ixs, xs, ys[..n]);
    assert Picks(ixs, xs, ys);
  }

  /** A trail that ends before position i, followed by the slice i..j, is a trail. */
  lemma {:induction false} InOrderThenSlice<T>(xs: seq<T>, ys: seq<T>, n: nat, i: nat, j: nat)
    requires n <= i <= j <= |ys| && InOrder(xs, ys[..n])
    ensures InOrder(xs + ys[i..j], ys[..j])
  {
    var ixs :| Picks(ixs, xs, ys[..n]);
    var tail := seq(j - i, k requires 0 <= k < j - i => i + k);
    assert Picks(ixs + tail, xs + ys[i..j], ys[..j]);
  }

  lemma {:induction false} InOrderTransitive<T>(xs: seq<T>, ys: seq<T>, zs: seq<T>)
    requires InOrder(xs, ys) && InOrder(ys, zs)
    ensures InOrder(xs, zs)
  {
    var a :| Picks(a, xs, ys);
    var b :| Picks(b, ys, zs);
    var c := seq(|a|, k requires 0 <= k < |a| => b[a[k]]);
    assert Picks(c, xs, zs);
  }

  lemma {:induction false} EmptyInOrder<T>(ys: seq<T>)
    ensures InOrder([], ys)
  {
    assert Picks([], [], ys);
  }
}
