/**
 * List filtering and the order facts the tool layer needs: the lists it builds
 * with comprehensions and loops keep the order of the lists they come from.
 */
module Sequences {

  /** `[x for x in xs if keep(x)]`. */
  function Filter<T>(xs: seq<T>, keep: T -> bool): (r: seq<T>)
    ensures |r| <= |xs|
    ensures forall i :: 0 <= i < |r| ==> r[i] in xs && keep(r[i])
    ensures forall i :: 0 <= i < |xs| && keep(xs[i]) ==> xs[i] in r
  {
    if xs == [] then []
    else Filter(xs[..|xs| - 1], keep) + (if keep(xs[|xs| - 1]) then [xs[|xs| - 1]] else [])
  }

  predicate Distinct<T(==)>(xs: seq<T>)
  {
    forall i, j :: 0 <= i < j < |xs| ==> xs[i] != xs[j]
  }

  /** `xs.index(x)`: the first position of `x`. */
  function IndexIn<T(==)>(xs: seq<T>, x: T): (i: nat)
    requires x in xs
    ensures i < |xs| && xs[i] == x
    ensures forall j :: 0 <= j < i ==> xs[j] != x
  {
    if xs[0] == x then 0 else 1 + IndexIn(xs[1..], x)
  }

  /** Every element of `sub` is in `xs`, and `sub` lists them in the order `xs` does. */
  predicate InOrderOf<T(==)>(sub: seq<T>, xs: seq<T>)
  {
    && (forall p :: 0 <= p < |sub| ==> sub[p] in xs)
    && (forall p, q :: 0 <= p < q < |sub| ==> IndexIn(xs, sub[p]) < IndexIn(xs, sub[q]))
  }

  lemma IndexInPrefix<T>(xs: seq<T>, n: nat, x: T)
    requires n <= |xs| && x in xs[..n]
    ensures IndexIn(xs, x) == IndexIn(xs[..n], x)
  {
    var i := IndexIn(xs[..n], x);
    assert xs[i] == x;
    assert forall j :: 0 <= j < i ==> xs[j] == xs[..n][j];
  }

  /** Filtering a list without repetitions gives a list without repetitions, in the same order. */
  lemma {:induction false} FilterInOrder<T>(xs: seq<T>, keep: T -> bool)
    requires Distinct(xs)
    ensures Distinct(Filter(xs, keep))
    ensures InOrderOf(Filter(xs, keep), xs)
  {
    if xs != [] {
      var n := |xs| - 1;
      var init := xs[..n];
      var r0 := Filter(init, keep);
      FilterInOrder(init, keep);
      var r := Filter(xs, keep);
      assert r == r0 + (if keep(xs[n]) then [xs[n]] else []);
      assert xs[n] !in init;
      forall x | x in r0 ensures IndexIn(xs, x) == IndexIn(init, x) && IndexIn(init, x) < n {
        IndexInPrefix(xs, n, x);
      }
      assert xs[n] in xs;
      assert IndexIn(xs, xs[n]) == n;
      forall p, q | 0 <= p < q < |r| ensures IndexIn(xs, r[p]) < IndexIn(xs, r[q]) {
        assert r[p] in r0;
        if q < |r0| {
          assert r[q] in r0;
        }
      }
    }
  }

  /** Appending a new element to both lists keeps the order relation. */
  lemma InOrderExtend<T>(sub: seq<T>, xs: seq<T>, x: T)
    requires InOrderOf(sub, xs) && x !in xs
    ensures InOrderOf(sub, xs + [x])
    ensures InOrderOf(sub + [x], xs + [x])
  {
    var ys := xs + [x];
    assert ys[..|xs|] == xs;
    forall y | y in xs ensures IndexIn(ys, y) == IndexIn(xs, y) && IndexIn(xs, y) < |xs| {
      IndexInPrefix(ys, |xs|, y);
    }
    assert IndexIn(ys, x) == |xs|;
    var sub' := sub + [x];
    forall p, q | 0 <= p < q < |sub'| ensures IndexIn(ys, sub'[p]) < IndexIn(ys, sub'[q]) {
      assert sub'[p] == sub[p] && sub[p] in xs;
      if q < |sub| {
        assert sub'[q] == sub[q] && sub[q] in xs;
      }
    }
  }

  /** Two lists without repetitions and without a common element concatenate to one without repetitions. */
  lemma DistinctConcat<T>(a: seq<T>, b: seq<T>)
    requires Distinct(a) && Distinct(b)
    requires forall i :: 0 <= i < |a| ==> a[i] !in b
    ensures Distinct(a + b)
  {
    var ab := a + b;
    forall i, j | 0 <= i < j < |ab| ensures ab[i] != ab[j] {
      if j < |a| {
        assert ab[i] == a[i] && ab[j] == a[j];
      } else if i >= |a| {
        assert ab[i] == b[i - |a|] && ab[j] == b[j - |a|];
      } else {
        assert ab[i] == a[i] && ab[j] in b;
      }
    }
  }
}
