/** Small datatypes shared by every part of the model. */
module Common {

  datatype Option<+T> = None | Some(value: T)

  /** JavaScript's `startsWith`. */
  predicate StartsWith<T(==)>(s: seq<T>, needle: seq<T>) {
    needle <= s
  }

  function Map<T, U>(f: T -> U, xs: seq<T>): (ys: seq<U>)
    ensures |ys| == |xs| && forall k | 0 <= k < |xs| :: ys[k] == f(xs[k])
  {
    seq(|xs|, k requires 0 <= k < |xs| => f(xs[k]))
  }

  function WithoutIndex<T>(xs: seq<T>, k: nat): seq<T>
    requires k < |xs|
  {
    xs[..k] + xs[k + 1..]
  }

  lemma RemoveOne<T>(xs: seq<T>, k: nat)
    requires k < |xs|
    ensures multiset(xs) == multiset(WithoutIndex(xs, k)) + multiset{xs[k]}
    ensures multiset(WithoutIndex(xs, k)) == multiset(xs) - multiset{xs[k]}
  {
    assert xs == xs[..k] + [xs[k]] + xs[k + 1..];
  }

  lemma MapRemoves<T, U>(f: T -> U, xs: seq<T>, k: nat)
    requires k < |xs|
    ensures multiset(Map(f, xs)) == multiset(Map(f, WithoutIndex(xs, k))) + multiset{f(xs[k])}
  {
    RemoveOne(Map(f, xs), k);
    assert Map(f, WithoutIndex(xs, k)) == WithoutIndex(Map(f, xs), k);
  }

  /** Mapping lists with the same elements gives lists with the same elements. */
  lemma {:induction false} MapPermutes<T, U>(f: T -> U, a: seq<T>, b: seq<T>)
    requires multiset(a) == multiset(b)
    ensures multiset(Map(f, a)) == multiset(Map(f, b))
    decreases |a|
  {
    assert |a| == |multiset(a)| == |multiset(b)| == |b|;
    if a != [] {
      assert a[0] in multiset(b);
      var k :| 0 <= k < |b| && b[k] == a[0];
      RemoveOne(a, 0);
      RemoveOne(b, k);
      MapRemoves(f, a, 0);
      MapRemoves(f, b, k);
      MapPermutes(f, WithoutIndex(a, 0), WithoutIndex(b, k));
    }
  }

  /** An image is counted as often as the one element it comes from. */
  lemma {:induction false} CountOfImage<T, U>(f: T -> U, xs: seq<T>, x: T)
    requires forall y | y in xs :: f(y) == f(x) ==> y == x
    ensures multiset(Map(f, xs))[f(x)] == multiset(xs)[x]
    decreases |xs|
  {
    if xs != [] {
      RemoveOne(xs, 0);
      MapRemoves(f, xs, 0);
      assert xs[0] in xs;
      CountOfImage(f, WithoutIndex(xs, 0), x);
    }
  }

  lemma SubsetIsSmaller<T>(small: set<T>, big: set<T>)
    requires small <= big
    ensures |small| <= |big|
  {
    assert |big - small| + |small| == |(big - small) + small|;
    assert (big - small) + small == big;
  }
}
