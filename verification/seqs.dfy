/** Indexing into a concatenation. Stated on their own, over any element
    type, so that the index arithmetic is settled once, away from the
    converter's definitions. */
module Seqs {

  lemma AppendLeft<T>(a: seq<T>, b: seq<T>, k: int)
    requires 0 <= k < |a|
    ensures (a + b)[k] == a[k]
  {
  }

  lemma AppendRight<T>(a: seq<T>, b: seq<T>, k: int)
    requires 0 <= k < |b|
    ensures |a| + k < |a + b| && (a + b)[|a| + k] == b[k]
  {
  }

  /** The concatenation of `f(x)` over the elements `x` of `xs`, in order. */
  function FlatMap<T, U>(xs: seq<T>, f: T -> seq<U>): seq<U>
    decreases |xs|
  {
    if |xs| == 0 then [] else FlatMap(xs[..|xs| - 1], f) + f(xs[|xs| - 1])
  }

  /** Where element `k` of `f(xs[i])` lands in the flat map. */
  function FlatIndex<T, U>(xs: seq<T>, f: T -> seq<U>, i: int, k: int): int
    requires 0 <= i <= |xs|
  {
    |FlatMap(xs[..i], f)| + k
  }

  /** Element `k` of `f(xs[i])` sits in the flat map right after the
      elements contributed by `xs[..i]`. */
  lemma {:induction false} FlatMapAt<T, U>(xs: seq<T>, f: T -> seq<U>, i: int, k: int)
    requires 0 <= i < |xs| && 0 <= k < |f(xs[i])|
    ensures 0 <= FlatIndex(xs, f, i, k) < |FlatMap(xs, f)|
    ensures FlatMap(xs, f)[FlatIndex(xs, f, i, k)] == f(xs[i])[k]
    decreases |xs|
  {
    var init := xs[..|xs| - 1];
    if i < |xs| - 1 {
      assert init[..i] == xs[..i] && init[i] == xs[i];
      FlatMapAt(init, f, i, k);
      AppendLeft(FlatMap(init, f), f(xs[|xs| - 1]), |FlatMap(xs[..i], f)| + k);
    } else {
      assert init == xs[..i];
      AppendRight(FlatMap(init, f), f(xs[i]), k);
    }
  }

  /** The flat map of a prefix is the flat map of the prefix one shorter,
      followed by the image of the prefix's last element. */
  lemma FlatMapPrefixSnoc<T, U>(xs: seq<T>, f: T -> seq<U>, i: int)
    requires 0 <= i < |xs|
    ensures FlatMap(xs[..i + 1], f) == FlatMap(xs[..i], f) + f(xs[i])
  {
    assert xs[..i + 1][..i] == xs[..i] && xs[..i + 1][i] == xs[i];
  }

  /** A longer prefix contributes at least as many elements. */
  lemma {:induction false} FlatMapPrefixGrows<T, U>(xs: seq<T>, f: T -> seq<U>, a: int, b: int)
    requires 0 <= a <= b <= |xs|
    ensures |FlatMap(xs[..a], f)| <= |FlatMap(xs[..b], f)|
    decreases b
  {
    if a < b {
      FlatMapPrefixGrows(xs, f, a, b - 1);
      FlatMapPrefixSnoc(xs, f, b - 1);
    }
  }

  /** The elements contributed by an earlier element of `xs` all come
      before those contributed by a later one. */
  lemma FlatIndexOrdered<T, U>(xs: seq<T>, f: T -> seq<U>, i: int, k: int, i': int, k': int)
    requires 0 <= i < i' <= |xs| && 0 <= k < |f(xs[i])| && 0 <= k'
    ensures FlatIndex(xs, f, i, k) < FlatIndex(xs, f, i', k')
  {
    FlatMapPrefixSnoc(xs, f, i);
    FlatMapPrefixGrows(xs, f, i + 1, i');
  }

  /** Every position of the flat map is the position of element `k` of the
      image of some `xs[i]`: the flat map holds nothing else. */
  lemma {:induction false} FlatMapIndexOf<T, U>(xs: seq<T>, f: T -> seq<U>, p: int)
    requires 0 <= p < |FlatMap(xs, f)|
    ensures exists i, k :: 0 <= i < |xs| && 0 <= k < |f(xs[i])| && p == FlatIndex(xs, f, i, k)
    decreases |xs|
  {
    var init := xs[..|xs| - 1];
    if p < |FlatMap(init, f)| {
      FlatMapIndexOf(init, f, p);
      var i, k :| 0 <= i < |init| && 0 <= k < |f(init[i])| && p == FlatIndex(init, f, i, k);
      assert init[..i] == xs[..i] && init[i] == xs[i];
      assert p == FlatIndex(xs, f, i, k);
    } else {
      assert xs[..|xs| - 1] == init;
      assert p == FlatIndex(xs, f, |xs| - 1, p - |FlatMap(init, f)|);
    }
  }
}
