/**
 * The array operations the pages chain together: `filter`, the numeric
 * `reduce((s, x) => s + x, 0)` and the mean built on it.
 */
module Lists {

  /** `xs.filter(p)`: the elements satisfying p, in their original order. */
  function Filter<T(!new)>(xs: seq<T>, p: T -> bool): (r: seq<T>)
    ensures |r| <= |xs|
    ensures forall x :: x in r <==> x in xs && p(x)
    ensures forall i :: 0 <= i < |r| ==> p(r[i])
  {
    if xs == [] then []
    else
      var init, x := xs[..|xs| - 1], xs[|xs| - 1];
      assert xs == init + [x];
      Filter(init, p) + (if p(x) then [x] else [])
  }

  /**
   * Filtering commutes with concatenation: what survives of xs comes before
   * what survives of ys, so the result keeps the input order.
   */
  lemma {:induction false} FilterAppend<T(!new)>(xs: seq<T>, ys: seq<T>, p: T -> bool)
    ensures Filter(xs + ys, p) == Filter(xs, p) + Filter(ys, p)
    decreases |ys|
  {
    if ys == [] {
      assert xs + ys == xs;
    } else {
      var init, y := ys[..|ys| - 1], ys[|ys| - 1];
      assert ys == init + [y];
      assert (xs + ys)[..|xs + ys| - 1] == xs + init;
      FilterAppend(xs, init, p);
    }
  }

  /** A filter that every element passes keeps the whole list. */
  lemma {:induction false} FilterAll<T(!new)>(xs: seq<T>, p: T -> bool)
    requires forall i :: 0 <= i < |xs| ==> p(xs[i])
    ensures Filter(xs, p) == xs
    decreases |xs|
  {
    if xs != [] {
      FilterAll(xs[..|xs| - 1], p);
      assert xs == xs[..|xs| - 1] + [xs[|xs| - 1]];
    }
  }

  /** A filter that no element passes keeps nothing. */
  lemma {:induction false} FilterNone<T(!new)>(xs: seq<T>, p: T -> bool)
    requires forall i :: 0 <= i < |xs| ==> !p(xs[i])
    ensures Filter(xs, p) == []
    decreases |xs|
  {
    if xs != [] {
      FilterNone(xs[..|xs| - 1], p);
    }
  }

  /** A filter keeps every copy of an element that passes and no copy of one that fails. */
  lemma {:induction false} FilterCounts<T(!new)>(xs: seq<T>, p: T -> bool)
    ensures forall x :: multiset(Filter(xs, p))[x] == if p(x) then multiset(xs)[x] else 0
    decreases |xs|
  {
    if xs != [] {
      var init, last := xs[..|xs| - 1], xs[|xs| - 1];
      FilterCounts(init, p);
      assert xs == init + [last];
      assert multiset(xs) == multiset(init) + multiset{last};
      assert Filter(xs, p) == Filter(init, p) + (if p(last) then [last] else []);
    }
  }

  /**
   * idx places the elements of xs, in order, at increasing positions of ys:
   * xs is an order-preserving selection from ys.
   */
  ghost predicate Embeds<T>(idx: seq<nat>, xs: seq<T>, ys: seq<T>)
  {
    && |idx| == |xs|
    && (forall k :: 0 <= k < |idx| ==> idx[k] < |ys| && xs[k] == ys[idx[k]])
    && (forall k, l :: 0 <= k < l < |idx| ==> idx[k] < idx[l])
  }

  /** What a filter keeps is an order-preserving selection from its input. */
  lemma FilterKeepsOrder<T(!new)>(xs: seq<T>, p: T -> bool)
    ensures exists idx :: Embeds(idx, Filter(xs, p), xs)
  {
    var idx := FilterEmbedding(xs, p);
  }

  /** The positions a filter keeps, in increasing order. */
  lemma {:induction false} FilterEmbedding<T(!new)>(xs: seq<T>, p: T -> bool) returns (idx: seq<nat>)
    ensures Embeds(idx, Filter(xs, p), xs)
    decreases |xs|
  {
    if xs == [] {
      idx := [];
    } else {
      var init, x := xs[..|xs| - 1], xs[|xs| - 1];
      var idx0 := FilterEmbedding(init, p);
      var kept := Filter(init, p);
      forall k | 0 <= k < |idx0|
        ensures idx0[k] < |init| && kept[k] == xs[idx0[k]]
      {
        assert xs[idx0[k]] == init[idx0[k]];
      }
      if p(x) {
        idx := idx0 + [|xs| - 1];
        assert Filter(xs, p) == kept + [x];
      } else {
        idx := idx0;
        assert Filter(xs, p) == kept;
      }
    }
  }

  /** Sum of a list of numbers (`reduce((s, x) => s + x, 0)`). */
  function Sum(xs: seq<real>): real
  {
    if xs == [] then 0.0 else Sum(xs[..|xs| - 1]) + xs[|xs| - 1]
  }

  lemma {:induction false} SumAppend(xs: seq<real>, ys: seq<real>)
    ensures Sum(xs + ys) == Sum(xs) + Sum(ys)
    decreases |ys|
  {
    if ys != [] {
      var init := ys[..|ys| - 1];
      assert ys == init + [ys[|ys| - 1]];
      assert (xs + ys)[..|xs + ys| - 1] == xs + init;
      assert Sum(xs + ys) == Sum(xs + init) + ys[|ys| - 1];
      SumAppend(xs, init);
    } else {
      assert xs + ys == xs;
    }
  }

  /** A sum of n numbers, each between lo and hi, lies between n*lo and n*hi. */
  lemma {:induction false} SumBounds(xs: seq<real>, lo: real, hi: real)
    requires forall i :: 0 <= i < |xs| ==> lo <= xs[i] <= hi
    ensures |xs| as real * lo <= Sum(xs) <= |xs| as real * hi
    decreases |xs|
  {
    if xs != [] {
      SumBounds(xs[..|xs| - 1], lo, hi);
    }
  }

  /** m is the arithmetic mean of the non-empty list xs: m times the count is the sum. */
  predicate IsMeanOf(m: real, xs: seq<real>)
  {
    xs != [] && m * |xs| as real == Sum(xs)
  }

  /** Arithmetic mean of a non-empty list. */
  function Mean(xs: seq<real>): (m: real)
    requires xs != []
    ensures IsMeanOf(m, xs)
  {
    Sum(xs) / |xs| as real
  }

  /** The mean lies between any lower and upper bound of the values. */
  lemma MeanBounds(xs: seq<real>, lo: real, hi: real)
    requires xs != []
    requires forall i :: 0 <= i < |xs| ==> lo <= xs[i] <= hi
    ensures lo <= Mean(xs) <= hi
  {
    SumBounds(xs, lo, hi);
  }
}
