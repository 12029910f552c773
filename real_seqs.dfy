/**
 * Reductions and index selections over sequences of reals: the numpy operations the
 * analysis uses (`np.sum`, `np.mean`, `np.max`, `np.min`, `np.clip`, `np.where` on a
 * boolean mask, fancy indexing, Python's `sorted`), stated once here.
 */
module RealSeqs {

  function Sum(s: seq<real>): real
  {
    if s == [] then 0.0 else Sum(s[..|s| - 1]) + s[|s| - 1]
  }

  function Mean(s: seq<real>): real
    requires |s| > 0
  {
    Sum(s) / (|s| as real)
  }

  lemma {:induction false} SumBounds(s: seq<real>, lo: real, hi: real)
    requires forall i :: 0 <= i < |s| ==> lo <= s[i] <= hi
    ensures (|s| as real) * lo <= Sum(s) <= (|s| as real) * hi
  {
    if s != [] {
      var init := s[..|s| - 1];
      SumBounds(init, lo, hi);
      var n := |init| as real;
      calc {
        (|s| as real) * lo;
        n * lo + lo;
      <= Sum(init) + s[|s| - 1];
      }
      calc {
        Sum(init) + s[|s| - 1];
      <= n * hi + hi;
        (|s| as real) * hi;
      }
    }
  }

  /** A mean lies between any lower and upper bound of the values averaged. */
  lemma MeanBounds(s: seq<real>, lo: real, hi: real)
    requires |s| > 0
    requires forall i :: 0 <= i < |s| ==> lo <= s[i] <= hi
    ensures lo <= Mean(s) <= hi
  {
    SumBounds(s, lo, hi);
    var n := |s| as real;
    var m := Mean(s);
    assert m * n == Sum(s);
    if m < lo {
      calc {
        Sum(s);
        m * n;
      < lo * n;
      }
    }
    if m > hi {
      calc {
        Sum(s);
        m * n;
      > hi * n;
      }
    }
  }

  /** The largest element (`np.max`); the sequence must not be empty. */
  function Max(s: seq<real>): (m: real)
    requires |s| > 0
    ensures m in s
    ensures forall i :: 0 <= i < |s| ==> s[i] <= m
  {
    if |s| == 1 then s[0]
    else
      var rest := Max(s[..|s| - 1]);
      if s[|s| - 1] > rest then s[|s| - 1] else rest
  }

  /** The smallest element (`np.min`); the sequence must not be empty. */
  function Min(s: seq<real>): (m: real)
    requires |s| > 0
    ensures m in s
    ensures forall i :: 0 <= i < |s| ==> m <= s[i]
  {
    if |s| == 1 then s[0]
    else
      var rest := Min(s[..|s| - 1]);
      if s[|s| - 1] < rest then s[|s| - 1] else rest
  }

  function Abs(x: real): real
  {
    if x < 0.0 then -x else x
  }

  function Larger(x: real, y: real): real
  {
    if x >= y then x else y
  }

  function Smaller(x: real, y: real): real
  {
    if x <= y then x else y
  }

  /** `np.clip(x, lo, hi)`, which numpy defines as `minimum(maximum(x, lo), hi)`. */
  function Clip(x: real, lo: real, hi: real): (r: real)
    ensures lo <= hi ==> lo <= r <= hi
    ensures lo <= x <= hi ==> r == x
  {
    Smaller(Larger(x, lo), hi)
  }

  /** The indices of the true entries, ascending (`np.where(mask)[0]`). */
  function Where(mask: seq<bool>): (r: seq<nat>)
    ensures forall k :: 0 <= k < |r| ==> r[k] < |mask| && mask[r[k]]
    ensures forall k, l :: 0 <= k < l < |r| ==> r[k] < r[l]
    ensures forall i :: 0 <= i < |mask| && mask[i] ==> i in r
  {
    if mask == [] then []
    else
      var r := Where(mask[..|mask| - 1]);
      if mask[|mask| - 1] then r + [|mask| - 1] else r
  }

  /** The elements at the given indices, in the order of the indices (`x[idx]`). */
  function Select<T>(s: seq<T>, idx: seq<nat>): (r: seq<T>)
    requires forall k :: 0 <= k < |idx| ==> idx[k] < |s|
    ensures |r| == |idx| && forall k :: 0 <= k < |idx| ==> r[k] == s[idx[k]]
  {
    seq(|idx|, k requires 0 <= k < |idx| => s[idx[k]])
  }

  /** Appending an index appends the element it selects. */
  lemma SelectSnoc<T>(s: seq<T>, idx: seq<nat>, i: nat)
    requires (forall k :: 0 <= k < |idx| ==> idx[k] < |s|) && i < |s|
    ensures Select(s, idx + [i]) == Select(s, idx) + [s[i]]
  {
    var whole := Select(s, idx + [i]);
    forall k | 0 <= k < |whole|
      ensures whole[k] == (Select(s, idx) + [s[i]])[k]
    {
      if k < |idx| {
        assert (idx + [i])[k] == idx[k];
      }
    }
  }

  /** Indices that stay inside a prefix select the same elements from the prefix. */
  lemma SelectPrefix<T>(s: seq<T>, idx: seq<nat>, n: nat)
    requires n <= |s| && forall k :: 0 <= k < |idx| ==> idx[k] < n
    ensures Select(s, idx) == Select(s[..n], idx)
  {
  }

  ghost predicate IsSorted(s: seq<real>)
  {
    forall i, j :: 0 <= i < j < |s| ==> s[i] <= s[j]
  }

  function Insert(x: real, s: seq<real>): (r: seq<real>)
    requires IsSorted(s)
    ensures IsSorted(r)
    ensures multiset(r) == multiset(s) + multiset{x}
    ensures forall k :: 0 <= k < |r| ==> r[k] == x || r[k] in s
  {
    if s == [] then [x]
    else if x <= s[0] then [x] + s
    else
      var tail := Insert(x, s[1..]);
      assert forall k :: 0 <= k < |tail| ==> s[0] <= tail[k];
      assert s == [s[0]] + s[1..];
      [s[0]] + tail
  }

  /** Python's `sorted` on a list of reals: ascending, and a permutation of the input. */
  function Sort(s: seq<real>): (r: seq<real>)
    ensures IsSorted(r)
    ensures multiset(r) == multiset(s)
  {
    if s == [] then []
    else
      assert s == [s[0]] + s[1..];
      Insert(s[0], Sort(s[1..]))
  }
}
