/**
 numpy boolean-mask indexing on a one-dimensional array: `xs[mask]` reads the
 elements where the mask is true, in order (`Select`); `xs[mask] = vals` writes
 `vals` into those positions, in order (`Scatter`); `xs[mask] = v` broadcasts one
 value (`Fill`).
 */
module BoolIndex {

  /** Number of true entries of the mask: the length of `xs[mask]`. */
  function Count(mask: seq<bool>): (n: nat)
    ensures n <= |mask|
  {
    if |mask| == 0 then 0 else (if mask[0] then 1 else 0) + Count(mask[1..])
  }

  /** Number of true entries strictly before position `k`: where the element at a
      selected position `k` lands in `xs[mask]`. */
  function Rank(mask: seq<bool>, k: nat): (n: nat)
    requires k <= |mask|
    ensures n <= Count(mask)
    ensures k < |mask| && mask[k] ==> n < Count(mask)
    ensures k == |mask| ==> n == Count(mask)
  {
    if k == 0 then 0 else (if mask[0] then 1 else 0) + Rank(mask[1..], k - 1)
  }

  /** `xs[mask]`. */
  function Select<T>(xs: seq<T>, mask: seq<bool>): (r: seq<T>)
    requires |xs| == |mask|
    ensures |r| == Count(mask)
  {
    if |xs| == 0 then []
    else (if mask[0] then [xs[0]] else []) + Select(xs[1..], mask[1..])
  }

  /** `xs[mask] = vals`: the i-th selected position receives `vals[i]`. */
  function Scatter<T>(xs: seq<T>, mask: seq<bool>, vals: seq<T>): (r: seq<T>)
    requires |xs| == |mask|
    requires |vals| == Count(mask)
    ensures |r| == |xs|
  {
    if |xs| == 0 then []
    else if mask[0] then [vals[0]] + Scatter(xs[1..], mask[1..], vals[1..])
    else [xs[0]] + Scatter(xs[1..], mask[1..], vals)
  }

  /** `xs[mask] = v`: the scalar is broadcast to as many values as the mask selects. */
  function Fill<T>(xs: seq<T>, mask: seq<bool>, v: T): (r: seq<T>)
    requires |xs| == |mask|
    ensures |r| == |xs|
    ensures forall k :: 0 <= k < |xs| ==> r[k] == (if mask[k] then v else xs[k])
  {
    var vals := seq(Count(mask), _ => v);
    assert forall k :: 0 <= k < |xs| ==> Scatter(xs, mask, vals)[k] == (if mask[k] then v else xs[k]) by {
      forall k | 0 <= k < |xs|
        ensures Scatter(xs, mask, vals)[k] == (if mask[k] then v else xs[k])
      {
        ScatterAt(xs, mask, vals, k);
      }
    }
    Scatter(xs, mask, vals)
  }

  /** The element at a selected position `k` is the `Rank(mask, k)`-th element of `xs[mask]`. */
  lemma {:induction false} SelectAt<T>(xs: seq<T>, mask: seq<bool>, k: nat)
    requires |xs| == |mask|
    requires k < |xs| && mask[k]
    ensures Select(xs, mask)[Rank(mask, k)] == xs[k]
  {
    if k > 0 {
      SelectAt(xs[1..], mask[1..], k - 1);
    }
  }

  /** After `xs[mask] = vals`, a selected position `k` holds `vals[Rank(mask, k)]`
      and every other position keeps its old element. */
  lemma {:induction false} ScatterAt<T>(xs: seq<T>, mask: seq<bool>, vals: seq<T>, k: nat)
    requires |xs| == |mask|
    requires |vals| == Count(mask)
    requires k < |xs|
    ensures mask[k] ==> Scatter(xs, mask, vals)[k] == vals[Rank(mask, k)]
    ensures !mask[k] ==> Scatter(xs, mask, vals)[k] == xs[k]
  {
    if k > 0 {
      if mask[0] {
        ScatterAt(xs[1..], mask[1..], vals[1..], k - 1);
      } else {
        ScatterAt(xs[1..], mask[1..], vals, k - 1);
      }
    }
  }

  /** Reading back the masked positions after writing them returns what was written. */
  lemma {:induction false} SelectAfterScatter<T>(xs: seq<T>, mask: seq<bool>, vals: seq<T>)
    requires |xs| == |mask|
    requires |vals| == Count(mask)
    ensures Select(Scatter(xs, mask, vals), mask) == vals
  {
    if |xs| > 0 {
      var s := Scatter(xs, mask, vals);
      if mask[0] {
        SelectAfterScatter(xs[1..], mask[1..], vals[1..]);
        assert s[1..] == Scatter(xs[1..], mask[1..], vals[1..]);
        assert vals == [vals[0]] + vals[1..];
      } else {
        SelectAfterScatter(xs[1..], mask[1..], vals);
        assert s[1..] == Scatter(xs[1..], mask[1..], vals);
      }
    }
  }

  /** Writing the masked positions with their own current values changes nothing. */
  lemma {:induction false} ScatterOwnSelection<T>(xs: seq<T>, mask: seq<bool>)
    requires |xs| == |mask|
    ensures Scatter(xs, mask, Select(xs, mask)) == xs
  {
    if |xs| > 0 {
      ScatterOwnSelection(xs[1..], mask[1..]);
      var sel := Select(xs, mask);
      if mask[0] {
        assert sel[1..] == Select(xs[1..], mask[1..]);
      } else {
        assert sel == Select(xs[1..], mask[1..]);
      }
      assert xs == [xs[0]] + xs[1..];
    }
  }
}
