/**
 Two-dimensional sample grids as sequences of rows, and the row-major (C order)
 flattening numpy uses when a boolean mask of the same shape indexes a 2-D array.
 */
module Grid {

  /** `a` has as many rows as `b`, and each row as many cells as `b`'s row. */
  predicate SameShape<T, U>(a: seq<seq<T>>, b: seq<seq<U>>) {
    |a| == |b| && forall i :: 0 <= i < |a| ==> |a[i]| == |b[i]|
  }

  /** The rows laid end to end. */
  function Flatten<T>(g: seq<seq<T>>): (r: seq<T>)
  {
    if |g| == 0 then [] else g[0] + Flatten(g[1..])
  }

  /** Position in `Flatten(g)` where row `i` starts. */
  function Offset<T>(g: seq<seq<T>>, i: nat): (n: nat)
    requires i <= |g|
    ensures i < |g| ==> n + |g[i]| <= |Flatten(g)|
    ensures i == |g| ==> n == |Flatten(g)|
  {
    if i == 0 then 0 else |g[0]| + Offset(g[1..], i - 1)
  }

  /** Cuts a flat sequence back into rows of the lengths `shape` has. */
  function Reshape<T, U>(flat: seq<T>, shape: seq<seq<U>>): (r: seq<seq<T>>)
    requires |flat| == |Flatten(shape)|
    ensures SameShape(r, shape)
  {
    if |shape| == 0 then []
    else [flat[..|shape[0]|]] + Reshape(flat[|shape[0]|..], shape[1..])
  }

  /** Cell (i, j) sits at `Offset(g, i) + j` of the flattened grid. */
  lemma {:induction false} FlattenAt<T>(g: seq<seq<T>>, i: nat, j: nat)
    requires i < |g| && j < |g[i]|
    ensures Offset(g, i) + j < |Flatten(g)|
    ensures Flatten(g)[Offset(g, i) + j] == g[i][j]
  {
    if i > 0 {
      FlattenAt(g[1..], i - 1, j);
    }
  }

  /** Cell (i, j) of a reshaped sequence is element `Offset(shape, i) + j` of it. */
  lemma {:induction false} ReshapeAt<T, U>(flat: seq<T>, shape: seq<seq<U>>, i: nat, j: nat)
    requires |flat| == |Flatten(shape)|
    requires i < |shape| && j < |shape[i]|
    ensures Offset(shape, i) + j < |flat|
    ensures Reshape(flat, shape)[i][j] == flat[Offset(shape, i) + j]
  {
    var n := |shape[0]|;
    assert |Flatten(shape)| == n + |Flatten(shape[1..])|;
    if i > 0 {
      var rest := flat[n..];
      ReshapeAt(rest, shape[1..], i - 1, j);
      assert Reshape(flat, shape)[i] == Reshape(rest, shape[1..])[i - 1];
      assert Offset(shape, i) == n + Offset(shape[1..], i - 1);
      assert rest[Offset(shape[1..], i - 1) + j] == flat[Offset(shape, i) + j];
    } else {
      assert Reshape(flat, shape)[0] == flat[..n];
    }
  }

  /** Reshaping a grid's own flattening gives the grid back. */
  lemma ReshapeFlatten<T>(g: seq<seq<T>>)
    ensures Reshape(Flatten(g), g) == g
  {
    var r := Reshape(Flatten(g), g);
    forall i | 0 <= i < |g|
      ensures r[i] == g[i]
    {
      forall j | 0 <= j < |g[i]|
        ensures r[i][j] == g[i][j]
      {
        ReshapeAt(Flatten(g), g, i, j);
        FlattenAt(g, i, j);
      }
    }
  }

  /** Every element of the flattening comes from some row. */
  lemma {:induction false} FlattenMember<T>(g: seq<seq<T>>, x: T)
    requires x in Flatten(g)
    ensures exists i :: 0 <= i < |g| && x in g[i]
  {
    if x !in g[0] {
      FlattenMember(g[1..], x);
      var i :| 0 <= i < |g[1..]| && x in g[1..][i];
      assert x in g[i + 1];
    }
  }
}
