/**
 Decoding of the raw int16 grid (gio-gl-converter.py, lines 47-53): samples
 within the tolerance of MISSING_VALUE become MISSING_VALUE, every other sample
 is divided by SCALING_FACTOR and stored back into int16, which truncates toward
 zero.

 `DecodeSample` is the per-sample meaning with the exact distance to the
 sentinel, and `DecodeSampleAsWritten` the one with the code's int16 distance.
 `DecodeFlat` follows the code step by step on the row-major sample sequence:
 both masks are computed from the raw data, the valid samples are gathered,
 divided and scattered back, and then the sentinel is broadcast into the missing
 positions. `DecodeGrid` lifts this to the two-dimensional array. Both take the
 `Arithmetic` of the classification: `Int16Wrapped` is the code as written,
 `Exact` the corrected classification.
 */
module Decode {
  import opened Int16
  import opened Classify
  import opened BoolIndex
  import opened Grid

  /** The dataset's MISSING_VALUE and SCALING_FACTOR attributes and the conversion's tolerance. */
  datatype Scaling = Scaling(missingValue: int, scalingFactor: real, tolerance: real)

  /** The sentinel is itself an int16 value (it is stored into the int16 array)
      and the divisor is not zero. */
  predicate WellFormed(p: Scaling) {
    InRange(p.missingValue) && p.scalingFactor != 0.0
  }

  /** The sample, once divided, truncates to an int16 value. */
  predicate QuotientFits(v: int, s: real)
    requires s != 0.0
  {
    InRange(TruncToZero(v as real / s))
  }

  /** A raw sample the decoder can handle: an int16 value, and when it is valid
      under the chosen arithmetic, its quotient fits the int16 array it is stored
      back into. */
  predicate Decodable(v: int, p: Scaling, a: Arithmetic)
    requires WellFormed(p)
  {
    InRange(v) && (Missing(a, v, p.missingValue, p.tolerance) || QuotientFits(v, p.scalingFactor))
  }

  /** The decoded value of one raw sample. */
  function DecodeSample(v: int, p: Scaling): (r: int)
    requires WellFormed(p) && Decodable(v, p, Exact)
    ensures InRange(r)
    ensures IsMissing(v, p.missingValue, p.tolerance) ==> r == p.missingValue
    ensures IsValid(v, p.missingValue, p.tolerance) ==> TruncatesTo(v as real / p.scalingFactor, r)
  {
    if IsMissing(v, p.missingValue, p.tolerance) then p.missingValue
    else TruncToZero(v as real / p.scalingFactor)
  }

  /** A decoded sample equals the no-data value exactly when the raw sample was
      missing or its quotient happens to truncate to the sentinel; such a valid
      sample is kept and not overwritten. */
  lemma DecodedIsSentinel(v: int, p: Scaling)
    requires WellFormed(p) && Decodable(v, p, Exact)
    ensures DecodeSample(v, p) == p.missingValue
        <==> (IsMissing(v, p.missingValue, p.tolerance) || TruncToZero(v as real / p.scalingFactor) == p.missingValue)
  {
  }

  /** The sample decoder as the code computes it, with the int16-wrapped classification. */
  function DecodeSampleAsWritten(v: int, p: Scaling): (r: int)
    requires WellFormed(p) && Decodable(v, p, Int16Wrapped)
    ensures InRange(r)
    ensures IsMissingAsWritten(v, p.missingValue, p.tolerance) ==> r == p.missingValue
    ensures IsValidAsWritten(v, p.missingValue, p.tolerance) ==> TruncatesTo(v as real / p.scalingFactor, r)
  {
    if IsMissingAsWritten(v, p.missingValue, p.tolerance) then p.missingValue
    else TruncToZero(v as real / p.scalingFactor)
  }

  /** When a sample lies within 32767 of the sentinel the code's decoder and the
      exact one produce the same value. */
  lemma AsWrittenDecodeAgrees(v: int, p: Scaling)
    requires WellFormed(p) && Decodable(v, p, Exact)
    requires AbsInt(v - p.missingValue) <= MaxInt16
    ensures Decodable(v, p, Int16Wrapped)
    ensures DecodeSampleAsWritten(v, p) == DecodeSample(v, p)
  {
    AsWrittenAgreesWithinRange(v, p.missingValue, p.tolerance);
  }

  /** With the sentinel -32768 the code turns a raw 0 into no-data, where the exact
      decoder keeps it as 0. */
  lemma ZeroBecomesNoDataAsWritten()
    ensures DecodeSampleAsWritten(0, Scaling(MinInt16, 100.0, 0.1)) == MinInt16
    ensures DecodeSample(0, Scaling(MinInt16, 100.0, 0.1)) == 0
  {
    ZeroMissingAsWrittenForMinSentinel();
    TruncOfInteger(0);
    assert 0 as real / 100.0 == 0 as real;
  }

  /** With a scaling factor of at least one, every int16 sample's quotient fits int16,
      so every int16 sample is decodable. */
  lemma QuotientFitsForLargeFactor(v: int, s: real)
    requires InRange(v)
    requires s >= 1.0
    ensures QuotientFits(v, s)
  {
    var q := v as real / s;
    assert q * s == v as real;
    if v >= 0 {
      assert 0.0 <= q;
      NonNegProduct(q, s - 1.0);
      assert q * s - q == q * (s - 1.0);
      assert q <= v as real;
    } else {
      assert q < 0.0;
      NonNegProduct(-q, s - 1.0);
      assert q * s - q == q * (s - 1.0);
      assert q >= v as real;
    }
  }

  lemma NonNegProduct(a: real, b: real)
    requires a >= 0.0 && b >= 0.0
    ensures a * b >= 0.0
  {
  }

  /** Line 50: the positions of valid samples, from the raw data. */
  function ValidMask(data: seq<int>, p: Scaling, a: Arithmetic): (mask: seq<bool>)
    ensures |mask| == |data|
  {
    seq(|data|, k requires 0 <= k < |data| => Valid(a, data[k], p.missingValue, p.tolerance))
  }

  /** Line 51: the positions of missing samples, from the raw data. */
  function MissingMask(data: seq<int>, p: Scaling, a: Arithmetic): (mask: seq<bool>)
    ensures |mask| == |data|
  {
    seq(|data|, k requires 0 <= k < |data| => Missing(a, data[k], p.missingValue, p.tolerance))
  }

  /** Division of gathered samples, stored into int16 (the right-hand side of line 52). */
  function Quotients(xs: seq<int>, s: real): (r: seq<int>)
    requires s != 0.0
    ensures |r| == |xs|
  {
    seq(|xs|, k requires 0 <= k < |xs| => TruncToZero(xs[k] as real / s))
  }

  /** Line 52: the valid samples are gathered, divided and written back in place. */
  function Divided(data: seq<int>, p: Scaling, a: Arithmetic): (r: seq<int>)
    requires p.scalingFactor != 0.0
    ensures |r| == |data|
  {
    var valid := ValidMask(data, p, a);
    Scatter(data, valid, Quotients(Select(data, valid), p.scalingFactor))
  }

  /** After line 52 a valid position holds its own quotient and every missing position
      still holds its raw sample. */
  lemma DividedAt(data: seq<int>, p: Scaling, a: Arithmetic, k: nat)
    requires p.scalingFactor != 0.0
    requires k < |data|
    ensures Valid(a, data[k], p.missingValue, p.tolerance)
        ==> Divided(data, p, a)[k] == TruncToZero(data[k] as real / p.scalingFactor)
    ensures !Valid(a, data[k], p.missingValue, p.tolerance) ==> Divided(data, p, a)[k] == data[k]
  {
    var valid := ValidMask(data, p, a);
    var gathered := Select(data, valid);
    ScatterAt(data, valid, Quotients(gathered, p.scalingFactor), k);
    if valid[k] {
      SelectAt(data, valid, k);
    }
  }

  /** Lines 50-53 on the row-major sample sequence: a missing sample becomes the
      sentinel, a valid one its quotient truncated toward zero, each position
      depending on the raw sample at that position only. Under exact arithmetic this
      is `DecodeSample`, under the code's arithmetic `DecodeSampleAsWritten`. */
  function DecodeFlat(data: seq<int>, p: Scaling, a: Arithmetic): (r: seq<int>)
    requires WellFormed(p)
    requires forall k :: 0 <= k < |data| ==> Decodable(data[k], p, a)
    ensures |r| == |data|
    ensures forall k :: 0 <= k < |data| ==> InRange(r[k])
    ensures forall k :: 0 <= k < |data| && Missing(a, data[k], p.missingValue, p.tolerance)
              ==> r[k] == p.missingValue
    ensures forall k :: 0 <= k < |data| && Valid(a, data[k], p.missingValue, p.tolerance)
              ==> TruncatesTo(data[k] as real / p.scalingFactor, r[k])
    ensures a == Exact ==> forall k :: 0 <= k < |data| ==> r[k] == DecodeSample(data[k], p)
    ensures a == Int16Wrapped ==> forall k :: 0 <= k < |data| ==> r[k] == DecodeSampleAsWritten(data[k], p)
  {
    var r := Fill(Divided(data, p, a), MissingMask(data, p, a), p.missingValue);
    assert forall k :: 0 <= k < |data| ==> r[k] == DecodeSampleBy(data[k], p, a) by {
      forall k | 0 <= k < |data|
        ensures r[k] == DecodeSampleBy(data[k], p, a)
      {
        assert Decodable(data[k], p, a);
        DividedAt(data, p, a, k);
        MasksComplementary(a, data[k], p.missingValue, p.tolerance);
      }
    }
    r
  }

  /** `DecodeSample` or `DecodeSampleAsWritten`, by arithmetic. */
  function DecodeSampleBy(v: int, p: Scaling, a: Arithmetic): int
    requires WellFormed(p) && Decodable(v, p, a)
  {
    match a
    case Exact => DecodeSample(v, p)
    case Int16Wrapped => DecodeSampleAsWritten(v, p)
  }

  /** The decoded two-dimensional array: same shape as the raw one; a missing sample
      becomes the sentinel, a valid one its quotient truncated toward zero, and each
      cell depends on the raw cell at the same position only. */
  function DecodeGrid(g: seq<seq<int>>, p: Scaling, a: Arithmetic): (r: seq<seq<int>>)
    requires WellFormed(p)
    requires forall i, j :: 0 <= i < |g| && 0 <= j < |g[i]| ==> Decodable(g[i][j], p, a)
    ensures SameShape(r, g)
    ensures forall i, j :: 0 <= i < |g| && 0 <= j < |g[i]| ==> InRange(r[i][j])
    ensures forall i, j :: 0 <= i < |g| && 0 <= j < |g[i]| && Missing(a, g[i][j], p.missingValue, p.tolerance)
              ==> r[i][j] == p.missingValue
    ensures forall i, j :: 0 <= i < |g| && 0 <= j < |g[i]| && Valid(a, g[i][j], p.missingValue, p.tolerance)
              ==> TruncatesTo(g[i][j] as real / p.scalingFactor, r[i][j])
    ensures a == Exact ==> forall i, j :: 0 <= i < |g| && 0 <= j < |g[i]| ==> r[i][j] == DecodeSample(g[i][j], p)
    ensures a == Int16Wrapped ==>
              forall i, j :: 0 <= i < |g| && 0 <= j < |g[i]| ==> r[i][j] == DecodeSampleAsWritten(g[i][j], p)
  {
    FlattenDecodable(g, p, a);
    var flat := Flatten(g);
    var r := Reshape(DecodeFlat(flat, p, a), g);
    assert forall i, j :: 0 <= i < |g| && 0 <= j < |g[i]| ==> r[i][j] == DecodeSampleBy(g[i][j], p, a) by {
      forall i, j | 0 <= i < |g| && 0 <= j < |g[i]|
        ensures r[i][j] == DecodeSampleBy(g[i][j], p, a)
      {
        ReshapeAt(DecodeFlat(flat, p, a), g, i, j);
        FlattenAt(g, i, j);
      }
    }
    r
  }

  lemma FlattenDecodable(g: seq<seq<int>>, p: Scaling, a: Arithmetic)
    requires WellFormed(p)
    requires forall i, j :: 0 <= i < |g| && 0 <= j < |g[i]| ==> Decodable(g[i][j], p, a)
    ensures forall k :: 0 <= k < |Flatten(g)| ==> Decodable(Flatten(g)[k], p, a)
  {
    forall k | 0 <= k < |Flatten(g)|
      ensures Decodable(Flatten(g)[k], p, a)
    {
      var v := Flatten(g)[k];
      FlattenMember(g, v);
      var i :| 0 <= i < |g| && v in g[i];
      var j :| 0 <= j < |g[i]| && g[i][j] == v;
    }
  }

  /** When every sample lies within 32767 of the sentinel, the code's pipeline and the
      exact one produce the same array. */
  lemma DecodeGridAgreesWithinRange(g: seq<seq<int>>, p: Scaling)
    requires WellFormed(p)
    requires forall i, j :: 0 <= i < |g| && 0 <= j < |g[i]| ==> Decodable(g[i][j], p, Exact)
    requires forall i, j :: 0 <= i < |g| && 0 <= j < |g[i]| ==> AbsInt(g[i][j] - p.missingValue) <= MaxInt16
    ensures forall i, j :: 0 <= i < |g| && 0 <= j < |g[i]| ==> Decodable(g[i][j], p, Int16Wrapped)
    ensures DecodeGrid(g, p, Int16Wrapped) == DecodeGrid(g, p, Exact)
  {
    forall i, j | 0 <= i < |g| && 0 <= j < |g[i]|
      ensures Decodable(g[i][j], p, Int16Wrapped)
    {
      AsWrittenDecodeAgrees(g[i][j], p);
    }
    var w := DecodeGrid(g, p, Int16Wrapped);
    var e := DecodeGrid(g, p, Exact);
    forall i | 0 <= i < |g|
      ensures w[i] == e[i]
    {
      forall j | 0 <= j < |g[i]|
        ensures w[i][j] == e[i][j]
      {
        AsWrittenDecodeAgrees(g[i][j], p);
      }
    }
  }

  /** The wrap with the sentinel -9999: raw 22769 lies 32768 above it, so the code
      writes no-data where the exact pipeline writes 227. */
  lemma WrappedSampleBecomesNoData()
    ensures forall a: Arithmetic :: Decodable(22769, Scaling(-9999, 100.0, 0.1), a)
    ensures DecodeGrid([[22769]], Scaling(-9999, 100.0, 0.1), Int16Wrapped) == [[-9999]]
    ensures DecodeGrid([[22769]], Scaling(-9999, 100.0, 0.1), Exact) == [[227]]
  {
    var p := Scaling(-9999, 100.0, 0.1);
    AsWrittenMissingBelowOne(22769, -9999, 0.1);
    QuotientFitsForLargeFactor(22769, 100.0);
    var q := 22769 as real / 100.0;
    assert q == 227.69;
    var e := DecodeGrid([[22769]], p, Exact);
    assert TruncatesTo(q, e[0][0]);
    TruncatesToUnique(q, e[0][0], 227);
    assert e[0] == [227];
    var w := DecodeGrid([[22769]], p, Int16Wrapped);
    assert w[0] == [-9999];
  }
}
