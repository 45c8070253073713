/**
 Classification of one raw sample as "missing" or "valid" against the dataset's
 MISSING_VALUE sentinel and the conversion's tolerance.

 Two versions are given. `IsMissing`/`IsValid` measure the distance exactly.
 `IsMissingAsWritten`/`IsValidAsWritten` follow the converter's code literally:
 the difference `data - missing_value` is taken in int16 and may wrap, and
 numpy's `abs` of -32768 stays -32768. `Missing`/`Valid` select one of the two
 by an `Arithmetic` value, so that the decoding pipeline can be run either way.
 */
module Classify {
  import opened Int16

  /** A sample within `tolerance` of the sentinel means "no measurement". */
  predicate IsMissing(v: int, missing: int, tolerance: real) {
    AbsInt(v - missing) as real <= tolerance
  }

  /** A sample farther than `tolerance` from the sentinel is a measurement. */
  predicate IsValid(v: int, missing: int, tolerance: real) {
    AbsInt(v - missing) as real > tolerance
  }

  /** With integer samples, a tolerance below one means "missing" is exact equality
      with the sentinel; this is the case of the default tolerance 0.1. */
  lemma MissingIffSentinel(v: int, missing: int, tolerance: real)
    requires 0.0 <= tolerance < 1.0
    ensures IsMissing(v, missing, tolerance) <==> v == missing
  {
    if v != missing {
      assert AbsInt(v - missing) >= 1;
    }
  }

  /** The distance the converter's code actually compares with the tolerance:
      the int16 difference, wrapped, passed through int16 `abs`. */
  function DistanceAsWritten(v: int, missing: int): (d: int)
    requires InRange(v) && InRange(missing)
    ensures InRange(d)
    ensures AbsInt(v - missing) <= MaxInt16 ==> d == AbsInt(v - missing)
    ensures AbsInt(v - missing) == Modulus / 2 ==> d == MinInt16
    ensures AbsInt(v - missing) > Modulus / 2 ==> d == Modulus - AbsInt(v - missing)
  {
    WrappedDistance(v - missing);
    Abs16(Wrap(v - missing))
  }

  /** How the int16 wrap and int16 `abs` act on an exact difference of two int16 values. */
  lemma WrappedDistance(diff: int)
    requires -Modulus < diff < Modulus
    ensures AbsInt(diff) <= MaxInt16 ==> Abs16(Wrap(diff)) == AbsInt(diff)
    ensures AbsInt(diff) == Modulus / 2 ==> Abs16(Wrap(diff)) == MinInt16
    ensures AbsInt(diff) > Modulus / 2 ==> Abs16(Wrap(diff)) == Modulus - AbsInt(diff)
  {
    if AbsInt(diff) <= MaxInt16 {
      WrapInRange(diff);
    } else if diff == Modulus / 2 {
      WrapShift(MinInt16, 1);
    } else if diff > 0 {
      WrapShift(diff - Modulus, 1);
    } else if diff == -Modulus / 2 {
      WrapInRange(diff);
    } else {
      WrapShift(diff + Modulus, -1);
    }
  }

  predicate IsMissingAsWritten(v: int, missing: int, tolerance: real)
    requires InRange(v) && InRange(missing)
  {
    DistanceAsWritten(v, missing) as real <= tolerance
  }

  predicate IsValidAsWritten(v: int, missing: int, tolerance: real)
    requires InRange(v) && InRange(missing)
  {
    DistanceAsWritten(v, missing) as real > tolerance
  }

  /** The code's two masks also partition the samples, and they agree with the
      exact classification whenever the difference fits in int16. */
  lemma AsWrittenAgreesWithinRange(v: int, missing: int, tolerance: real)
    requires InRange(v) && InRange(missing)
    requires AbsInt(v - missing) <= MaxInt16
    ensures IsMissingAsWritten(v, missing, tolerance) <==> IsMissing(v, missing, tolerance)
    ensures IsValidAsWritten(v, missing, tolerance) <==> IsValid(v, missing, tolerance)
    ensures IsValidAsWritten(v, missing, tolerance) <==> !IsMissingAsWritten(v, missing, tolerance)
  {
  }

  /** What the code's classification amounts to at a tolerance below one: besides the
      sentinel itself, the samples exactly 32768 away from it are taken as missing. */
  lemma AsWrittenMissingBelowOne(v: int, missing: int, tolerance: real)
    requires InRange(v) && InRange(missing)
    requires 0.0 <= tolerance < 1.0
    ensures IsMissingAsWritten(v, missing, tolerance)
        <==> (v == missing || AbsInt(v - missing) == Modulus / 2)
  {
    var d := DistanceAsWritten(v, missing);
    if AbsInt(v - missing) > Modulus / 2 {
      assert d >= 1;
    } else if AbsInt(v - missing) <= MaxInt16 && v != missing {
      assert d >= 1;
    }
  }

  /** The wrap in the code's classification: with the sentinel -32768 (the int16
      minimum) and the default tolerance, a raw 0 is taken as missing. */
  lemma ZeroMissingAsWrittenForMinSentinel()
    ensures IsMissingAsWritten(0, MinInt16, 0.1)
    ensures !IsMissing(0, MinInt16, 0.1)
  {
    AsWrittenMissingBelowOne(0, MinInt16, 0.1);
  }

  /** How the distance to the sentinel is measured: exactly, or in int16 as the code does. */
  datatype Arithmetic = Exact | Int16Wrapped

  /** Line 51's test under the chosen arithmetic. The int16 test only applies to
      int16 values; on anything else it holds for neither mask. */
  predicate Missing(a: Arithmetic, v: int, missing: int, tolerance: real) {
    match a
    case Exact => IsMissing(v, missing, tolerance)
    case Int16Wrapped => InRange(v) && InRange(missing) && IsMissingAsWritten(v, missing, tolerance)
  }

  /** Line 50's test under the chosen arithmetic. */
  predicate Valid(a: Arithmetic, v: int, missing: int, tolerance: real) {
    match a
    case Exact => IsValid(v, missing, tolerance)
    case Int16Wrapped => InRange(v) && InRange(missing) && IsValidAsWritten(v, missing, tolerance)
  }

  /** Under either arithmetic the masks of lines 50 and 51 are complementary. */
  lemma MasksComplementary(a: Arithmetic, v: int, missing: int, tolerance: real)
    requires a == Int16Wrapped ==> InRange(v) && InRange(missing)
    ensures Valid(a, v, missing, tolerance) <==> !Missing(a, v, missing, tolerance)
  {
  }
}
