/**
 The signed 16-bit sample type of the converter (numpy's `int16`): its range,
 two's-complement wrap-around of arithmetic done in that type, numpy's `abs`
 on it, and the truncation toward zero that happens when a floating-point
 value is stored into an `int16` array.
 */
module Int16 {

  const MinInt16: int := -32768
  const MaxInt16: int := 32767
  /** Number of distinct int16 values; arithmetic in the type is modulo this. */
  const Modulus: int := 65536

  predicate InRange(v: int) {
    MinInt16 <= v <= MaxInt16
  }

  /** Mathematical absolute value on unbounded integers. */
  function AbsInt(x: int): (r: nat)
    ensures r == x || r == -x
  {
    if x < 0 then -x else x
  }

  /** Reduces an exact integer into int16 the way a two's-complement machine does:
      the unique in-range value congruent to `x` modulo 2^16. */
  function Wrap(x: int): (r: int)
    ensures InRange(r)
    ensures (x - r) % Modulus == 0
  {
    (x - MinInt16) % Modulus + MinInt16
  }

  /** An in-range value is left alone by the wrap. */
  lemma WrapInRange(x: int)
    requires InRange(x)
    ensures Wrap(x) == x
  {
    assert 0 <= x - MinInt16 < Modulus;
  }

  /** A value one modulus away from an in-range value wraps back onto it. */
  lemma WrapShift(x: int, k: int)
    requires InRange(x)
    requires k == 1 || k == -1
    ensures Wrap(x + k * Modulus) == x
  {
    var y := x + k * Modulus;
    assert (y - MinInt16) == (x - MinInt16) + k * Modulus;
    assert 0 <= x - MinInt16 < Modulus;
    if k == 1 {
      assert (y - MinInt16) % Modulus == x - MinInt16;
    } else {
      assert (y - MinInt16) % Modulus == x - MinInt16;
    }
  }

  /** numpy's `abs` on an int16 value: the negation is done in int16 too,
      so the most negative value stays negative. */
  function Abs16(x: int): (r: int)
    requires InRange(x)
    ensures InRange(r)
    ensures x != MinInt16 ==> r == AbsInt(x)
    ensures x == MinInt16 ==> r == MinInt16
  {
    if x < 0 then Wrap(-x) else x
  }

  /** `r` is `q` rounded toward zero: same sign, and within one of `q` on the zero side. */
  predicate TruncatesTo(q: real, r: int) {
    if q >= 0.0 then 0 <= r && r as real <= q < r as real + 1.0
    else r <= 0 && r as real - 1.0 < q <= r as real
  }

  /** Conversion of a floating-point value to an integer type, as a C cast and
      numpy's unsafe casting do it: rounding toward zero. */
  function TruncToZero(q: real): (r: int)
    ensures TruncatesTo(q, r)
  {
    if q >= 0.0 then q.Floor else -((-q).Floor)
  }

  /** Rounding toward zero has exactly one answer. */
  lemma TruncatesToUnique(q: real, r: int, r': int)
    requires TruncatesTo(q, r) && TruncatesTo(q, r')
    ensures r == r'
  {
    if q >= 0.0 {
      assert r as real <= q < r' as real + 1.0;
      assert r' as real <= q < r as real + 1.0;
    } else {
      assert r as real - 1.0 < q <= r' as real;
      assert r' as real - 1.0 < q <= r as real;
    }
  }

  /** An integral value survives the cast unchanged. */
  lemma TruncOfInteger(n: int)
    ensures TruncToZero(n as real) == n
  {
    assert TruncatesTo(n as real, n);
    TruncatesToUnique(n as real, n, TruncToZero(n as real));
  }
}
