/**
 * The pieces of the Arduino core that the fan controller's arithmetic rests on:
 * C's integer division on `long`, which truncates toward zero, and the core's
 * `map` function, which rescales a value linearly from one range to another.
 */
module Arduino {

  function Abs(x: int): nat { if x < 0 then -x else x }

  function Min(a: int, b: int): (m: int)
    ensures m <= a && m <= b && (m == a || m == b)
  {
    if a < b then a else b
  }

  /** C's `a / b` on integers: the quotient rounded toward zero (Dafny's own `/` is Euclidean). */
  function TruncDiv(a: int, b: int): int
    requires b != 0
  {
    if (a < 0) != (b < 0) then -(Abs(a) / Abs(b)) else Abs(a) / Abs(b)
  }

  /** The truncated quotient is the largest multiple of the divisor that fits in the numerator's magnitude, with the sign of an exact quotient. */
  lemma TruncDivBounds(a: int, b: int)
    requires b != 0
    ensures Abs(TruncDiv(a, b)) * Abs(b) <= Abs(a) < (Abs(TruncDiv(a, b)) + 1) * Abs(b)
    ensures TruncDiv(a, b) > 0 ==> (a < 0) == (b < 0)
    ensures TruncDiv(a, b) < 0 ==> (a < 0) != (b < 0)
  {
    var n, d := Abs(a), Abs(b);
    var q: int := n / d;
    DivBounds(n, d);
    DivNonNegative(n, d);
    if (a < 0) != (b < 0) {
      assert TruncDiv(a, b) == -q && Abs(-q) == q;
    } else {
      assert TruncDiv(a, b) == q && Abs(q) == q;
    }
  }

  lemma DivBounds(n: nat, d: nat)
    requires d > 0
    ensures (n / d) * d <= n < (n / d + 1) * d
  {
    assert n == (n / d) * d + n % d;
  }

  /** For a non-negative numerator and a positive divisor, truncation and Euclidean division agree. */
  lemma TruncDivNonNegative(a: int, b: int)
    requires a >= 0 && b > 0
    ensures TruncDiv(a, b) == a / b
  {
  }

  lemma {:induction false} DivMonotone(a1: int, a2: int, b: int)
    requires 0 <= a1 <= a2 && b > 0
    ensures a1 / b <= a2 / b
  {
    if a1 / b > a2 / b {
      assert (a2 / b + 1) * b <= (a1 / b) * b by { MulMonotone(a2 / b + 1, a1 / b, b); }
      assert false;
    }
  }

  lemma DivNonNegative(n: int, d: int)
    requires n >= 0 && d > 0
    ensures n / d >= 0
  {
  }

  lemma MulMonotone(x: int, y: int, k: int)
    requires x <= y && k >= 0
    ensures x * k <= y * k
  {
  }

  /** Truncating division by a positive divisor never decreases when the numerator grows. */
  lemma {:induction false} TruncDivMonotone(a1: int, a2: int, b: int)
    requires a1 <= a2 && b > 0
    ensures TruncDiv(a1, b) <= TruncDiv(a2, b)
  {
    if 0 <= a1 {
      assert TruncDiv(a1, b) == a1 / b && TruncDiv(a2, b) == a2 / b;
      DivMonotone(a1, a2, b);
    } else if a2 < 0 {
      assert TruncDiv(a1, b) == -((-a1) / b) && TruncDiv(a2, b) == -((-a2) / b);
      DivMonotone(-a2, -a1, b);
    } else {
      assert TruncDiv(a1, b) == -((-a1) / b) && TruncDiv(a2, b) == a2 / b;
      DivNonNegative(-a1, b);
      DivNonNegative(a2, b);
    }
  }

  /**
   * The Arduino core's `map(x, in_min, in_max, out_min, out_max)`:
   * `(x - in_min) * (out_max - out_min) / (in_max - in_min) + out_min`, on `long`,
   * with C's truncating division.
   */
  function Map(x: int, inMin: int, inMax: int, outMin: int, outMax: int): int
    requires inMax != inMin
  {
    TruncDiv((x - inMin) * (outMax - outMin), inMax - inMin) + outMin
  }

  /** On an increasing input range, `map` never decreases as its input grows. */
  lemma {:induction false} MapMonotone(x1: int, x2: int, inMin: int, inMax: int, outMin: int, outMax: int)
    requires inMin < inMax && outMin <= outMax && x1 <= x2
    ensures Map(x1, inMin, inMax, outMin, outMax) <= Map(x2, inMin, inMax, outMin, outMax)
  {
    MulMonotone(x1 - inMin, x2 - inMin, outMax - outMin);
    TruncDivMonotone((x1 - inMin) * (outMax - outMin), (x2 - inMin) * (outMax - outMin), inMax - inMin);
  }

  /** `map` sends the two ends of the input range to the two ends of the output range. */
  lemma {:induction false} MapEnds(inMin: int, inMax: int, outMin: int, outMax: int)
    requires inMin < inMax && outMin <= outMax
    ensures Map(inMin, inMin, inMax, outMin, outMax) == outMin
    ensures Map(inMax, inMin, inMax, outMin, outMax) == outMax
  {
    var d, k := inMax - inMin, outMax - outMin;
    assert (inMin - inMin) * k == 0;
    TruncDivNonNegative(0, d);
    TruncDivNonNegative(d * k, d);
    MulDivCancel(k, d);
  }

  lemma {:induction false} MulDivCancel(k: nat, d: int)
    requires d > 0
    ensures (d * k) / d == k
  {
    var q := (d * k) / d;
    DivBounds(d * k, d);
    if q < k {
      MulMonotone(q + 1, k, d);
      assert false;
    } else if q > k {
      MulMonotone(k + 1, q, d);
      assert false;
    }
  }

  /** An input inside the input range is sent inside the output range; one at or past its top, at or past the output's top. */
  lemma {:induction false} MapInRange(x: int, inMin: int, inMax: int, outMin: int, outMax: int)
    requires inMin < inMax && outMin <= outMax
    ensures inMin <= x ==> outMin <= Map(x, inMin, inMax, outMin, outMax)
    ensures inMax <= x ==> outMax <= Map(x, inMin, inMax, outMin, outMax)
    ensures x <= inMax ==> Map(x, inMin, inMax, outMin, outMax) <= outMax
  {
    MapEnds(inMin, inMax, outMin, outMax);
    if inMin <= x {
      MapMonotone(inMin, x, inMin, inMax, outMin, outMax);
    }
    if inMax <= x {
      MapMonotone(inMax, x, inMin, inMax, outMin, outMax);
    }
    if x <= inMax {
      MapMonotone(x, inMax, inMin, inMax, outMin, outMax);
    }
  }
}
