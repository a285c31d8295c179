/** Half-even rounding of an exact quotient, and the native-to-INR conversion built on it. */
module FxMath {

  // The rate 1 in the stored scale: rates carry six decimal places.
  const RATE_ONE: int := 1_000_000

  function Abs(x: int): nat {
    if x < 0 then -x else x
  }

  /** q is num / den rounded to the nearest integer, ties going to the even neighbour. */
  predicate IsHalfEven(num: int, den: int, q: int)
    requires den > 0
  {
    && Abs(2 * (num - q * den)) <= den
    && (Abs(2 * (num - q * den)) == den ==> q % 2 == 0)
  }

  function RoundHalfEven(num: int, den: int): (q: int)
    requires den > 0
    ensures IsHalfEven(num, den, q)
  {
    var q, r := num / den, num % den;
    assert num == q * den + r;
    assert (q + 1) * den == q * den + den;
    if 2 * r < den || (2 * r == den && q % 2 == 0) then q else q + 1
  }

  lemma MulMonotone(a: int, b: int, k: nat, c: nat)
    ensures a + k <= b ==> a * c + k * c <= b * c
  {
    if a + k <= b {
      assert (b - a - k) * c >= 0;
      assert (b - a - k) * c == b * c - a * c - k * c;
    }
  }

  /** The relation is a function: rounding has one answer, whatever computes it. */
  lemma HalfEvenUnique(num: int, den: int, a: int, b: int)
    requires den > 0 && IsHalfEven(num, den, a) && IsHalfEven(num, den, b)
    ensures a == b
  {
    MulMonotone(a, b, 1, den);
    MulMonotone(b, a, 1, den);
    MulMonotone(a, b, 2, den);
    MulMonotone(b, a, 2, den);
  }

  /** A proper share of a non-negative amount rounds to something between nothing and all of it. */
  lemma ShareWithinAmount(amount: nat, part: nat, whole: nat)
    requires part <= whole && 0 < whole
    ensures 0 <= RoundHalfEven(amount * part, whole) <= amount
  {
    var q := RoundHalfEven(amount * part, whole);
    MulMonotone(part, whole, 0, amount);
    MulMonotone(0, part, 0, amount);
    MulMonotone(q, -1, 0, whole);
    MulMonotone(amount, q, 1, whole);
    assert whole * amount == amount * whole;
  }

  /** The short cut at rate 1 is the general formula's own answer there. */
  function ToInrPaise(nativePaise: int, fxRate: int): (r: int)
    ensures IsHalfEven(nativePaise * fxRate, RATE_ONE, r)
  {
    if fxRate == RATE_ONE then nativePaise else RoundHalfEven(nativePaise * fxRate, RATE_ONE)
  }

  /** At rate 1 conversion is the identity, and it is the identity on every amount at no other rate. */
  lemma IdentityExactlyAtRateOne(fxRate: int)
    ensures (forall p: int :: ToInrPaise(p, fxRate) == p) <==> fxRate == 1_000_000
  {
    if fxRate != RATE_ONE {
      assert ToInrPaise(RATE_ONE, fxRate) == fxRate by {
        assert IsHalfEven(RATE_ONE * fxRate, RATE_ONE, fxRate);
        HalfEvenUnique(RATE_ONE * fxRate, RATE_ONE, fxRate, ToInrPaise(RATE_ONE, fxRate));
      }
    }
  }
}
