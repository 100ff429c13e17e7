/**
 Amounts are integers in paise and rates are integers in ten-thousandths, so every decimal
 the engine keeps is exact here. A product "amount * rate" is therefore in ten-thousandths of
 a paisa until it is quantized.
 */
module Money {

  datatype Option<+T> = None | Some(value: T)

  function Min(a: int, b: int): int { if a <= b then a else b }

  function Max(a: int, b: int): int { if a >= b then a else b }

  function Abs(a: int): nat { if a >= 0 then a else -a }

  const RATE_ONE := 10000
  const RUPEE := 100
  const TEN_RUPEES := 1000

  /** `num / den` rounded to the nearest integer, a tie going away from zero. */
  function RoundHalfUp(num: int, den: int): (r: int)
    requires den > 0
  {
    if num >= 0 then (2 * num + den) / (2 * den) else -((-2 * num + den) / (2 * den))
  }

  /** A quotient rounded by its remainder: up past the half, and to even at the half. */
  function RoundEven(quotient: int, remainder: nat, den: nat): int {
    if 2 * remainder > den || (2 * remainder == den && quotient % 2 == 1) then quotient + 1 else quotient
  }

  /** `num / den` rounded to the nearest integer, a tie going to the even one. */
  function HalfEven(num: int, den: nat): int
    requires den > 0
  {
    var rounded := RoundEven(Abs(num) / den, Abs(num) % den, den);
    if num >= 0 then rounded else -rounded
  }

  /** A product of an amount and a rate, brought back to whole paise. */
  function Quantize(scaled: int): (r: int)
    ensures -RATE_ONE <= 2 * (RATE_ONE * r - scaled) <= RATE_ONE
    ensures 2 * (scaled - RATE_ONE * r) == RATE_ONE ==> scaled < 0
    ensures 2 * (RATE_ONE * r - scaled) == RATE_ONE ==> scaled > 0
  {
    RoundHalfUp(scaled, RATE_ONE)
  }

  /** The charge at `rate` on `amount`, in whole paise. */
  function AtRate(amount: int, rate: int): (r: int)
  {
    Quantize(amount * rate)
  }

  function PerMonth(annual: int): (r: int)
    ensures -12 <= 2 * (12 * r - annual) <= 12
  {
    RoundHalfUp(annual, 12)
  }

  /** The nearest multiple of ten rupees, a tie going away from zero. */
  function RoundToTenRupees(amount: int): (r: int)
    ensures r % TEN_RUPEES == 0
    ensures -TEN_RUPEES <= 2 * (r - amount) <= TEN_RUPEES
    ensures 2 * (amount - r) == TEN_RUPEES ==> amount < 0
    ensures 2 * (r - amount) == TEN_RUPEES ==> amount > 0
  {
    RoundHalfUp(amount, TEN_RUPEES) * TEN_RUPEES
  }

  lemma RoundToTenRupeesMonotone(a: int, b: int)
    requires 0 <= a <= b
    ensures RoundToTenRupees(a) <= RoundToTenRupees(b)
    ensures RoundToTenRupees(b) - RoundToTenRupees(a) <= b - a + TEN_RUPEES - 1
  {
  }

  /** Charging a larger amount never charges less, and rounding adds less than one paisa. */
  lemma AtRateMonotone(a: int, b: int, rate: nat)
    requires 0 <= a <= b
    ensures 0 <= AtRate(a, rate) <= AtRate(b, rate)
    ensures RATE_ONE * (AtRate(b, rate) - AtRate(a, rate)) <= (b - a) * rate + RATE_ONE - 1
  {
    assert 0 <= a * rate <= b * rate && b * rate - a * rate == (b - a) * rate by {
      MulMonotone(a, b, rate);
    }
  }

  lemma AtRateOfZero(rate: nat)
    ensures AtRate(0, rate) == 0
  {
  }

  lemma MulMonotone(a: int, b: int, rate: nat)
    requires 0 <= a <= b
    ensures 0 <= a * rate <= b * rate
    ensures b * rate - a * rate == (b - a) * rate
  {
  }

  /** Charging a larger rate never charges less. */
  lemma AtRateMonotoneInRate(a: nat, p: nat, q: nat)
    requires p <= q
    ensures AtRate(a, p) <= AtRate(a, q)
  {
    MulMonotone(p, q, a);
  }

  /** On whole rupees a whole-percent rate needs no rounding. */
  lemma AtRateExact(a: int, rate: int)
    requires a % RUPEE == 0 && rate % 100 == 0
    ensures RATE_ONE * AtRate(a, rate) == a * rate
  {
    var m, k := a / RUPEE, rate / 100;
    assert a * rate == (RUPEE * m) * (100 * k) == RATE_ONE * (m * k);
    QuantizeExact(m * k);
  }

  /** Whole paise pass through the rounding. */
  lemma QuantizeWholePaise(a: nat, n: nat)
    ensures Quantize(a + n * RATE_ONE) == Quantize(a) + n
  {
  }

  lemma QuantizeExact(n: int)
    ensures Quantize(RATE_ONE * n) == n
  {
  }
}
