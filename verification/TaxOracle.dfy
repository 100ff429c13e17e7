/**
 The independent oracle: the same tax from hard-coded brackets, with no rounding until the
 surcharge. Its amounts are in ten-thousandths of a paisa (`scaled`), exact at every paisa of
 income. It agrees with the rule-driven engine wherever the bracket tax is whole paise.
 */
module TaxOracle {
  import opened Money
  import opened TaxRules
  import opened TaxEngine
  import opened TaxLaws
  import opened TaxSeeds

  /** `scaled * rate`, quantized to whole paise. */
  function QuantizedAtRate(scaled: int, rate: int): (r: int)
    ensures scaled * rate >= 0 ==> r >= 0
  {
    RoundHalfUp(scaled * rate, RATE_ONE * RATE_ONE)
  }

  datatype OracleResult = OracleResult(
    taxable: int,
    standardDeduction: int,
    slabTax: int,
    rebate: int,
    taxAfterRebate: int,
    surcharge: int,
    cess: int,
    total: int)

  // ----- What the oracle computes

  /** The band the oracle's if-chain selects above fifty lakh. */
  function OracleBand(taxable: int): SurchargeBand {
    if taxable > 2 * CRORE then SurchargeBand(2 * CRORE, None, 2500, true)
    else if taxable > CRORE then SurchargeBand(CRORE, Some(2 * CRORE), 1500, true)
    else SurchargeBand(50 * LAKH, Some(CRORE), 1000, true)
  }

  function OracleFullSurcharge(taxable: int, tax: int): (r: int)
    ensures r >= 0
  {
    if tax <= 0 || taxable <= 50 * LAKH then 0
    else
      MulMonotone(0, tax, OracleBand(taxable).rate);
      RATE_ONE * QuantizedAtRate(tax, OracleBand(taxable).rate)
  }

  function OracleCap(taxable: int, tax: int): int {
    var band := OracleBand(taxable);
    var excess := taxable - band.from;
    var onThreshold := Max(0, tax - RATE_ONE * AtRate(excess, TOP_SLAB_RATE));
    onThreshold + RATE_ONE * QuantizedAtRate(onThreshold, PreviousRate(band.from)) + RATE_ONE * excess
  }

  function OracleRelief(taxable: int, tax: int): int {
    if tax <= 0 || taxable <= 50 * LAKH then 0
    else Max(0, tax + OracleFullSurcharge(taxable, tax) - OracleCap(taxable, tax))
  }

  function OracleSurcharge(taxable: int, tax: int): (r: int)
    ensures r >= 0
  {
    Max(0, OracleFullSurcharge(taxable, tax) - OracleRelief(taxable, tax))
  }

  /** Rounding by remainder, as the oracle does it: `scaled` to a multiple of ten rupees, in paise. */
  function RoundByRemainder(scaled: nat): int {
    var unit := TEN_RUPEES * RATE_ONE;
    var remainder := scaled % unit;
    (if 2 * remainder >= unit then scaled + (unit - remainder) else scaled - remainder) / RATE_ONE
  }

  function OracleRebate(taxable: int, slabTax: int, threshold: int, cap: Option<int>): int {
    if taxable > threshold then 0 else if cap.None? then slabTax else Min(slabTax, RATE_ONE * cap.value)
  }

  function OracleTaxAfterRebate(taxable: int, slabTax: int, threshold: int, cap: Option<int>): int {
    var relief := if taxable > threshold then Max(0, slabTax - RATE_ONE * (taxable - threshold)) else 0;
    Max(0, slabTax - OracleRebate(taxable, slabTax, threshold, cap) - relief)
  }

  /** The oracle's result from its bracket tax; without `cap` the rebate is the whole tax. */
  function OracleFrom(deduction: int, taxable: int, slabTax: int, threshold: int, cap: Option<int>): OracleResult {
    var tax := OracleTaxAfterRebate(taxable, slabTax, threshold, cap);
    var surcharge := OracleSurcharge(taxable, tax);
    var cess := QuantizedAtRate(tax + surcharge, 400);
    OracleResult(taxable, deduction, slabTax, OracleRebate(taxable, slabTax, threshold, cap),
                 tax, surcharge, cess, RoundByRemainder(tax + surcharge + RATE_ONE * cess))
  }

  function OracleNew2025(gross: int): OracleResult {
    var deduction := Min(gross, 75_000 * RUPEE);
    var taxable := Max(0, gross - deduction);
    OracleFrom(deduction, taxable, ExactNew2025(taxable), 12 * LAKH, None)
  }

  function OracleNew2024(gross: int): OracleResult {
    var deduction := Min(gross, 75_000 * RUPEE);
    var taxable := Max(0, gross - deduction);
    OracleFrom(deduction, taxable, ExactNew2024(taxable), 7 * LAKH, None)
  }

  function OracleOld(gross: int, section80c: int, section80d: int): OracleResult {
    var deduction := Min(gross, 50_000 * RUPEE);
    var claims := Min(section80c, 150_000 * RUPEE) + Min(section80d, 25_000 * RUPEE);
    var taxable := Max(0, gross - (deduction + claims));
    OracleFrom(deduction, taxable, ExactOld(taxable), 5 * LAKH, Some(12_500 * RUPEE))
  }

  // ----- The if-chains of the source

  method ComputeSurcharge(taxable: int, tax: int) returns (surcharge: int, relief: int)
    ensures surcharge == OracleSurcharge(taxable, tax)
    ensures relief == OracleRelief(taxable, tax)
  {
    hide AtRate, QuantizedAtRate;
    surcharge, relief := 0, 0;
    if tax <= 0 || taxable <= 50 * LAKH {
      return;
    }
    var rate, threshold;
    if taxable > 2 * CRORE {
      rate, threshold := 2500, 2 * CRORE;
    } else if taxable > CRORE {
      rate, threshold := 1500, CRORE;
    } else {
      rate, threshold := 1000, 50 * LAKH;
    }
    var band := OracleBand(taxable);
    assert rate == band.rate && threshold == band.from;
    MulMonotone(0, tax, rate);
    surcharge := RATE_ONE * QuantizedAtRate(tax, rate);
    var previous;
    if threshold >= 5 * CRORE {
      previous := 2500;
    } else if threshold >= 2 * CRORE {
      previous := 1500;
    } else if threshold >= CRORE {
      previous := 1000;
    } else {
      previous := 0;
    }
    assert previous == PreviousRate(band.from);
    hide OracleBand, PreviousRate;
    var excess := taxable - threshold;
    var onThreshold := Max(0, tax - RATE_ONE * AtRate(excess, 3000));
    var cap := onThreshold + RATE_ONE * QuantizedAtRate(onThreshold, previous) + RATE_ONE * excess;
    if tax + surcharge > cap {
      relief := tax + surcharge - cap;
      surcharge := Max(0, surcharge - relief);
    }
  }

  /** `total` paise is the multiple of ten rupees nearest to the amount, the upper one of two. */
  predicate NearestTen(total: int, scaled: int) {
    && total % TEN_RUPEES == 0
    && -(TEN_RUPEES * RATE_ONE) < 2 * (RATE_ONE * total - scaled) <= TEN_RUPEES * RATE_ONE
  }

  lemma RemainderIsNearest(scaled: nat)
    ensures NearestTen(RoundByRemainder(scaled), scaled)
  {
    var unit := TEN_RUPEES * RATE_ONE;
    var q, r := scaled / unit, scaled % unit;
    assert scaled == q * unit + r;
    assert RoundByRemainder(scaled) == if 2 * r >= unit then (q + 1) * TEN_RUPEES else q * TEN_RUPEES;
  }

  lemma NearestTenIsOne(a: int, b: int, scaled: int)
    requires NearestTen(a, scaled) && NearestTen(b, scaled)
    ensures a == b
  {
  }

  method RoundOff(unrounded: nat) returns (total: int)
    ensures NearestTen(total, unrounded)
  {
    RemainderIsNearest(unrounded);
    var unit := TEN_RUPEES * RATE_ONE;
    var remainder := unrounded % unit;
    if 2 * remainder >= unit {
      total := unrounded + (unit - remainder);
    } else {
      total := unrounded - remainder;
    }
    total := total / RATE_ONE;
  }

  /** The steps after the bracket tax, the same in every year of the source. */
  method Conclude(deduction: int, taxable: int, slabTax: int, threshold: int, cap: Option<int>)
    returns (r: OracleResult)
    ensures r == OracleFrom(deduction, taxable, slabTax, threshold, cap)
  {
    hide OracleSurcharge, QuantizedAtRate, RoundByRemainder;
    var rebate, relief := 0, 0;
    if taxable <= threshold {
      rebate := if cap.None? then slabTax else Min(slabTax, RATE_ONE * cap.value);
    } else {
      var excess := taxable - threshold;
      if slabTax > RATE_ONE * excess {
        relief := slabTax - RATE_ONE * excess;
      }
    }
    var tax := Max(0, slabTax - rebate - relief);
    assert tax == OracleTaxAfterRebate(taxable, slabTax, threshold, cap);
    var surcharge, _ := ComputeSurcharge(taxable, tax);
    MulMonotone(0, tax + surcharge, 400);
    var cess := QuantizedAtRate(tax + surcharge, 400);
    var unrounded := tax + surcharge + RATE_ONE * cess;
    var total := RoundOff(unrounded);
    RemainderIsNearest(unrounded);
    NearestTenIsOne(total, RoundByRemainder(unrounded), unrounded);
    r := OracleResult(taxable, deduction, slabTax, rebate, tax, surcharge, cess, total);
  }

  const SCALED_RUPEE := RUPEE * RATE_ONE

  method CalculateFy2025New(gross: int) returns (r: OracleResult)
    ensures r == OracleNew2025(gross)
  {
    var deduction := Min(gross, 75_000 * RUPEE);
    var taxable := Max(0, gross - deduction);
    var slabTax := 0;
    if taxable > 24 * LAKH {
      slabTax := slabTax + (taxable - 24 * LAKH) * 3000;
      slabTax := slabTax + 100_000 * SCALED_RUPEE;
      slabTax := slabTax + 80_000 * SCALED_RUPEE;
      slabTax := slabTax + 60_000 * SCALED_RUPEE;
      slabTax := slabTax + 40_000 * SCALED_RUPEE;
      slabTax := slabTax + 20_000 * SCALED_RUPEE;
    } else if taxable > 20 * LAKH {
      slabTax := slabTax + (taxable - 20 * LAKH) * 2500;
      slabTax := slabTax + 80_000 * SCALED_RUPEE;
      slabTax := slabTax + 60_000 * SCALED_RUPEE;
      slabTax := slabTax + 40_000 * SCALED_RUPEE;
      slabTax := slabTax + 20_000 * SCALED_RUPEE;
    } else if taxable > 16 * LAKH {
      slabTax := slabTax + (taxable - 16 * LAKH) * 2000;
      slabTax := slabTax + 60_000 * SCALED_RUPEE;
      slabTax := slabTax + 40_000 * SCALED_RUPEE;
      slabTax := slabTax + 20_000 * SCALED_RUPEE;
    } else if taxable > 12 * LAKH {
      slabTax := slabTax + (taxable - 12 * LAKH) * 1500;
      slabTax := slabTax + 40_000 * SCALED_RUPEE;
      slabTax := slabTax + 20_000 * SCALED_RUPEE;
    } else if taxable > 8 * LAKH {
      slabTax := slabTax + (taxable - 8 * LAKH) * 1000;
      slabTax := slabTax + 20_000 * SCALED_RUPEE;
    } else if taxable > 4 * LAKH {
      slabTax := slabTax + (taxable - 4 * LAKH) * 500;
    }
    hide OracleFrom;
    r := Conclude(deduction, taxable, slabTax, 12 * LAKH, None);
  }

  method CalculateFy2026New(gross: int) returns (r: OracleResult)
    ensures r == OracleNew2025(gross)
  {
    r := CalculateFy2025New(gross);
  }

  method CalculateFy2024New(gross: int) returns (r: OracleResult)
    ensures r == OracleNew2024(gross)
  {
    var deduction := Min(gross, 75_000 * RUPEE);
    var taxable := Max(0, gross - deduction);
    var slabTax := 0;
    if taxable > 15 * LAKH {
      slabTax := slabTax + (taxable - 15 * LAKH) * 3000;
      slabTax := slabTax + 60_000 * SCALED_RUPEE;
      slabTax := slabTax + 30_000 * SCALED_RUPEE;
      slabTax := slabTax + 30_000 * SCALED_RUPEE;
      slabTax := slabTax + 20_000 * SCALED_RUPEE;
    } else if taxable > 12 * LAKH {
      slabTax := slabTax + (taxable - 12 * LAKH) * 2000;
      slabTax := slabTax + 30_000 * SCALED_RUPEE;
      slabTax := slabTax + 30_000 * SCALED_RUPEE;
      slabTax := slabTax + 20_000 * SCALED_RUPEE;
    } else if taxable > 10 * LAKH {
      slabTax := slabTax + (taxable - 10 * LAKH) * 1500;
      slabTax := slabTax + 30_000 * SCALED_RUPEE;
      slabTax := slabTax + 20_000 * SCALED_RUPEE;
    } else if taxable > 7 * LAKH {
      slabTax := slabTax + (taxable - 7 * LAKH) * 1000;
      slabTax := slabTax + 20_000 * SCALED_RUPEE;
    } else if taxable > 3 * LAKH {
      slabTax := slabTax + (taxable - 3 * LAKH) * 500;
    }
    hide OracleFrom;
    r := Conclude(deduction, taxable, slabTax, 7 * LAKH, None);
  }

  method CalculateFy2025Old(gross: int, section80c: int, section80d: int) returns (r: OracleResult)
    ensures r == OracleOld(gross, section80c, section80d)
  {
    var deduction := Min(gross, 50_000 * RUPEE);
    var claims := Min(section80c, 150_000 * RUPEE) + Min(section80d, 25_000 * RUPEE);
    var taxable := Max(0, gross - (deduction + claims));
    var slabTax := 0;
    if taxable > 10 * LAKH {
      slabTax := slabTax + (taxable - 10 * LAKH) * 3000;
      slabTax := slabTax + 100_000 * SCALED_RUPEE;
      slabTax := slabTax + 12_500 * SCALED_RUPEE;
    } else if taxable > 5 * LAKH {
      slabTax := slabTax + (taxable - 5 * LAKH) * 2000;
      slabTax := slabTax + 12_500 * SCALED_RUPEE;
    } else if taxable > 250_000 * RUPEE {
      slabTax := slabTax + (taxable - 250_000 * RUPEE) * 500;
    }
    hide OracleFrom;
    r := Conclude(deduction, taxable, slabTax, 5 * LAKH, Some(12_500 * RUPEE));
  }

  // ----- Agreement

  /** Both roundings to ten rupees, by half-up quantization and by remainder, are one function. */
  lemma SameRounding(amount: nat)
    ensures RoundByRemainder(RATE_ONE * amount) == RoundToTenRupees(amount)
  {
    var m := amount % TEN_RUPEES;
    assert RATE_ONE * amount == (amount / TEN_RUPEES) * (TEN_RUPEES * RATE_ONE) + RATE_ONE * m;
    assert (RATE_ONE * amount) % (TEN_RUPEES * RATE_ONE) == RATE_ONE * m;
  }

  lemma SameRate(t: nat, rate: nat)
    ensures QuantizedAtRate(RATE_ONE * t, rate) == AtRate(t, rate)
  {
    MulMonotone(0, t, rate);
    assert RATE_ONE * t * rate == RATE_ONE * (t * rate);
    ScaledRounding(t * rate);
  }

  lemma ScaledRounding(p: nat)
    ensures RoundHalfUp(RATE_ONE * p, RATE_ONE * RATE_ONE) == RoundHalfUp(p, RATE_ONE)
  {
  }

  /** On a whole-paise tax the oracle's surcharge is the engine's, relief included. */
  lemma SameSurcharge(income: int, tax: nat, slabs: seq<Slab>, band: SurchargeBand)
    requires SlabChain(slabs) && SlabTax(income, slabs) == tax
    requires TopFrom(slabs) <= 50 * LAKH < income
    requires band.from == OracleBand(income).from && band.rate == OracleBand(income).rate
    ensures RATE_ONE * tax + OracleSurcharge(income, RATE_ONE * tax) == RATE_ONE * Capped(income, slabs, band)
  {
    AtRateOfZero(band.rate);
    hide SlabTax, AtRate, QuantizedAtRate;
    var onThreshold := SlabTax(band.from, slabs);
    ThresholdShortcut(income, band.from, slabs);
    SlabTaxMonotone(band.from, income, slabs);
    TopRateShift(income - band.from, 0);
    SameRate(tax, band.rate);
    SameRate(onThreshold, PreviousRate(band.from));
    AtRateMonotone(0, tax, band.rate);
    AtRateMonotone(0, onThreshold, PreviousRate(band.from));
  }
}
