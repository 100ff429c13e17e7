/**
 How far engine and oracle can drift apart between whole rupees: the engine rounds its bracket tax
 to paise and the oracle does not, and the rounded totals differ by ten rupees at most.
 */
module TaxDrift {
  import opened Money
  import opened TaxRules
  import opened TaxEngine
  import opened TaxLaws
  import opened TaxSeeds
  import opened TaxOracle
  import opened TaxAgreement

  /** An oracle amount within so many half paise of an engine amount. */
  predicate Near(scaled: int, paise: int, halves: nat) {
    -(halves * RATE_ONE) <= 2 * (scaled - RATE_ONE * paise) <= halves * RATE_ONE
  }

  /** Charges of at most a quarter on near amounts are a paisa apart at most. */
  lemma NearRate(scaled: nat, paise: nat, rate: nat)
    requires Near(scaled, paise, 3) && rate <= 2500
    ensures -1 <= QuantizedAtRate(scaled, rate) - AtRate(paise, rate) <= 1
  {
    SameRate(paise, rate);
    RateGapAt(scaled, paise, rate);
    MulMonotone(0, scaled, rate);
    MulMonotone(0, RATE_ONE * paise, rate);
    CloseRounds(scaled * rate, RATE_ONE * paise * rate);
    hide AtRate, RoundHalfUp;
  }

  lemma RateGapAt(scaled: int, paise: int, rate: nat)
    requires Near(scaled, paise, 3) && rate <= 2500
    ensures -(RATE_ONE * RATE_ONE) <= scaled * rate - RATE_ONE * paise * rate <= RATE_ONE * RATE_ONE
  {
    var gap := scaled - RATE_ONE * paise;
    assert scaled * rate - RATE_ONE * paise * rate == gap * rate;
    if gap >= 0 {
      MulMonotone(0, gap, rate);
      MulMonotone(rate, 2500, gap);
    } else {
      MulMonotone(0, -gap, rate);
      MulMonotone(rate, 2500, -gap);
    }
  }

  lemma CloseRounds(a: nat, b: nat)
    requires -(RATE_ONE * RATE_ONE) <= a - b <= RATE_ONE * RATE_ONE
    ensures -1 <= RoundHalfUp(a, RATE_ONE * RATE_ONE) - RoundHalfUp(b, RATE_ONE * RATE_ONE) <= 1
  {
  }

  // ----- After the rebate

  lemma NearAfterRebate(income: int, exact: nat, rules: RuleSet, slabs: seq<Slab>, cap: Option<int>)
    requires SlabChain(slabs) && multiset(rules.slabs) == multiset(slabs) && RebatesFit(rules.rebates, slabs)
    requires rules.rebates != [] && SlabTax(income, slabs) == Quantize(exact)
    requires cap.Some? ==> cap.value == rules.rebates[0].maxRebate
    ensures var tax := OracleTaxAfterRebate(income, exact, rules.rebates[0].threshold, cap);
            0 <= tax && Near(tax, Assess(income, rules).taxAfterRebate, 1)
  {
    var t := rules.rebates[0].threshold;
    TaxAfterRebate(income, rules, slabs);
    if income <= t {
      SlabTaxMonotone(income, t, slabs);
    }
    hide SlabTax, Assess, SlabChain;
  }

  // ----- The surcharge

  /** What the oracle charges before cess, as a capped sum like the engine's. */
  lemma OracleBase(income: int, tax: nat)
    requires 50 * LAKH < income && 0 < tax
    ensures tax + OracleSurcharge(income, tax)
            == Max(tax, Min(tax + OracleFullSurcharge(income, tax), OracleCap(income, tax)))
  {
    hide OracleFullSurcharge, OracleCap;
  }

  /** The engine's base, and its tax on the threshold, from the tax on the income. */
  lemma EngineBase(income: int, slabs: seq<Slab>, band: SurchargeBand)
    requires SlabChain(slabs) && TopFrom(slabs) <= band.from < income && band.from % RUPEE == 0
    ensures var s, t := SlabTax(income, slabs), SlabTax(band.from, slabs);
            var excess := income - band.from;
            && 0 <= t <= s && t == Max(0, s - AtRate(excess, TOP_SLAB_RATE)) && s <= t + excess
            && Capped(income, slabs, band)
               == Max(s, Min(s + AtRate(s, band.rate), t + AtRate(t, PreviousRate(band.from)) + excess))
  {
    hide SlabTax, AtRate;
    ThresholdShortcut(income, band.from, slabs);
    SlabTaxMonotone(band.from, income, slabs);
    TopRateShift(income - band.from, 0);
    AtRateMonotone(0, SlabTax(income, slabs), band.rate);
    AtRateMonotone(0, SlabTax(band.from, slabs), PreviousRate(band.from));
  }

  lemma NothingCharged(income: int)
    ensures OracleSurcharge(income, 0) == 0
  {
  }

  lemma NearSurcharge(income: int, tax: nat, slabs: seq<Slab>, band: SurchargeBand)
    requires SlabChain(slabs) && TopFrom(slabs) <= 50 * LAKH < income
    requires band.from == OracleBand(income).from && band.rate == OracleBand(income).rate
    requires Near(tax, SlabTax(income, slabs), 1)
    ensures Near(tax + OracleSurcharge(income, tax), Capped(income, slabs, band), 3)
  {
    hide SlabTax, AtRate, QuantizedAtRate, Capped, OracleSurcharge, PreviousRate;
    EngineBase(income, slabs, band);
    var s, t, excess := SlabTax(income, slabs), SlabTax(band.from, slabs), income - band.from;
    if tax == 0 {
      NothingCharged(income);
      assert s == 0;
      AtRateOfZero(band.rate);
    } else {
      OracleBase(income, tax);
      var onThreshold := Max(0, tax - RATE_ONE * AtRate(excess, TOP_SLAB_RATE));
      RatesAreSmall(band.from);
      NearRate(tax, s, band.rate);
      NearRate(onThreshold, t, PreviousRate(band.from));
    }
  }

  lemma RatesAreSmall(from: int)
    ensures 0 <= PreviousRate(from) <= 2500
  {
  }

  lemma NearEnough(scaled: int, paise: int)
    requires Near(scaled, paise, 1)
    ensures Near(scaled, paise, 3)
  {
  }

  lemma NearBase(income: int, tax: nat, rules: RuleSet, slabs: seq<Slab>, bands: seq<SurchargeBand>)
    requires WellFormed(rules, slabs, bands) && BandsMatch(income, bands)
    requires Near(tax, Assess(income, rules).taxAfterRebate, 1)
    ensures Near(tax + OracleSurcharge(income, tax), Assess(income, rules).taxAndSurcharge, 3)
  {
    hide Assess, Capped, SlabTax, OracleSurcharge, Near;
    if income <= 50 * LAKH {
      NoSurchargeYet(income, tax, rules, slabs, bands);
      NearEnough(tax, Assess(income, rules).taxAfterRebate);
    } else {
      var i :| 0 <= i < |bands| && Covers(bands[i], income)
               && bands[i].from == OracleBand(income).from && bands[i].rate == OracleBand(income).rate;
      TaxInSurchargeRange(income, rules, slabs, bands);
      NearSurcharge(income, tax, slabs, bands[i]);
      ChargedByAnyBand(income, i, rules, slabs, bands);
    }
  }

  // ----- The totals

  /** Rounding to ten rupees takes two amounts a few paise apart to totals ten rupees apart at most. */
  lemma RoundedApart(scaled: nat, paise: nat)
    requires Near(scaled, paise, 5)
    ensures Abs(RoundByRemainder(scaled) - RoundToTenRupees(paise)) <= TEN_RUPEES
  {
    RemainderIsNearest(scaled);
    hide RoundByRemainder, RoundToTenRupees;
  }

  lemma NearTotals(
      deduction: int, income: int, exact: nat, rules: RuleSet, slabs: seq<Slab>, bands: seq<SurchargeBand>,
      cap: Option<int>)
    requires WellFormed(rules, slabs, bands) && BandsMatch(income, bands)
    requires rules.rebates != [] && rules.cessRates == [400] && SlabTax(income, slabs) == Quantize(exact)
    requires cap.Some? ==> cap.value == rules.rebates[0].maxRebate
    ensures Abs(OracleFrom(deduction, income, exact, rules.rebates[0].threshold, cap).total
                - Assess(income, rules).total) <= TEN_RUPEES
  {
    hide Assess, OracleSurcharge, RoundByRemainder, RoundToTenRupees, OracleTaxAfterRebate, OracleRebate, Cess, AtRate;
    hide SlabTax, SlabChain, BandChain, RebatesFit, BandsMatch, SurchargeAfterRebate, QuantizedAtRate;
    var e := Assess(income, rules);
    var tax := OracleTaxAfterRebate(income, exact, rules.rebates[0].threshold, cap);
    AssessmentConclusion(income, rules);
    NearAfterRebate(income, exact, rules, slabs, cap);
    NearBase(income, tax, rules, slabs, bands);
    TaxAndSurchargeMonotone(income, income, rules, slabs, bands);
    SingleCess(e.taxAndSurcharge);
    var base := tax + OracleSurcharge(income, tax);
    NearRate(base, e.taxAndSurcharge, 400);
    AtRateMonotone(0, e.taxAndSurcharge, 400);
    MulMonotone(0, base, 400);
    RoundedApart(base + RATE_ONE * QuantizedAtRate(base, 400), e.taxAndSurcharge + e.cess);
  }

  /** At every paisa of income, and in the old regime up to five crore, the totals of engine and oracle
      are at most ten rupees apart. */
  lemma TotalsWithinTenRupees(deduction: int, income: int)
    ensures Abs(OracleFrom(deduction, income, ExactNew2025(income), 12 * LAKH, None).total
                - Assess(income, NEW_2025).total) <= TEN_RUPEES
    ensures Abs(OracleFrom(deduction, income, ExactNew2024(income), 7 * LAKH, None).total
                - Assess(income, NEW_2024).total) <= TEN_RUPEES
    ensures income <= 5 * CRORE ==>
              Abs(OracleFrom(deduction, income, ExactOld(income), 5 * LAKH, Some(12_500 * RUPEE)).total
                  - Assess(income, OLD).total) <= TEN_RUPEES
  {
    hide Assess, OracleFrom, SlabTax, WellFormed, BandsMatch, Quantize;
    SlabTaxNew2025(income);
    SlabTaxNew2024(income);
    SlabTaxOld(income);
    SeededWellFormed(NEW_2025);
    SeededWellFormed(NEW_2024);
    SeededWellFormed(OLD);
    BandsMatchNew(income);
    NearTotals(deduction, income, ExactNew2025(income), NEW_2025, SLABS_NEW_2025, BANDS_NEW, None);
    NearTotals(deduction, income, ExactNew2024(income), NEW_2024, SLABS_NEW_2024, BANDS_NEW, None);
    if income <= 5 * CRORE {
      BandsMatchOld(income);
      NearTotals(deduction, income, ExactOld(income), OLD, SLABS_OLD, BANDS_OLD, Some(12_500 * RUPEE));
    }
  }
}
