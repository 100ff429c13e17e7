/** The rule-driven engine on the seeded rules and the hard-coded oracle charge the same tax. */
module TaxAgreement {
  import opened Money
  import opened TaxRules
  import opened TaxEngine
  import opened TaxLaws
  import opened TaxSeeds
  import opened TaxOracle

  // ----- The deductions of the seeded rules

  lemma StandardCodeNamesNoSection()
    ensures !Mentions("16(ia)", "80C") && !Mentions("16(ia)", "80D")
  {
    var code := "16(ia)";
    assert code[0] == '1' && code[1] == '6' && code[2] == '(' && code[3] == 'i';
    forall i: nat, section | section == "80C" || section == "80D"
      ensures !MentionsAt(code, section, i)
    {
      if i + 3 <= |code| {
        assert code[i..i + 3][0] == code[i] != section[0];
      }
    }
  }

  lemma SectionCodes()
    ensures Mentions("80C", "80C") && Mentions("80D", "80D") && !Mentions("80C", "80D")
  {
    assert MentionsAt("80C", "80C", 0) && MentionsAt("80D", "80D", 0);
    forall i: nat ensures !MentionsAt("80C", "80D", i) {
      if i + 3 <= 3 {
        assert "80C"[0..3][2] != "80D"[2];
      }
    }
  }

  lemma NewLimits(deduction: Deduction)
    requires deduction.code == "16(ia)" && deduction.isStandard
    ensures StandardRule([deduction]) == Some(deduction)
    ensures SectionRule([deduction], "80C") == None && SectionRule([deduction], "80D") == None
  {
    StandardCodeNamesNoSection();
    hide Mentions;
    assert [deduction][1..] == [];
  }

  lemma OldLimits()
    ensures LimitOf(StandardRule(OLD.deductions)) == 50_000 * RUPEE
    ensures LimitOf(SectionRule(OLD.deductions, "80C")) == 150_000 * RUPEE
    ensures LimitOf(SectionRule(OLD.deductions, "80D")) == 25_000 * RUPEE
  {
    StandardCodeNamesNoSection();
    SectionCodes();
    hide Mentions;
    var ds := OLD.deductions;
    assert ds[1..][0] == ds[1] && ds[1..][1..] == ds[2..] && ds[2..][0] == ds[2];
    assert SectionRule(ds, "80D") == SectionRule(ds[1..], "80D") == SectionRule(ds[2..], "80D");
  }

  // ----- From equal bracket taxes to equal totals

  predicate SameAssessment(o: OracleResult, e: Assessment) {
    && o.slabTax == RATE_ONE * e.slabTax
    && o.rebate == RATE_ONE * e.rebate
    && o.taxAfterRebate == RATE_ONE * e.taxAfterRebate
    && o.taxAfterRebate + o.surcharge == RATE_ONE * e.taxAndSurcharge
    && o.cess == e.cess
    && o.total == e.total
  }

  /** The seeded bands up to the one that covers `income` are the oracle's. */
  ghost predicate BandsMatch(income: int, bands: seq<SurchargeBand>) {
    && bands != [] && bands[0].from == 50 * LAKH
    && (income > 50 * LAKH ==>
          exists i :: 0 <= i < |bands| && Covers(bands[i], income)
                      && bands[i].from == OracleBand(income).from && bands[i].rate == OracleBand(income).rate)
  }

  lemma SameTaxAfterRebate(
      income: int, tax: int, rules: RuleSet, slabs: seq<Slab>, cap: Option<int>)
    requires SlabChain(slabs) && multiset(rules.slabs) == multiset(slabs) && RebatesFit(rules.rebates, slabs)
    requires rules.rebates != [] && tax == SlabTax(income, slabs)
    requires cap.Some? ==> cap.value == rules.rebates[0].maxRebate
    ensures var t := rules.rebates[0].threshold;
            var e := Assess(income, rules);
            && e.slabTax == tax >= 0
            && OracleRebate(income, RATE_ONE * tax, t, cap) == RATE_ONE * e.rebate
            && OracleTaxAfterRebate(income, RATE_ONE * tax, t, cap) == RATE_ONE * e.taxAfterRebate
  {
    TaxAfterRebate(income, rules, slabs);
    SlabTaxPermutation(income, rules.slabs, slabs);
    SlabTaxMonotone(income, income, slabs);
    if income <= rules.rebates[0].threshold {
      SlabTaxMonotone(income, rules.rebates[0].threshold, slabs);
    } else {
      NoneCovers(income, rules.rebates);
    }
  }

  /** Up to the first threshold, which the first band covers, neither charges a surcharge. */
  lemma NoSurchargeYet(income: int, tax: int, rules: RuleSet, slabs: seq<Slab>, bands: seq<SurchargeBand>)
    requires WellFormed(rules, slabs, bands) && bands != [] && bands[0].from == 50 * LAKH && income <= 50 * LAKH
    ensures OracleSurcharge(income, tax) == 0
    ensures Assess(income, rules).taxAndSurcharge == Assess(income, rules).taxAfterRebate
  {
    assert OracleSurcharge(income, tax) == 0;
    hide Assess, Capped, SlabTax, OracleSurcharge;
    if income < bands[0].from {
      ChargedBelowBands(income, rules, slabs, bands);
    } else {
      TaxInSurchargeRange(income, rules, slabs, bands);
      CappedAtFirstThreshold(slabs, bands);
      if 1 < |bands| {
        BandsAscend(bands, slabs, 0, 1);
      }
      ChargedByAnyBand(income, 0, rules, slabs, bands);
    }
  }

  lemma SameTaxAndSurcharge(
      income: int, tax: nat, rules: RuleSet, slabs: seq<Slab>, bands: seq<SurchargeBand>)
    requires WellFormed(rules, slabs, bands) && BandsMatch(income, bands)
    requires Assess(income, rules).taxAfterRebate == tax
    ensures RATE_ONE * tax + OracleSurcharge(income, RATE_ONE * tax)
            == RATE_ONE * Assess(income, rules).taxAndSurcharge
  {
    hide Assess, Capped, SlabTax, OracleSurcharge;
    if income <= 50 * LAKH {
      NoSurchargeYet(income, RATE_ONE * tax, rules, slabs, bands);
    } else {
      var i :| 0 <= i < |bands| && Covers(bands[i], income)
               && bands[i].from == OracleBand(income).from && bands[i].rate == OracleBand(income).rate;
      TaxInSurchargeRange(income, rules, slabs, bands);
      SameSurcharge(income, tax, slabs, bands[i]);
      ChargedByAnyBand(income, i, rules, slabs, bands);
    }
  }

  lemma SameFromBrackets(
      deduction: int, income: int, tax: int, rules: RuleSet, slabs: seq<Slab>, bands: seq<SurchargeBand>,
      cap: Option<int>)
    requires WellFormed(rules, slabs, bands) && BandsMatch(income, bands)
    requires rules.rebates != [] && rules.cessRates == [400] && tax == SlabTax(income, slabs)
    requires cap.Some? ==> cap.value == rules.rebates[0].maxRebate
    ensures SameAssessment(
              OracleFrom(deduction, income, RATE_ONE * tax, rules.rebates[0].threshold, cap), Assess(income, rules))
  {
    hide Assess, OracleSurcharge, RoundByRemainder, RoundToTenRupees, OracleTaxAfterRebate, OracleRebate, Cess, AtRate;
    hide SlabTax, SlabChain, BandChain, RebatesFit, BandsMatch, SurchargeAfterRebate, QuantizedAtRate;
    var e := Assess(income, rules);
    AssessmentConclusion(income, rules);
    TaxAfterRebateMonotone(income, income, rules, slabs);
    TaxAndSurchargeMonotone(income, income, rules, slabs, bands);
    SameTaxAfterRebate(income, tax, rules, slabs, cap);
    SameTaxAndSurcharge(income, e.taxAfterRebate, rules, slabs, bands);
    SingleCess(e.taxAndSurcharge);
    SameRate(e.taxAndSurcharge, 400);
    AtRateMonotone(0, e.taxAndSurcharge, 400);
    SameRounding(e.taxAndSurcharge + e.cess);
  }

  // ----- The agreement, year by year

  function NewInput(gross: int, section80c: int, section80d: int): TaxInput {
    TaxInput(gross, None, section80c, section80d, 0, 0)
  }

  lemma BandsMatchNew(income: int)
    ensures BandsMatch(income, BANDS_NEW)
  {
    if income > 50 * LAKH {
      var i := if income > 2 * CRORE then 2 else if income > CRORE then 1 else 0;
      assert Covers(BANDS_NEW[i], income);
    }
  }

  lemma BandsMatchOld(income: int)
    requires income <= 5 * CRORE
    ensures BandsMatch(income, BANDS_OLD)
  {
    if income > 50 * LAKH {
      var i := if income > 2 * CRORE then 2 else if income > CRORE then 1 else 0;
      assert Covers(BANDS_OLD[i], income);
    }
  }

  /** An exact tax that is whole paise is what rounding it leaves. */
  lemma ExactIsRounded(scaled: int)
    ensures scaled == RATE_ONE * Quantize(scaled) <==> scaled % RATE_ONE == 0
  {
  }

  lemma RemainderIs(a: int, q: int, r: nat, d: nat)
    requires a == q * d + r && r < d
    ensures a % d == r
  {
    var p, m := a / d, a % d;
    assert (p - q) * d == r - m;
    if p < q {
      MulMonotone(1, q - p, d);
    } else if q < p {
      MulMonotone(1, p - q, d);
    }
  }

  lemma RemainderShift(n: int, k: int, d: nat)
    requires d > 0
    ensures (n + k * d) % d == n % d
  {
    var q := n / d;
    assert n + k * d == (q + k) * d + n % d;
    RemainderIs(n + k * d, q + k, n % d, d);
  }

  /** A rate that charges one paisa on `step` charges whole paise on its multiples alone. */
  lemma UnitStep(amount: int, rate: nat, step: nat)
    requires step * rate == RATE_ONE
    ensures amount * rate % RATE_ONE == 0 <==> amount % step == 0
  {
    var q, r := amount / step, amount % step;
    assert amount * rate == q * RATE_ONE + r * rate by {
      assert amount == q * step + r;
      assert q * step * rate == q * RATE_ONE;
    }
    MulMonotone(r + 1, step, rate);
    RemainderIs(amount * rate, q, r * rate, RATE_ONE);
  }

  /** Three times a number is a multiple of 10,000 exactly when the number is. */
  lemma Thirds(x: int)
    ensures 3 * x % RATE_ONE == 0 <==> x % RATE_ONE == 0
  {
    if 3 * x % RATE_ONE == 0 {
      var k := 3 * x / RATE_ONE;
      assert x == RATE_ONE * (x - 3333 * k);
      RemainderIs(x, x - 3333 * k, 0, RATE_ONE);
    } else if x % RATE_ONE == 0 {
      RemainderIs(3 * x, 3 * (x / RATE_ONE), 0, RATE_ONE);
    }
  }

  /** The incomes that a bracket at `rate` charges in whole paise, its start being whole rupees. */
  predicate InWholePaise(income: int, rate: nat) {
    if rate == 500 || rate == 1500 then income % 20 == 0
    else if rate == 2000 then income % 5 == 0
    else if rate == 2500 then income % 4 == 0
    else income % 10 == 0
  }

  lemma ExactInWholePaise(income: int, from: int, rate: nat, paid: nat)
    requires rate in {500, 1000, 1500, 2000, 2500, 3000} && from % RUPEE == 0
    ensures Exact(income, from, rate, paid) % RATE_ONE == 0 <==> InWholePaise(income, rate)
  {
    RemainderShift((income - from) * rate, paid * RUPEE, RATE_ONE);
    ChargedInWholePaise(income - from, rate);
    FromWholeRupees(income, from);
  }

  lemma ChargedInWholePaise(amount: int, rate: nat)
    requires rate in {500, 1000, 1500, 2000, 2500, 3000}
    ensures amount * rate % RATE_ONE == 0 <==> InWholePaise(amount, rate)
  {
    if rate == 1500 {
      UnitStep(amount, 500, 20);
      Thirds(amount * 500);
    } else if rate == 3000 {
      UnitStep(amount, 1000, 10);
      Thirds(amount * 1000);
    } else {
      UnitStep(amount, rate, if rate == 500 then 20 else if rate == 2000 then 5 else if rate == 2500 then 4 else 10);
    }
  }

  lemma FromWholeRupees(income: int, from: int)
    requires from % RUPEE == 0
    ensures (income - from) % 20 == income % 20
    ensures (income - from) % 10 == income % 10
    ensures (income - from) % 5 == income % 5
    ensures (income - from) % 4 == income % 4
  {
    var m := from / RUPEE;
    RemainderShift(income, -5 * m, 20);
    RemainderShift(income, -10 * m, 10);
    RemainderShift(income, -20 * m, 5);
    RemainderShift(income, -25 * m, 4);
  }

  lemma WholeRupeesInPaise(income: int, rate: nat)
    requires income % RUPEE == 0
    ensures InWholePaise(income, rate)
  {
    FromWholeRupees(income, income);
  }

  /** The incomes whose bracket tax in the 2025-26 new regime is whole paise before any rounding. */
  predicate WholeNew2025(income: int) {
    if income > 24 * LAKH then InWholePaise(income, 3000)
    else if income > 20 * LAKH then InWholePaise(income, 2500)
    else if income > 16 * LAKH then InWholePaise(income, 2000)
    else if income > 12 * LAKH then InWholePaise(income, 1500)
    else if income > 8 * LAKH then InWholePaise(income, 1000)
    else income > 4 * LAKH ==> InWholePaise(income, 500)
  }

  predicate WholeNew2024(income: int) {
    if income > 15 * LAKH then InWholePaise(income, 3000)
    else if income > 12 * LAKH then InWholePaise(income, 2000)
    else if income > 10 * LAKH then InWholePaise(income, 1500)
    else if income > 7 * LAKH then InWholePaise(income, 1000)
    else income > 3 * LAKH ==> InWholePaise(income, 500)
  }

  predicate WholeOld(income: int) {
    if income > 10 * LAKH then InWholePaise(income, 3000)
    else if income > 5 * LAKH then InWholePaise(income, 2000)
    else income > 250_000 * RUPEE ==> InWholePaise(income, 500)
  }

  lemma NewTaxable(gross: int, section80c: nat, section80d: nat, rules: RuleSet)
    requires rules.deductions == [Deduction("16(ia)", Some(75_000 * RUPEE), true)]
    ensures var inp := NewInput(gross, section80c, section80d);
            && StandardDeduction(inp, rules) == Min(gross, 75_000 * RUPEE)
            && TaxableIncome(inp, rules) == Max(0, gross - Min(gross, 75_000 * RUPEE))
  {
    NewLimits(rules.deductions[0]);
    hide SectionRule, StandardRule;
  }

  lemma WholeAfter(gross: int, a: int, b: int, c: int)
    requires gross % RUPEE == 0 && a % RUPEE == 0 && b % RUPEE == 0 && c % RUPEE == 0
    ensures Max(0, gross - (a + (b + c))) % RUPEE == 0
  {
  }

  lemma SameAtIncomeNew2025(deduction: int, income: int)
    ensures var e := Assess(income, NEW_2025);
            var o := OracleFrom(deduction, income, ExactNew2025(income), 12 * LAKH, None);
            && e.slabTax == Quantize(o.slabTax)
            && (SameAssessment(o, e) <==> o.slabTax % RATE_ONE == 0)
  {
    var exact, tax := ExactNew2025(income), SlabTax(income, SLABS_NEW_2025);
    SlabTaxNew2025(income);
    hide ExactNew2025;
    ExactIsRounded(exact);
    assert Assess(income, NEW_2025).slabTax == tax;
    New2025WellFormed();
    BandsMatchNew(income);
    hide WellFormed, Assess, Quantize, SlabTax, BandsMatch;
    if exact % RATE_ONE == 0 {
      SameFromBrackets(deduction, income, tax, NEW_2025, SLABS_NEW_2025, BANDS_NEW, None);
    }
  }

  /** New regime, 2025-26 and 2026-27: same deduction and taxable income; the engine's slab tax is
      the oracle's rounded once; and the two agree on everything exactly when the oracle's slab
      tax is whole paise, as it is for every whole-rupee salary. */
  lemma EngineEqualsOracleNew2025(gross: int, section80c: nat, section80d: nat)
    ensures var e := CalculateTax(NewInput(gross, section80c, section80d), NEW_2025);
            var o := OracleNew2025(gross);
            && o.taxable == e.taxable && o.standardDeduction == e.standardDeduction
            && e.assessed.slabTax == Quantize(o.slabTax)
            && (SameAssessment(o, e.assessed) <==> o.slabTax % RATE_ONE == 0)
            && (o.slabTax % RATE_ONE == 0 <==> WholeNew2025(o.taxable))
            && (gross % RUPEE == 0 ==> o.slabTax % RATE_ONE == 0)
  {
    hide Assess, TaxableIncome, StandardDeduction, Quantize, ExactNew2025, SameAssessment, OracleTaxAfterRebate;
    hide OracleRebate, OracleSurcharge, RoundByRemainder, QuantizedAtRate, SectionRule, WholeNew2025;
    NewTaxable(gross, section80c, section80d, NEW_2025);
    var deduction := Min(gross, 75_000 * RUPEE);
    var taxable := Max(0, gross - deduction);
    if gross % RUPEE == 0 {
      WholeAfter(gross, deduction, 0, 0);
    }
    WholePaiseNew2025(taxable);
    SameAtIncomeNew2025(deduction, taxable);
  }

  lemma WholePaiseNew2025(income: int)
    ensures ExactNew2025(income) % RATE_ONE == 0 <==> WholeNew2025(income)
    ensures income % RUPEE == 0 ==> WholeNew2025(income)
  {
    hide Exact, InWholePaise;
    ExactInWholePaise(income, 24 * LAKH, 3000, 300_000);
    ExactInWholePaise(income, 20 * LAKH, 2500, 200_000);
    ExactInWholePaise(income, 16 * LAKH, 2000, 120_000);
    ExactInWholePaise(income, 12 * LAKH, 1500, 60_000);
    ExactInWholePaise(income, 8 * LAKH, 1000, 20_000);
    ExactInWholePaise(income, 4 * LAKH, 500, 0);
    if income % RUPEE == 0 {
      WholeRupeesInPaise(income, 3000);
      WholeRupeesInPaise(income, 2500);
      WholeRupeesInPaise(income, 2000);
      WholeRupeesInPaise(income, 1500);
      WholeRupeesInPaise(income, 1000);
      WholeRupeesInPaise(income, 500);
    }
  }

  lemma SameAtIncomeNew2024(deduction: int, income: int)
    ensures var e := Assess(income, NEW_2024);
            var o := OracleFrom(deduction, income, ExactNew2024(income), 7 * LAKH, None);
            && e.slabTax == Quantize(o.slabTax)
            && (SameAssessment(o, e) <==> o.slabTax % RATE_ONE == 0)
  {
    var exact, tax := ExactNew2024(income), SlabTax(income, SLABS_NEW_2024);
    SlabTaxNew2024(income);
    hide ExactNew2024;
    ExactIsRounded(exact);
    assert Assess(income, NEW_2024).slabTax == tax;
    New2024WellFormed();
    BandsMatchNew(income);
    hide WellFormed, Assess, Quantize, SlabTax, BandsMatch;
    if exact % RATE_ONE == 0 {
      SameFromBrackets(deduction, income, tax, NEW_2024, SLABS_NEW_2024, BANDS_NEW, None);
    }
  }

  /** New regime, 2024-25: same deduction and taxable income; the engine's slab tax is
      the oracle's rounded once; and the two agree on everything exactly when the oracle's slab
      tax is whole paise, as it is for every whole-rupee salary. */
  lemma EngineEqualsOracleNew2024(gross: int, section80c: nat, section80d: nat)
    ensures var e := CalculateTax(NewInput(gross, section80c, section80d), NEW_2024);
            var o := OracleNew2024(gross);
            && o.taxable == e.taxable && o.standardDeduction == e.standardDeduction
            && e.assessed.slabTax == Quantize(o.slabTax)
            && (SameAssessment(o, e.assessed) <==> o.slabTax % RATE_ONE == 0)
            && (o.slabTax % RATE_ONE == 0 <==> WholeNew2024(o.taxable))
            && (gross % RUPEE == 0 ==> o.slabTax % RATE_ONE == 0)
  {
    hide Assess, TaxableIncome, StandardDeduction, Quantize, ExactNew2024, SameAssessment, OracleTaxAfterRebate;
    hide OracleRebate, OracleSurcharge, RoundByRemainder, QuantizedAtRate, SectionRule, WholeNew2024;
    NewTaxable(gross, section80c, section80d, NEW_2024);
    var deduction := Min(gross, 75_000 * RUPEE);
    var taxable := Max(0, gross - deduction);
    if gross % RUPEE == 0 {
      WholeAfter(gross, deduction, 0, 0);
    }
    WholePaiseNew2024(taxable);
    SameAtIncomeNew2024(deduction, taxable);
  }

  lemma WholePaiseNew2024(income: int)
    ensures ExactNew2024(income) % RATE_ONE == 0 <==> WholeNew2024(income)
    ensures income % RUPEE == 0 ==> WholeNew2024(income)
  {
    hide Exact, InWholePaise;
    ExactInWholePaise(income, 15 * LAKH, 3000, 140_000);
    ExactInWholePaise(income, 12 * LAKH, 2000, 80_000);
    ExactInWholePaise(income, 10 * LAKH, 1500, 50_000);
    ExactInWholePaise(income, 7 * LAKH, 1000, 20_000);
    ExactInWholePaise(income, 3 * LAKH, 500, 0);
    if income % RUPEE == 0 {
      WholeRupeesInPaise(income, 3000);
      WholeRupeesInPaise(income, 2000);
      WholeRupeesInPaise(income, 1500);
      WholeRupeesInPaise(income, 1000);
      WholeRupeesInPaise(income, 500);
    }
  }

  // ----- The old regime, where the engine has a tier the oracle lacks

  const TAX_AT_5_CRORE := 1_48_12_500 * RUPEE

  /** Tax and the 25% surcharge at five crore. */
  const BASE_AT_5_CRORE := 1_85_15_625 * RUPEE

  lemma BaseAtFiveCrore()
    ensures BASE_AT_5_CRORE == TAX_AT_5_CRORE + AtRate(TAX_AT_5_CRORE, 2500)
  {
  }

  lemma TaxAboveFiveCrore(income: int)
    requires 5 * CRORE <= income
    ensures SlabTax(income, SLABS_OLD) == TAX_AT_5_CRORE + AtRate(income - 5 * CRORE, TOP_SLAB_RATE)
    ensures SlabTax(5 * CRORE, SLABS_OLD) == TAX_AT_5_CRORE
    ensures SlabTax(2 * CRORE, SLABS_OLD) == TAX_AT_5_CRORE - 90 * LAKH
  {
    SlabTaxOld(income);
    SlabTaxOld(5 * CRORE);
    SlabTaxOld(2 * CRORE);
    hide SlabTax;
    ExactRounded(income, 10 * LAKH, 3000, 1_12_500);
    TopRateShift(income - 5 * CRORE, 490 * LAKH);
    hide Exact, AtRate, Quantize;
  }

  /** Above five crore the 25% tier charges tax and a quarter. */
  lemma QuarterTier(income: int)
    requires 5 * CRORE <= income
    ensures var t := SlabTax(income, SLABS_OLD);
            Capped(income, SLABS_OLD, BANDS_OLD[2]) == t + AtRate(t, 2500)
  {
    var t, u := SlabTax(income, SLABS_OLD), SlabTax(2 * CRORE, SLABS_OLD);
    TaxAboveFiveCrore(income);
    hide SlabTax;
    TopRateShift(income - 5 * CRORE, 0);
    AtRateMonotone(0, u, 1500);
    Quarter(t);
    hide AtRate;
  }

  /** The 37% tier charges strictly more than the 25% tier from the first paisa above its start. */
  lemma TierChargesMore(income: int)
    requires 5 * CRORE < income
    ensures Capped(income, SLABS_OLD, BANDS_OLD[2]) < Capped(income, SLABS_OLD, BANDS_OLD[3])
  {
    QuarterTier(income);
    TaxAboveFiveCrore(income);
    BaseAtFiveCrore();
    hide SlabTax, AtRate;
    var e := income - 5 * CRORE;
    TierArithmetic(e);
  }

  lemma TierArithmetic(e: nat)
    requires 0 < e
    ensures var t := TAX_AT_5_CRORE + AtRate(e, TOP_SLAB_RATE);
            && t + AtRate(t, 2500) < t + AtRate(t, 3700)
            && t + AtRate(t, 2500) < BASE_AT_5_CRORE + e
  {
  }

  /** What both charge before cess above five crore, on a whole-paise tax. */
  lemma OldAboveFiveCrore(deduction: int, income: int)
    requires 5 * CRORE < income && ExactOld(income) % RATE_ONE == 0
    ensures var o := OracleFrom(deduction, income, ExactOld(income), 5 * LAKH, Some(12_500 * RUPEE));
            && Assess(income, OLD).taxAndSurcharge == Capped(income, SLABS_OLD, BANDS_OLD[3])
            && o.taxAfterRebate + o.surcharge == RATE_ONE * Capped(income, SLABS_OLD, BANDS_OLD[2])
  {
    var tax := SlabTax(income, SLABS_OLD);
    SlabTaxOld(income);
    ExactIsRounded(ExactOld(income));
    hide ExactOld;
    OldWellFormed();
    SlabTaxMonotone(income, income, SLABS_OLD);
    SameTaxAfterRebate(income, tax, OLD, SLABS_OLD, Some(12_500 * RUPEE));
    TaxInSurchargeRange(income, OLD, SLABS_OLD, BANDS_OLD);
    assert Covers(BANDS_OLD[3], income);
    ChargedByAnyBand(income, 3, OLD, SLABS_OLD, BANDS_OLD);
    hide WellFormed, Assess, Quantize, SlabTax, Capped, OracleSurcharge, OracleTaxAfterRebate;
    SameSurcharge(income, tax, SLABS_OLD, BANDS_OLD[2]);
  }

  lemma SameAtIncomeOld(deduction: int, income: int)
    ensures var e := Assess(income, OLD);
            var o := OracleFrom(deduction, income, ExactOld(income), 5 * LAKH, Some(12_500 * RUPEE));
            && e.slabTax == Quantize(o.slabTax)
            && (SameAssessment(o, e) <==> o.slabTax % RATE_ONE == 0 && income <= 5 * CRORE)
  {
    var exact, tax := ExactOld(income), SlabTax(income, SLABS_OLD);
    SlabTaxOld(income);
    ExactIsRounded(exact);
    assert Assess(income, OLD).slabTax == tax;
    OldWellFormed();
    if exact % RATE_ONE == 0 {
      if income <= 5 * CRORE {
        BandsMatchOld(income);
        hide WellFormed, Assess, Quantize, SlabTax, BandsMatch, ExactOld;
        SameFromBrackets(deduction, income, tax, OLD, SLABS_OLD, BANDS_OLD, Some(12_500 * RUPEE));
      } else {
        hide WellFormed, Assess, Quantize, SlabTax, ExactOld, Capped;
        OldAboveFiveCrore(deduction, income);
        TierChargesMore(income);
      }
    } else {
      hide WellFormed, Assess, Quantize, SlabTax, ExactOld, Capped;
    }
  }

  lemma OldTaxable(gross: int, section80c: int, section80d: int)
    ensures var inp := NewInput(gross, section80c, section80d);
            && StandardDeduction(inp, OLD) == Min(gross, 50_000 * RUPEE)
            && TaxableIncome(inp, OLD)
               == Max(0, gross - (Min(gross, 50_000 * RUPEE)
                                  + (Min(section80c, 150_000 * RUPEE) + Min(section80d, 25_000 * RUPEE))))
  {
    OldLimits();
    hide SectionRule, StandardRule;
  }

  lemma WholePaiseOld(income: int)
    ensures ExactOld(income) % RATE_ONE == 0 <==> WholeOld(income)
    ensures income % RUPEE == 0 ==> WholeOld(income)
  {
    hide Exact, InWholePaise;
    ExactInWholePaise(income, 10 * LAKH, 3000, 112_500);
    ExactInWholePaise(income, 5 * LAKH, 2000, 12_500);
    ExactInWholePaise(income, 250_000 * RUPEE, 500, 0);
    if income % RUPEE == 0 {
      WholeRupeesInPaise(income, 3000);
      WholeRupeesInPaise(income, 2000);
      WholeRupeesInPaise(income, 500);
    }
  }

  /** Old regime, any claims: the two agree on everything exactly when the oracle's slab tax is
      whole paise and the taxable income is at most five crore. */
  lemma EngineEqualsOracleOld(gross: int, section80c: int, section80d: int)
    ensures var e := CalculateTax(NewInput(gross, section80c, section80d), OLD);
            var o := OracleOld(gross, section80c, section80d);
            && o.taxable == e.taxable && o.standardDeduction == e.standardDeduction
            && e.assessed.slabTax == Quantize(o.slabTax)
            && (SameAssessment(o, e.assessed) <==> o.slabTax % RATE_ONE == 0 && o.taxable <= 5 * CRORE)
            && (o.slabTax % RATE_ONE == 0 <==> WholeOld(o.taxable))
            && (gross % RUPEE == 0 && section80c % RUPEE == 0 && section80d % RUPEE == 0
                ==> o.slabTax % RATE_ONE == 0)
  {
    hide WholeOld;
    hide Assess, TaxableIncome, StandardDeduction, Quantize, ExactOld, SameAssessment, OracleTaxAfterRebate;
    hide OracleRebate, OracleSurcharge, RoundByRemainder, QuantizedAtRate, SectionRule;
    OldTaxable(gross, section80c, section80d);
    var deduction := Min(gross, 50_000 * RUPEE);
    var claims := Min(section80c, 150_000 * RUPEE) + Min(section80d, 25_000 * RUPEE);
    var taxable := Max(0, gross - (deduction + claims));
    if gross % RUPEE == 0 && section80c % RUPEE == 0 && section80d % RUPEE == 0 {
      WholeAfter(gross, deduction, Min(section80c, 150_000 * RUPEE), Min(section80d, 25_000 * RUPEE));
    }
    WholePaiseOld(taxable);
    SameAtIncomeOld(deduction, taxable);
  }

  /** The rounded totals alone still meet at six whole-rupee incomes above five crore, and nowhere
      else: rounding to ten rupees hides the extra tier there. */
  lemma OldTotalsAgreeExactly(deduction: int, rupees: nat)
    ensures var income := rupees * RUPEE;
            var o := OracleFrom(deduction, income, ExactOld(income), 5 * LAKH, Some(12_500 * RUPEE));
            o.total == Assess(income, OLD).total
            <==> rupees <= 5_00_00_004 || rupees == 5_00_00_013 || rupees == 5_00_00_014
  {
    hide Assess, OracleFrom, ExactOld, AtRate, RoundToTenRupees, Quantize, WholeOld;
    var income := rupees * RUPEE;
    RemainderIs(income, rupees, 0, RUPEE);
    WholePaiseOld(income);
    if income <= 5 * CRORE {
      SameAtIncomeOld(deduction, income);
      OracleConclusion(deduction, income, ExactOld(income));
    } else {
      OldTotalsAbove(deduction, income);
      TotalsApart(rupees - 5_00_00_000);
    }
  }

  lemma OldTotalsAbove(deduction: int, income: int)
    requires 5 * CRORE < income && ExactOld(income) % RATE_ONE == 0
    ensures var o := OracleFrom(deduction, income, ExactOld(income), 5 * LAKH, Some(12_500 * RUPEE));
            var t := TAX_AT_5_CRORE + AtRate(income - 5 * CRORE, TOP_SLAB_RATE);
            var low := t + AtRate(t, 2500);
            var high := Min(t + AtRate(t, 3700), BASE_AT_5_CRORE + income - 5 * CRORE);
            && o.total == RoundToTenRupees(low + AtRate(low, 400))
            && Assess(income, OLD).total == RoundToTenRupees(high + AtRate(high, 400))
  {
    hide Assess, OracleFrom, ExactOld, Capped, AtRate, RoundToTenRupees, RoundByRemainder, QuantizedAtRate, Cess;
    OldAboveFiveCrore(deduction, income);
    OracleConclusion(deduction, income, ExactOld(income));
    AssessmentConclusion(income, OLD);
    AtCapped(income);
    var o := OracleFrom(deduction, income, ExactOld(income), 5 * LAKH, Some(12_500 * RUPEE));
    TotalOf(o, Capped(income, SLABS_OLD, BANDS_OLD[2]));
    TierChargesMore(income);
    SingleCess(Capped(income, SLABS_OLD, BANDS_OLD[3]));
  }

  lemma OracleConclusion(deduction: int, income: int, slabTax: int)
    ensures var o := OracleFrom(deduction, income, slabTax, 5 * LAKH, Some(12_500 * RUPEE));
            var base := o.taxAfterRebate + o.surcharge;
            && o.slabTax == slabTax
            && o.cess == QuantizedAtRate(base, 400)
            && 0 <= base + RATE_ONE * o.cess
            && o.total == RoundByRemainder(base + RATE_ONE * o.cess)
  {
    hide OracleSurcharge, OracleRebate, QuantizedAtRate, RoundByRemainder;
  }

  lemma AtCapped(income: int)
    requires 5 * CRORE < income
    ensures var t := TAX_AT_5_CRORE + AtRate(income - 5 * CRORE, TOP_SLAB_RATE);
            && Capped(income, SLABS_OLD, BANDS_OLD[2]) == t + AtRate(t, 2500) >= 0
            && Capped(income, SLABS_OLD, BANDS_OLD[3])
               == Min(t + AtRate(t, 3700),
                      BASE_AT_5_CRORE + income - 5 * CRORE)
  {
    QuarterTier(income);
    TaxAboveFiveCrore(income);
    TopRateShift(income - 5 * CRORE, 0);
    BaseAtFiveCrore();
    hide SlabTax;
    AtRateMonotone(0, TAX_AT_5_CRORE + AtRate(income - 5 * CRORE, TOP_SLAB_RATE), 2500);
    hide AtRate;
  }

  lemma TotalOf(o: OracleResult, base: int)
    requires o.taxAfterRebate + o.surcharge == RATE_ONE * base
    requires o.cess == QuantizedAtRate(o.taxAfterRebate + o.surcharge, 400)
    requires 0 <= base && 0 <= o.taxAfterRebate + o.surcharge + RATE_ONE * o.cess
    requires o.total == RoundByRemainder(o.taxAfterRebate + o.surcharge + RATE_ONE * o.cess)
    ensures o.total == RoundToTenRupees(base + AtRate(base, 400))
  {
    AtRateMonotone(0, base, 400);
    hide AtRate, RoundByRemainder, RoundToTenRupees, QuantizedAtRate;
    SameRate(base, 400);
    SameRounding(base + AtRate(base, 400));
  }

  /** Tax, surcharge and cess at five crore, a multiple of ten rupees. */
  const DUE_AT_5_CRORE := 1_92_56_250 * RUPEE

  lemma LowTotal(e: nat)
    ensures var t := TAX_AT_5_CRORE + AtRate(e * RUPEE, TOP_SLAB_RATE);
            var more := 30 * e + AtRate(30 * e, 2500);
            && t == TAX_AT_5_CRORE + 30 * e
            && t + AtRate(t, 2500) == BASE_AT_5_CRORE + more
  {
  }

  lemma CessShift(more: nat)
    ensures AtRate(BASE_AT_5_CRORE + more, 400) == AtRate(more, 400) + DUE_AT_5_CRORE - BASE_AT_5_CRORE
  {
    QuantizeWholePaise(more * 400, DUE_AT_5_CRORE - BASE_AT_5_CRORE);
  }

  lemma Due(more: nat)
    ensures var base := BASE_AT_5_CRORE + more;
            RoundToTenRupees(base + AtRate(base, 400))
            == DUE_AT_5_CRORE + RoundToTenRupees(more + AtRate(more, 400))
  {
    hide RoundToTenRupees;
    CessShift(more);
    AtRateMonotone(0, more, 400);
    hide AtRate, Quantize;
    RoundingShift(more + AtRate(more, 400), DUE_AT_5_CRORE / TEN_RUPEES);
  }

  lemma RoundingShift(a: nat, tens: nat)
    ensures RoundToTenRupees(a + tens * TEN_RUPEES) == RoundToTenRupees(a) + tens * TEN_RUPEES
  {
    RoundToTenRupeesMonotone(a, a + tens * TEN_RUPEES);
    hide RoundToTenRupees;
  }

  lemma QuarterOf(a: nat)
    ensures 0 <= 4 * AtRate(a, 2500) <= a + 2
  {
  }

  lemma RateGap(t: nat)
    requires TAX_AT_5_CRORE <= t
    ensures AtRate(t, 2500) + 10 * LAKH <= AtRate(t, 3700)
  {
  }

  lemma FarApart(a: nat, b: nat)
    requires a + TEN_RUPEES <= b
    ensures RoundToTenRupees(a + AtRate(a, 400)) < RoundToTenRupees(b + AtRate(b, 400))
  {
    AtRateMonotone(a, b, 400);
  }

  lemma SmallSteps(e: nat)
    requires 0 < e <= 15
    ensures var more := 30 * e + AtRate(30 * e, 2500);
            RoundToTenRupees(more + AtRate(more, 400)) == RoundToTenRupees(e * RUPEE + AtRate(e * RUPEE, 400))
            <==> e <= 4 || e == 13 || e == 14
  {
    hide RoundToTenRupees;
    var more := 30 * e + AtRate(30 * e, 2500);
    SmallDues(e, more);
    hide AtRate;
    TenRupeeSteps(more + AtRate(more, 400));
    TenRupeeSteps(e * RUPEE + AtRate(e * RUPEE, 400));
  }

  lemma SmallDues(e: nat, more: nat)
    requires more == 30 * e + AtRate(30 * e, 2500) && e <= 15
    ensures 39 * e - 1 <= more + AtRate(more, 400) <= 39 * e + 2
    ensures e * RUPEE + AtRate(e * RUPEE, 400) == 104 * e
  {
  }

  lemma TenRupeeSteps(v: nat)
    ensures v < 500 <==> RoundToTenRupees(v) == 0
    ensures 500 <= v < 1500 <==> RoundToTenRupees(v) == 1000
  {
  }

  /** `e` rupees above five crore: the two rounded totals. */
  lemma TotalsApart(e: nat)
    requires 0 < e
    ensures var t := TAX_AT_5_CRORE + AtRate(e * RUPEE, TOP_SLAB_RATE);
            var low := t + AtRate(t, 2500);
            var high := Min(t + AtRate(t, 3700),
                            BASE_AT_5_CRORE + e * RUPEE);
            RoundToTenRupees(low + AtRate(low, 400)) == RoundToTenRupees(high + AtRate(high, 400))
            <==> e <= 4 || e == 13 || e == 14
  {
    hide AtRate, RoundToTenRupees;
    LowTotal(e);
    QuarterOf(30 * e);
    var t := TAX_AT_5_CRORE + 30 * e;
    var more := 30 * e + AtRate(30 * e, 2500);
    var low := t + AtRate(t, 2500);
    RateGap(t);
    var high := Min(t + AtRate(t, 3700), BASE_AT_5_CRORE + e * RUPEE);
    if e <= 15 {
      Due(more);
      Due(e * RUPEE);
      SmallSteps(e);
    } else {
      FarApart(low, high);
    }
  }

  /** With paise in the salary the totals can differ: at a gross of 16,72,275.64 rupees the
      engine charges 1,24,380 and the oracle, which never rounded the bracket tax, 1,24,370. */
  lemma TotalsDifferOnPaise()
    ensures var gross := 16_72_275 * RUPEE + 64;
            && CalculateTax(NewInput(gross, 0, 0), NEW_2025).assessed.total == 1_24_380 * RUPEE
            && OracleNew2025(gross).total == 1_24_370 * RUPEE
  {
    var gross := 16_72_275 * RUPEE + 64;
    var income := 15_97_275 * RUPEE + 64;
    EngineAtPaise();
    OracleAtPaise();
    hide Assess, OracleFrom, ExactNew2025;
    NewTaxable(gross, 0, 0, NEW_2025);
    hide TaxableIncome, StandardDeduction;
  }

  lemma EngineAtPaise()
    ensures Assess(15_97_275 * RUPEE + 64, NEW_2025).total == 1_24_380 * RUPEE
  {
    var income := 15_97_275 * RUPEE + 64;
    AssessmentConclusion(income, NEW_2025);
    New2025WellFormed();
    SlabTaxAtPaise();
    hide Assess, SlabTax, ExactNew2025, Quantize, Cess, RoundToTenRupees, AtRate;
    TaxAfterRebate(income, NEW_2025, SLABS_NEW_2025);
    ChargedBelowBands(income, NEW_2025, SLABS_NEW_2025, BANDS_NEW);
    hide WellFormed;
    SingleCess(1_19_591 * RUPEE + 35);
    CessAtPaise();
  }

  lemma SlabTaxAtPaise()
    ensures SlabTax(15_97_275 * RUPEE + 64, SLABS_NEW_2025) == 1_19_591 * RUPEE + 35
  {
    SlabTaxNew2025(15_97_275 * RUPEE + 64);
    hide SlabTax;
  }

  lemma CessAtPaise()
    ensures var base := 1_19_591 * RUPEE + 35;
            RoundToTenRupees(base + AtRate(base, 400)) == 1_24_380 * RUPEE
  {
  }

  lemma OracleAtPaise()
    ensures var income := 15_97_275 * RUPEE + 64;
            OracleFrom(75_000 * RUPEE, income, ExactNew2025(income), 12 * LAKH, None).total == 1_24_370 * RUPEE
  {
  }
}
