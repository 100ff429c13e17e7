/** The seeded rule sets: what their slabs charge, and that they are well formed. */
module TaxSeeds {
  import opened Money
  import opened TaxRules
  import opened TaxEngine
  import opened TaxLaws

  lemma SlabTaxHead(income: int, slab: Slab, rest: seq<Slab>)
    ensures SlabTax(income, [slab] + rest) == TaxInSlab(income, slab) + SlabTax(income, rest)
  {
    assert ([slab] + rest)[1..] == rest;
  }

  lemma SlabTaxOf4(income: int, s: seq<Slab>)
    requires |s| == 4
    ensures SlabTax(income, s) ==
            TaxInSlab(income, s[0]) + TaxInSlab(income, s[1]) + TaxInSlab(income, s[2]) + TaxInSlab(income, s[3])
  {
    assert s == [s[0]] + ([s[1]] + ([s[2]] + ([s[3]] + [])));
    SlabTaxHead(income, s[3], []);
    SlabTaxHead(income, s[2], [s[3]] + []);
    SlabTaxHead(income, s[1], [s[2]] + ([s[3]] + []));
    SlabTaxHead(income, s[0], [s[1]] + ([s[2]] + ([s[3]] + [])));
  }

  lemma SlabTaxOf3(income: int, s: seq<Slab>)
    requires |s| == 3
    ensures SlabTax(income, s) == TaxInSlab(income, s[0]) + TaxInSlab(income, s[1]) + TaxInSlab(income, s[2])
  {
    assert s == [s[0]] + ([s[1]] + ([s[2]] + []));
    SlabTaxHead(income, s[2], []);
    SlabTaxHead(income, s[1], [s[2]] + []);
    SlabTaxHead(income, s[0], [s[1]] + ([s[2]] + []));
  }

  lemma SlabTaxFrom(income: int, s: seq<Slab>, k: nat)
    requires k <= |s|
    ensures SlabTax(income, s) == SlabTax(income, s[..k]) + SlabTax(income, s[k..])
  {
    assert s == s[..k] + s[k..];
    SlabTaxSplit(income, s[..k], s[k..]);
  }

  /** The exact tax on `income` of slabs that start at `from`: no rounding, in ten-thousandths
      of a paisa. `paid` is the whole-rupee tax of the slabs below. */
  function Exact(income: int, from: int, rate: int, paid: int): int {
    (income - from) * rate + paid * RUPEE * RATE_ONE
  }

  /** The bracket table of the 2025-26 new regime, unrounded. */
  function ExactNew2025(income: int): int {
    if income > 24 * LAKH then Exact(income, 24 * LAKH, 3000, 300_000)
    else if income > 20 * LAKH then Exact(income, 20 * LAKH, 2500, 200_000)
    else if income > 16 * LAKH then Exact(income, 16 * LAKH, 2000, 120_000)
    else if income > 12 * LAKH then Exact(income, 12 * LAKH, 1500, 60_000)
    else if income > 8 * LAKH then Exact(income, 8 * LAKH, 1000, 20_000)
    else if income > 4 * LAKH then Exact(income, 4 * LAKH, 500, 0)
    else 0
  }

  function ExactNew2024(income: int): int {
    if income > 15 * LAKH then Exact(income, 15 * LAKH, 3000, 140_000)
    else if income > 12 * LAKH then Exact(income, 12 * LAKH, 2000, 80_000)
    else if income > 10 * LAKH then Exact(income, 10 * LAKH, 1500, 50_000)
    else if income > 7 * LAKH then Exact(income, 7 * LAKH, 1000, 20_000)
    else if income > 3 * LAKH then Exact(income, 3 * LAKH, 500, 0)
    else 0
  }

  function ExactOld(income: int): int {
    if income > 10 * LAKH then Exact(income, 10 * LAKH, 3000, 112_500)
    else if income > 5 * LAKH then Exact(income, 5 * LAKH, 2000, 12_500)
    else if income > 250_000 * RUPEE then Exact(income, 250_000 * RUPEE, 500, 0)
    else 0
  }

  /** A slab charges nothing below its start, the rounded part inside it, and all above it. */
  lemma ClosedSlab(income: int, s: Slab, all: nat)
    requires s.to.Some? && s.from < s.to.value
    requires (s.to.value - s.from) * s.rate == RATE_ONE * all
    ensures TaxInSlab(income, s) ==
            if income <= s.from then 0
            else if income <= s.to.value then AtRate(income - s.from, s.rate)
            else all
  {
  }

  lemma OpenSlab(income: int, s: Slab)
    requires s.to == None
    ensures TaxInSlab(income, s) == if income <= s.from then 0 else AtRate(income - s.from, s.rate)
  {
  }

  lemma ExactRounded(income: int, from: int, rate: nat, paid: nat)
    requires from <= income
    ensures Quantize(Exact(income, from, rate, paid)) == AtRate(income - from, rate) + paid * RUPEE
  {
    MulMonotone(0, income - from, rate);
    QuantizeWholePaise((income - from) * rate, paid * RUPEE);
  }

  /** The rounded bracket loop charges the exact table, rounded once, at every paisa. */
  lemma SlabTaxNew2025(income: int)
    ensures SlabTax(income, SLABS_NEW_2025) == Quantize(ExactNew2025(income))
  {
    hide AtRate, Quantize, TaxInSlab, Exact, SlabTax;
    var s := SLABS_NEW_2025;
    SlabTaxFrom(income, s, 4);
    SlabTaxOf4(income, s[..4]);
    SlabTaxOf3(income, s[4..]);
    ClosedSlab(income, s[0], 0);
    ClosedSlab(income, s[1], 20_000 * RUPEE);
    ClosedSlab(income, s[2], 40_000 * RUPEE);
    ClosedSlab(income, s[3], 60_000 * RUPEE);
    ClosedSlab(income, s[4], 80_000 * RUPEE);
    ClosedSlab(income, s[5], 100_000 * RUPEE);
    OpenSlab(income, s[6]);
    if income > 24 * LAKH { ExactRounded(income, 24 * LAKH, 3000, 300_000); }
    else if income > 20 * LAKH { ExactRounded(income, 20 * LAKH, 2500, 200_000); }
    else if income > 16 * LAKH { ExactRounded(income, 16 * LAKH, 2000, 120_000); }
    else if income > 12 * LAKH { ExactRounded(income, 12 * LAKH, 1500, 60_000); }
    else if income > 8 * LAKH { ExactRounded(income, 8 * LAKH, 1000, 20_000); }
    else if income > 4 * LAKH { ExactRounded(income, 4 * LAKH, 500, 0); }
    else { AtRateOfZeroRate(income); }
  }

  lemma AtRateOfZeroRate(amount: int)
    ensures AtRate(amount, 0) == 0 && Quantize(0) == 0
  {
  }

  lemma SlabTaxNew2024(income: int)
    ensures SlabTax(income, SLABS_NEW_2024) == Quantize(ExactNew2024(income))
  {
    hide AtRate, Quantize, TaxInSlab, Exact, SlabTax;
    var s := SLABS_NEW_2024;
    SlabTaxFrom(income, s, 3);
    SlabTaxOf3(income, s[..3]);
    SlabTaxOf3(income, s[3..]);
    ClosedSlab(income, s[0], 0);
    ClosedSlab(income, s[1], 20_000 * RUPEE);
    ClosedSlab(income, s[2], 30_000 * RUPEE);
    ClosedSlab(income, s[3], 30_000 * RUPEE);
    ClosedSlab(income, s[4], 60_000 * RUPEE);
    OpenSlab(income, s[5]);
    if income > 15 * LAKH { ExactRounded(income, 15 * LAKH, 3000, 140_000); }
    else if income > 12 * LAKH { ExactRounded(income, 12 * LAKH, 2000, 80_000); }
    else if income > 10 * LAKH { ExactRounded(income, 10 * LAKH, 1500, 50_000); }
    else if income > 7 * LAKH { ExactRounded(income, 7 * LAKH, 1000, 20_000); }
    else if income > 3 * LAKH { ExactRounded(income, 3 * LAKH, 500, 0); }
    else { AtRateOfZeroRate(income); }
  }

  lemma SlabTaxOld(income: int)
    ensures SlabTax(income, SLABS_OLD) == Quantize(ExactOld(income))
  {
    hide AtRate, Quantize, TaxInSlab, Exact, SlabTax;
    var s := SLABS_OLD;
    SlabTaxOf4(income, s);
    ClosedSlab(income, s[0], 0);
    ClosedSlab(income, s[1], 12_500 * RUPEE);
    ClosedSlab(income, s[2], 100_000 * RUPEE);
    OpenSlab(income, s[3]);
    if income > 10 * LAKH { ExactRounded(income, 10 * LAKH, 3000, 112_500); }
    else if income > 5 * LAKH { ExactRounded(income, 5 * LAKH, 2000, 12_500); }
    else if income > 250_000 * RUPEE { ExactRounded(income, 250_000 * RUPEE, 500, 0); }
    else { AtRateOfZeroRate(income); }
  }

  /** The two seeded band tables fit any slabs with the given tax on their thresholds. */
  lemma SeededBandsNew(slabs: seq<Slab>, paid: nat)
    requires SlabTax(50 * LAKH, slabs) == paid && paid <= 50 * LAKH
    requires SlabTax(CRORE, slabs) == paid + 15 * LAKH
    requires SlabTax(2 * CRORE, slabs) == paid + 45 * LAKH
    ensures BandChain(BANDS_NEW, slabs)
  {
    hide SlabTax, AtRate, FullSurcharge, ReliefCap;
    BandWornOff(BANDS_NEW[0], CRORE, slabs, paid, 15 * LAKH);
    BandWornOff(BANDS_NEW[1], 2 * CRORE, slabs, paid + 15 * LAKH, 30 * LAKH);
  }

  lemma SeededBandsOld(slabs: seq<Slab>, paid: nat)
    requires SlabTax(50 * LAKH, slabs) == paid && paid <= 50 * LAKH
    requires SlabTax(CRORE, slabs) == paid + 15 * LAKH
    requires SlabTax(2 * CRORE, slabs) == paid + 45 * LAKH
    requires SlabTax(5 * CRORE, slabs) == paid + 135 * LAKH
    ensures BandChain(BANDS_OLD, slabs)
  {
    hide SlabTax, AtRate, FullSurcharge, ReliefCap;
    BandWornOff(BANDS_OLD[0], CRORE, slabs, paid, 15 * LAKH);
    BandWornOff(BANDS_OLD[1], 2 * CRORE, slabs, paid + 15 * LAKH, 30 * LAKH);
    BandWornOff(BANDS_OLD[2], 5 * CRORE, slabs, paid + 45 * LAKH, 90 * LAKH);
  }

  /** The relief of a band has run out at its end when the surcharge there is below 70% of its
      width: the cap climbs a rupee a rupee and the tax 30 paise. */
  lemma BandWornOff(band: SurchargeBand, end: int, slabs: seq<Slab>, paid: nat, more: nat)
    requires SlabTax(band.from, slabs) == paid && SlabTax(end, slabs) == paid + more
    requires band.rate <= 2500 && paid + more + (paid + more + 4) / 4 <= paid + end - band.from
    ensures FullSurcharge(end, slabs, band) <= ReliefCap(end, slabs, band)
  {
    hide SlabTax;
    AtRateMonotoneInRate(paid + more, band.rate, 2500);
    AtRateMonotone(0, paid, PreviousRate(band.from));
    Quarter(paid + more);
    hide AtRate;
  }

  lemma Quarter(a: nat)
    ensures AtRate(a, 2500) <= (a + 4) / 4
  {
  }

  /** One rebate row whose tax is wiped out, and slabs and bands stored in ascending order. */
  lemma InChainOrder(rules: RuleSet, slabs: seq<Slab>, bands: seq<SurchargeBand>)
    requires rules.slabs == slabs && rules.surcharges == bands && bands != []
    requires SlabChain(slabs) && BandChain(bands, slabs) && slabs[0].from == 0 && TopFrom(slabs) <= bands[0].from
    requires |rules.rebates| == 1 && rules.rebates[0].marginalRelief
    requires 0 <= rules.rebates[0].threshold && rules.rebates[0].threshold % RUPEE == 0
    requires SlabTax(rules.rebates[0].threshold, slabs) <= rules.rebates[0].maxRebate
    requires SlabTax(bands[0].from, slabs) <= bands[0].from - rules.rebates[0].threshold
    ensures WellFormed(rules, slabs, bands)
  {
    hide SlabTax, SlabChain, BandChain;
  }

  lemma ChainNew2025()
    ensures SlabChain(SLABS_NEW_2025) && WholePercentSlabs(SLABS_NEW_2025)
  {
  }

  lemma ThresholdTaxNew2025()
    ensures SlabTax(12 * LAKH, SLABS_NEW_2025) == 60_000 * RUPEE
    ensures SlabTax(50 * LAKH, SLABS_NEW_2025) == 1_080_000 * RUPEE
    ensures SlabTax(CRORE, SLABS_NEW_2025) == 1_080_000 * RUPEE + 15 * LAKH
    ensures SlabTax(2 * CRORE, SLABS_NEW_2025) == 1_080_000 * RUPEE + 45 * LAKH
  {
    hide SlabTax;
    SlabTaxNew2025(12 * LAKH);
    SlabTaxNew2025(50 * LAKH);
    SlabTaxNew2025(CRORE);
    SlabTaxNew2025(2 * CRORE);
  }

  lemma New2025WellFormed()
    ensures WellFormed(NEW_2025, SLABS_NEW_2025, BANDS_NEW) && WholePercentSlabs(SLABS_NEW_2025)
  {
    hide SlabTax, AtRate, BandChain, SlabChain, WholePercentSlabs;
    ChainNew2025();
    ThresholdTaxNew2025();
    SeededBandsNew(SLABS_NEW_2025, 1_080_000 * RUPEE);
    InChainOrder(NEW_2025, SLABS_NEW_2025, BANDS_NEW);
  }

  lemma ChainNew2024()
    ensures SlabChain(SLABS_NEW_2024) && WholePercentSlabs(SLABS_NEW_2024)
  {
  }

  lemma ThresholdTaxNew2024()
    ensures SlabTax(7 * LAKH, SLABS_NEW_2024) == 20_000 * RUPEE
    ensures SlabTax(50 * LAKH, SLABS_NEW_2024) == 1_190_000 * RUPEE
    ensures SlabTax(CRORE, SLABS_NEW_2024) == 1_190_000 * RUPEE + 15 * LAKH
    ensures SlabTax(2 * CRORE, SLABS_NEW_2024) == 1_190_000 * RUPEE + 45 * LAKH
  {
    hide SlabTax;
    SlabTaxNew2024(7 * LAKH);
    SlabTaxNew2024(50 * LAKH);
    SlabTaxNew2024(CRORE);
    SlabTaxNew2024(2 * CRORE);
  }

  lemma New2024WellFormed()
    ensures WellFormed(NEW_2024, SLABS_NEW_2024, BANDS_NEW) && WholePercentSlabs(SLABS_NEW_2024)
  {
    hide SlabTax, AtRate, BandChain, SlabChain, WholePercentSlabs;
    ChainNew2024();
    ThresholdTaxNew2024();
    SeededBandsNew(SLABS_NEW_2024, 1_190_000 * RUPEE);
    InChainOrder(NEW_2024, SLABS_NEW_2024, BANDS_NEW);
  }

  lemma ChainOld()
    ensures SlabChain(SLABS_OLD) && WholePercentSlabs(SLABS_OLD)
  {
  }

  lemma ThresholdTaxOld()
    ensures SlabTax(5 * LAKH, SLABS_OLD) == 12_500 * RUPEE
    ensures SlabTax(50 * LAKH, SLABS_OLD) == 1_312_500 * RUPEE
    ensures SlabTax(CRORE, SLABS_OLD) == 1_312_500 * RUPEE + 15 * LAKH
    ensures SlabTax(2 * CRORE, SLABS_OLD) == 1_312_500 * RUPEE + 45 * LAKH
    ensures SlabTax(5 * CRORE, SLABS_OLD) == 1_312_500 * RUPEE + 135 * LAKH
  {
    hide SlabTax;
    SlabTaxOld(5 * LAKH);
    SlabTaxOld(50 * LAKH);
    SlabTaxOld(CRORE);
    SlabTaxOld(2 * CRORE);
    SlabTaxOld(5 * CRORE);
  }

  lemma OldWellFormed()
    ensures WellFormed(OLD, SLABS_OLD, BANDS_OLD) && WholePercentSlabs(SLABS_OLD)
  {
    hide SlabTax, AtRate, BandChain, SlabChain, WholePercentSlabs;
    ChainOld();
    ThresholdTaxOld();
    SeededBandsOld(SLABS_OLD, 1_312_500 * RUPEE);
    InChainOrder(OLD, SLABS_OLD, BANDS_OLD);
  }

  // ----- What the laws say of the seeded rules

  predicate Seeded(rules: RuleSet) { rules == NEW_2025 || rules == NEW_2024 || rules == OLD }

  lemma SeededWellFormed(rules: RuleSet)
    requires Seeded(rules)
    ensures WellFormed(rules, rules.slabs, rules.surcharges) && WholePercentSlabs(rules.slabs)
    ensures rules.cessRates == [400]
  {
    New2025WellFormed();
    New2024WellFormed();
    OldWellFormed();
    hide WellFormed, WholePercentSlabs;
  }

  /** In every seeded year and regime the tax never falls as the gross salary rises, to the paisa. */
  lemma SeededTaxMonotone(a: TaxInput, b: TaxInput, rules: RuleSet)
    requires Seeded(rules) && a.gross <= b.gross && b == a.(gross := b.gross)
    ensures 0 <= CalculateTax(a, rules).assessed.total <= CalculateTax(b, rules).assessed.total
  {
    SeededWellFormed(rules);
    hide WellFormed, WholePercentSlabs, Seeded, CalculateTax;
    TaxMonotoneInGross(a, b, rules, rules.slabs, rules.surcharges);
  }

  /** In every seeded year and regime, at any paisa: extra taxable income adds at most itself to tax
      and surcharge, but for the slack, and 1.04 times that and one rounding to the total. */
  lemma SeededReliefBound(x: int, y: int, rules: RuleSet)
    requires Seeded(rules) && x <= y
    ensures Assess(y, rules).taxAndSurcharge - Assess(x, rules).taxAndSurcharge <= y - x + Slack(x, y)
    ensures 100 * (Assess(y, rules).total - Assess(x, rules).total)
            <= 104 * (y - x + Slack(x, y)) + 100 * TEN_RUPEES
  {
    SeededWellFormed(rules);
    hide WellFormed, WholePercentSlabs, Seeded, Assess;
    ReliefBound(x, y, rules, rules.slabs, rules.surcharges);
    TotalReliefBound(x, y, rules, rules.slabs, rules.surcharges);
  }

  // ----- Where one paisa costs two

  /** The tax at three crore in a seeded rule set. */
  function TaxAtThreeCrore(rules: RuleSet): nat {
    if rules == NEW_2025 then 85_80_000 * RUPEE else if rules == NEW_2024 then 86_90_000 * RUPEE else 88_12_500 * RUPEE
  }

  lemma SlabTaxAboveThreeCrore(rules: RuleSet, paise: nat, rounded: nat)
    requires Seeded(rules) && ((paise == 4 && rounded == 1) || (paise == 5 && rounded == 2))
    ensures SlabTax(3 * CRORE + paise, rules.slabs) == TaxAtThreeCrore(rules) + rounded
    ensures SlabTax(2 * CRORE, rules.slabs) == TaxAtThreeCrore(rules) - 30 * LAKH
  {
    SlabTaxNew2025(3 * CRORE + paise);
    SlabTaxNew2024(3 * CRORE + paise);
    SlabTaxOld(3 * CRORE + paise);
    ThresholdTaxNew2025();
    ThresholdTaxNew2024();
    ThresholdTaxOld();
    hide SlabTax;
  }

  /** Some paise above three crore, the full surcharge of 25% is charged on the rounded tax. */
  lemma FullSurchargeAt(rules: RuleSet, paise: nat, rounded: nat)
    requires Seeded(rules) && ((paise == 4 && rounded == 1) || (paise == 5 && rounded == 2))
    ensures var t := TaxAtThreeCrore(rules) + rounded;
            Assess(3 * CRORE + paise, rules).taxAndSurcharge == t + AtRate(t, 2500)
  {
    hide Assess, SlabTax, AtRate, WellFormed, Capped;
    var income, t := 3 * CRORE + paise, TaxAtThreeCrore(rules) + rounded;
    SeededWellFormed(rules);
    assert Covers(rules.surcharges[2], income);
    ChargedByAnyBand(income, 2, rules, rules.slabs, rules.surcharges);
    SlabTaxAboveThreeCrore(rules, paise, rounded);
    BelowCap(income, t, rules.slabs, rules.surcharges[2]);
  }

  lemma BelowCap(income: int, t: nat, slabs: seq<Slab>, band: SurchargeBand)
    requires band.from == 2 * CRORE && band.rate == 2500
    requires SlabTax(income, slabs) == t && 0 <= SlabTax(2 * CRORE, slabs)
    requires t + (t + 4) / 4 <= SlabTax(2 * CRORE, slabs) + income - 2 * CRORE
    ensures Capped(income, slabs, band) == t + AtRate(t, 2500)
  {
    hide SlabTax;
    Quarter(t);
    AtRateMonotone(0, SlabTax(2 * CRORE, slabs), 1500);
    hide AtRate;
  }

  lemma SurchargeAtTie(rupees: nat)
    ensures AtRate(rupees * RUPEE + 1, 2500) + 1 == AtRate(rupees * RUPEE + 2, 2500)
  {
    QuantizeWholePaise(2500, 25 * rupees);
    QuantizeWholePaise(5000, 25 * rupees);
    assert (rupees * RUPEE + 1) * 2500 == 2500 + 25 * rupees * RATE_ONE;
    assert (rupees * RUPEE + 2) * 2500 == 5000 + 25 * rupees * RATE_ONE;
  }

  /** At three crore and four paise, one paisa more rounds both the tax and the surcharge up. */
  lemma OnePaisaCanCostTwo(rules: RuleSet)
    requires Seeded(rules)
    ensures var x := 3 * CRORE + 4;
            Assess(x + 1, rules).taxAndSurcharge == Assess(x, rules).taxAndSurcharge + 2
  {
    hide Assess;
    FullSurchargeAt(rules, 4, 1);
    FullSurchargeAt(rules, 5, 2);
    assert TaxAtThreeCrore(rules) == TaxAtThreeCrore(rules) / RUPEE * RUPEE;
    SurchargeAtTie(TaxAtThreeCrore(rules) / RUPEE);
    hide AtRate, TaxAtThreeCrore;
  }

  /** The bound of one for one holds, for every income, of exactly the steps that are not one paisa. */
  lemma OneForOneExactly(rules: RuleSet, step: nat)
    requires Seeded(rules)
    ensures (forall x :: Assess(x + step, rules).taxAndSurcharge - Assess(x, rules).taxAndSurcharge <= step)
            <==> step != 1
  {
    hide Assess, Seeded;
    if step == 1 {
      OnePaisaCanCostTwo(rules);
    } else {
      forall x ensures Assess(x + step, rules).taxAndSurcharge - Assess(x, rules).taxAndSurcharge <= step {
        SeededReliefBound(x, x + step, rules);
      }
    }
  }
}
