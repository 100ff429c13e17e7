/**
 Laws of the pipeline for every well-formed rule set: the threshold shortcut, independence of
 row order, monotonicity in the gross salary and the marginal-relief bound, both down to the last paisa.
 */
module TaxLaws {
  import opened Money
  import opened TaxRules
  import opened TaxEngine

  // ----- Well-formed rule sets

  /** Slabs in ascending order that meet end to end and are open above at the top rate. */
  ghost predicate SlabChain(slabs: seq<Slab>) {
    && slabs != []
    && (forall i :: 0 <= i < |slabs| ==> slabs[i].from % RUPEE == 0 && slabs[i].rate <= TOP_SLAB_RATE)
    && (forall i :: 0 <= i < |slabs| - 1 ==>
          slabs[i].to == Some(slabs[i + 1].from) && slabs[i].from < slabs[i + 1].from)
    && slabs[|slabs| - 1].to == None
    && slabs[|slabs| - 1].rate == TOP_SLAB_RATE
  }

  function TopFrom(slabs: seq<Slab>): int
    requires slabs != []
  {
    slabs[|slabs| - 1].from
  }

  /** The first rebate reaches furthest, wipes out the tax at its threshold, and carries relief. */
  ghost predicate RebatesFit(rebates: seq<Rebate>, slabs: seq<Slab>) {
    rebates != [] ==>
      && rebates[0].marginalRelief
      && 0 <= rebates[0].threshold
      && rebates[0].threshold % RUPEE == 0
      && SlabTax(rebates[0].threshold, slabs) <= rebates[0].maxRebate
      && forall r :: r in rebates ==> r.threshold <= rebates[0].threshold
  }

  /** Tax and surcharge at the most the marginal relief of `band` lets it be. */
  function ReliefCap(income: int, slabs: seq<Slab>, band: SurchargeBand): int {
    var onThreshold := SlabTax(band.from, slabs);
    onThreshold + AtRate(onThreshold, PreviousRate(band.from)) + income - band.from
  }

  function FullSurcharge(income: int, slabs: seq<Slab>, band: SurchargeBand): int {
    SlabTax(income, slabs) + AtRate(SlabTax(income, slabs), band.rate)
  }

  /** Tax and surcharge after relief, in `band`. */
  function Capped(income: int, slabs: seq<Slab>, band: SurchargeBand): int {
    Min(FullSurcharge(income, slabs, band), ReliefCap(income, slabs, band))
  }

  /**
   Bands in ascending order that meet end to end and are open above, whose rates climb as the
   engine's previous-tier table says, and whose relief has run out before the next band begins.
   */
  ghost predicate BandChain(bands: seq<SurchargeBand>, slabs: seq<Slab>) {
    && (forall b :: b in bands ==>
          && b.marginalRelief && b.from % RUPEE == 0
          && PreviousRate(b.from) <= b.rate <= RATE_ONE)
    && (forall i :: 0 <= i < |bands| - 1 ==>
          && bands[i].to == Some(bands[i + 1].from)
          && bands[i].from < bands[i + 1].from
          && PreviousRate(bands[i + 1].from) == bands[i].rate
          && FullSurcharge(bands[i + 1].from, slabs, bands[i]) <= ReliefCap(bands[i + 1].from, slabs, bands[i]))
    && (bands != [] ==> bands[|bands| - 1].to == None && PreviousRate(bands[0].from) == 0)
  }

  /** The rebate's relief has run out before the first surcharge, which lies in the top slab. */
  ghost predicate SurchargeAfterRebate(rebates: seq<Rebate>, bands: seq<SurchargeBand>, slabs: seq<Slab>)
    requires slabs != []
  {
    bands != [] ==>
      && TopFrom(slabs) <= bands[0].from
      && (rebates != [] ==> SlabTax(bands[0].from, slabs) <= bands[0].from - rebates[0].threshold)
  }

  /** The rule set holds exactly the rows of a slab chain and a band chain, in any order. */
  ghost predicate WellFormed(rules: RuleSet, slabs: seq<Slab>, bands: seq<SurchargeBand>) {
    && multiset(rules.slabs) == multiset(slabs)
    && multiset(rules.surcharges) == multiset(bands)
    && SlabChain(slabs) && slabs[0].from == 0
    && RebatesFit(rules.rebates, slabs)
    && BandChain(bands, slabs)
    && SurchargeAfterRebate(rules.rebates, bands, slabs)
  }

  // ----- Slab tax

  lemma TaxableBounds(x: int, y: int, s: Slab)
    requires x <= y && (s.to.Some? ==> s.from < s.to.value)
    ensures 0 <= TaxableInSlab(x, s) <= TaxableInSlab(y, s)
    ensures s.to == None ==> TaxableInSlab(y, s) - TaxableInSlab(x, s) == Max(y, s.from) - Max(x, s.from)
    ensures s.to.Some? ==> TaxableInSlab(y, s) - TaxableInSlab(x, s) + Max(y, s.to.value) - Max(x, s.to.value)
                           == Max(y, s.from) - Max(x, s.from)
    ensures s.from % RUPEE == 0 && (s.to.Some? ==> s.to.value % RUPEE == 0) && x % RUPEE == 0
            ==> TaxableInSlab(x, s) % RUPEE == 0
  {
  }

  lemma FirstSlab(slabs: seq<Slab>)
    requires SlabChain(slabs)
    ensures slabs[0].to == if |slabs| == 1 then None else Some(slabs[1].from)
    ensures |slabs| > 1 ==> slabs[0].from < slabs[1].from && SlabChain(slabs[1..])
    ensures |slabs| > 1 ==> slabs[1].from <= TopFrom(slabs) == TopFrom(slabs[1..])
  {
    if |slabs| > 1 {
      assert slabs[0].to == Some(slabs[0 + 1].from) && slabs[0].from < slabs[0 + 1].from;
      FirstSlab(slabs[1..]);
    }
  }

  lemma {:induction false} SlabTaxMonotone(x: int, y: int, slabs: seq<Slab>)
    requires SlabChain(slabs) && x <= y
    ensures 0 <= SlabTax(x, slabs) <= SlabTax(y, slabs)
  {
    FirstSlab(slabs);
    TaxableBounds(x, y, slabs[0]);
    AtRateMonotone(TaxableInSlab(x, slabs[0]), TaxableInSlab(y, slabs[0]), slabs[0].rate);
    if |slabs| > 1 {
      SlabTaxMonotone(x, y, slabs[1..]);
    }
  }

  /** Above the top slab's start the tax grows by the rounded top rate alone. */
  lemma {:induction false} SlabTaxInTopSlab(x: int, slabs: seq<Slab>)
    requires SlabChain(slabs) && TopFrom(slabs) <= x
    ensures SlabTax(x, slabs) == SlabTax(TopFrom(slabs), slabs) + AtRate(x - TopFrom(slabs), TOP_SLAB_RATE)
  {
    hide AtRate;
    FirstSlab(slabs);
    TopRateShift(0, 0);
    if |slabs| > 1 {
      SlabTaxInTopSlab(x, slabs[1..]);
    }
  }

  /** Splitting off whole rupees loses nothing at the top rate. */
  lemma TopRateShift(a: nat, b: nat)
    requires b % RUPEE == 0
    ensures AtRate(a + b, TOP_SLAB_RATE) == AtRate(a, TOP_SLAB_RATE) + AtRate(b, TOP_SLAB_RATE)
    ensures 10 * AtRate(b, TOP_SLAB_RATE) == 3 * b
    ensures 0 <= AtRate(a, TOP_SLAB_RATE) <= a
  {
    var m := b / RUPEE;
    QuantizeWholePaise(a * TOP_SLAB_RATE, 30 * m);
    QuantizeWholePaise(0, 30 * m);
    AtRateOfZero(TOP_SLAB_RATE);
    hide Quantize;
    assert b * TOP_SLAB_RATE == 0 + 30 * m * RATE_ONE && 3 * b == 10 * (30 * m);
    assert (a + b) * TOP_SLAB_RATE == a * TOP_SLAB_RATE + 30 * m * RATE_ONE;
  }

  /** The engine's shortcut is exact: taking the rounded 30% of the excess off the tax on the
      whole income leaves the slab tax at the threshold, for every paise income above it. */
  lemma ThresholdShortcut(income: int, threshold: int, slabs: seq<Slab>)
    requires SlabChain(slabs) && TopFrom(slabs) <= threshold <= income && threshold % RUPEE == 0
    ensures TaxOnThreshold(SlabTax(income, slabs), income - threshold) == SlabTax(threshold, slabs)
  {
    hide AtRate, SlabTax;
    SlabTaxInTopSlab(income, slabs);
    SlabTaxInTopSlab(threshold, slabs);
    TopRateShift(income - threshold, threshold - TopFrom(slabs));
    SlabTaxMonotone(threshold, income, slabs);
  }

  // ----- Rebate

  /** Nothing is due up to the rebate threshold, and just above it no more than the excess. */
  lemma TaxAfterRebate(income: int, rules: RuleSet, slabs: seq<Slab>)
    requires SlabChain(slabs) && multiset(rules.slabs) == multiset(slabs) && RebatesFit(rules.rebates, slabs)
    ensures Assess(income, rules).taxAfterRebate ==
            if rules.rebates == [] then SlabTax(income, slabs)
            else if income <= rules.rebates[0].threshold then 0
            else Min(SlabTax(income, slabs), income - rules.rebates[0].threshold)
  {
    SlabTaxPermutation(income, rules.slabs, slabs);
    SlabTaxMonotone(income, income, slabs);
    if rules.rebates != [] {
      var t := rules.rebates[0].threshold;
      if income <= t {
        SlabTaxMonotone(income, t, slabs);
      } else {
        NoneCovers(income, rules.rebates);
      }
    }
  }

  lemma {:induction false} NoneCovers(income: int, rebates: seq<Rebate>)
    requires forall r :: r in rebates ==> r.threshold < income
    ensures FirstCovering(income, rebates) == None
  {
    if rebates != [] {
      NoneCovers(income, rebates[1..]);
    }
  }

  lemma TaxAfterRebateMonotone(x: int, y: int, rules: RuleSet, slabs: seq<Slab>)
    requires SlabChain(slabs) && multiset(rules.slabs) == multiset(slabs) && RebatesFit(rules.rebates, slabs)
    requires x <= y
    ensures 0 <= Assess(x, rules).taxAfterRebate <= Assess(y, rules).taxAfterRebate
  {
    TaxAfterRebate(x, rules, slabs);
    TaxAfterRebate(y, rules, slabs);
    SlabTaxMonotone(x, y, slabs);
  }

  /** From the first surcharge threshold on, the rebate no longer matters. */
  lemma TaxInSurchargeRange(income: int, rules: RuleSet, slabs: seq<Slab>, bands: seq<SurchargeBand>)
    requires WellFormed(rules, slabs, bands) && bands != [] && bands[0].from <= income
    ensures Assess(income, rules).taxAfterRebate == SlabTax(income, slabs)
  {
    TaxAfterRebate(income, rules, slabs);
    hide AtRate, SlabTax, Assess;
    if rules.rebates != [] {
      var start := bands[0].from;
      ThresholdShortcut(income, start, slabs);
      TopRateShift(income - start, 0);
      SlabTaxMonotone(start, start, slabs);
    }
  }

  // ----- Surcharge bands

  lemma BandsAscend(bands: seq<SurchargeBand>, slabs: seq<Slab>, i: nat, j: nat)
    requires BandChain(bands, slabs) && i < j < |bands|
    ensures bands[i].to.Some? && bands[i].from < bands[i].to.value <= bands[j].from
    ensures i + 1 < j ==> bands[i].to.value < bands[j].from
    decreases j - i
  {
    assert bands[i].to == Some(bands[i + 1].from);
    if i + 1 < j {
      BandsAscend(bands, slabs, i + 1, j);
    }
  }

  lemma {:induction false} FirstBandFound(income: int, bands: seq<SurchargeBand>)
    ensures match FirstBand(income, bands)
            case None => forall b :: b in bands ==> !Covers(b, income)
            case Some(b) => b in bands && Covers(b, income)
  {
    if bands != [] {
      FirstBandFound(income, bands[1..]);
    }
  }

  lemma BandOf(income: int, bands: seq<SurchargeBand>, slabs: seq<Slab>) returns (i: nat)
    requires BandChain(bands, slabs) && bands != [] && bands[0].from <= income
    ensures i < |bands| && Covers(bands[i], income)
  {
    i := 0;
    while !Covers(bands[i], income)
      invariant i < |bands| && bands[i].from <= income
      decreases |bands| - i
    {
      i := i + 1;
    }
  }

  /** Where two bands meet they charge the same. */
  lemma BandsAgreeWhereTheyMeet(i: nat, slabs: seq<Slab>, bands: seq<SurchargeBand>)
    requires SlabChain(slabs) && BandChain(bands, slabs) && i + 1 < |bands|
    ensures Capped(bands[i + 1].from, slabs, bands[i]) == Capped(bands[i + 1].from, slabs, bands[i + 1])
  {
    var t := SlabTax(bands[i + 1].from, slabs);
    SlabTaxMonotone(bands[i + 1].from, bands[i + 1].from, slabs);
    AtRateMonotoneInRate(t, bands[i].rate, bands[i + 1].rate);
  }

  lemma CoveringBandsAgree(income: int, i: nat, j: nat, slabs: seq<Slab>, bands: seq<SurchargeBand>)
    requires SlabChain(slabs) && BandChain(bands, slabs) && i <= j < |bands|
    requires Covers(bands[i], income) && Covers(bands[j], income)
    ensures Capped(income, slabs, bands[i]) == Capped(income, slabs, bands[j])
  {
    hide Capped;
    if i < j {
      BandsAscend(bands, slabs, i, j);
      BandsAgreeWhereTheyMeet(i, slabs, bands);
    }
  }

  lemma ChargedBy(income: int, tax: int, band: SurchargeBand, bands: seq<SurchargeBand>)
    requires FirstBand(income, bands) == Some(band) && band.marginalRelief && 0 <= tax
    ensures var onThreshold := TaxOnThreshold(tax, income - band.from);
            var cap := onThreshold + AtRate(onThreshold, PreviousRate(band.from)) + income - band.from;
            tax <= cap ==>
              tax + Surcharge(income, tax, bands)
              - SurchargeMarginalRelief(income, tax, Surcharge(income, tax, bands), bands)
              == Min(tax + AtRate(tax, band.rate), cap)
  {
    AtRateMonotone(0, tax, band.rate);
    hide AtRate, TaxOnThreshold;
  }

  lemma ChargedByBand(income: int, k: nat, rules: RuleSet, slabs: seq<Slab>, bands: seq<SurchargeBand>)
    requires WellFormed(rules, slabs, bands) && k < |bands|
    requires FirstBand(income, rules.surcharges) == Some(bands[k]) && Covers(bands[k], income)
    ensures Assess(income, rules).taxAndSurcharge == Capped(income, slabs, bands[k])
  {
    var found := bands[k];
    var t := SlabTax(found.from, slabs);
    BandStart(bands, slabs, k);
    TaxInSurchargeRange(income, rules, slabs, bands);
    hide AtRate, SlabTax;
    ThresholdShortcut(income, found.from, slabs);
    SlabTaxMonotone(found.from, income, slabs);
    TopRateShift(income - found.from, 0);
    AtRateMonotone(0, t, PreviousRate(found.from));
    ChargedBy(income, SlabTax(income, slabs), found, rules.surcharges);
  }

  /** What the pipeline charges before cess, whichever covering band it happens to find first. */
  lemma ChargedByAnyBand(income: int, i: nat, rules: RuleSet, slabs: seq<Slab>, bands: seq<SurchargeBand>)
    requires WellFormed(rules, slabs, bands) && i < |bands| && Covers(bands[i], income)
    ensures Assess(income, rules).taxAndSurcharge == Capped(income, slabs, bands[i])
  {
    FirstBandFound(income, rules.surcharges);
    assert bands[i] in multiset(rules.surcharges);
    var found := FirstBand(income, rules.surcharges).value;
    assert found in multiset(bands);
    var k :| 0 <= k < |bands| && bands[k] == found;
    ChargedByBand(income, k, rules, slabs, bands);
    hide Assess, Capped;
    if k <= i {
      CoveringBandsAgree(income, k, i, slabs, bands);
    } else {
      CoveringBandsAgree(income, i, k, slabs, bands);
    }
  }

  lemma BandStart(bands: seq<SurchargeBand>, slabs: seq<Slab>, i: nat)
    requires BandChain(bands, slabs) && i < |bands|
    ensures bands[0].from <= bands[i].from
  {
    if 0 < i {
      BandsAscend(bands, slabs, 0, i);
    }
  }

  lemma ChargedBelowBands(income: int, rules: RuleSet, slabs: seq<Slab>, bands: seq<SurchargeBand>)
    requires WellFormed(rules, slabs, bands) && (bands == [] || income < bands[0].from)
    ensures Assess(income, rules).taxAndSurcharge == Assess(income, rules).taxAfterRebate
  {
    FirstBandFound(income, rules.surcharges);
    if FirstBand(income, rules.surcharges).Some? {
      var found := FirstBand(income, rules.surcharges).value;
      assert found in multiset(bands);
      var k :| 0 <= k < |bands| && bands[k] == found;
      BandStart(bands, slabs, k);
    }
  }

  lemma AssessmentConclusion(income: int, rules: RuleSet)
    ensures var e := Assess(income, rules);
            && e.cess == Cess(e.taxAndSurcharge, rules.cessRates)
            && e.total == RoundToTenRupees(e.taxAndSurcharge + e.cess)
  {
    hide SlabTax, Cess, RoundToTenRupees, RebateOf, RebateMarginalRelief, Surcharge, SurchargeMarginalRelief;
  }

  /** The total does not depend on the order of the slab rows or of the surcharge rows, even at
      an income that two bands share. */
  lemma OrderIndependence(income: int, a: RuleSet, b: RuleSet, slabs: seq<Slab>, bands: seq<SurchargeBand>)
    requires WellFormed(a, slabs, bands)
    requires multiset(b.slabs) == multiset(a.slabs) && multiset(b.surcharges) == multiset(a.surcharges)
    requires b.rebates == a.rebates && b.cessRates == a.cessRates
    ensures Assess(income, b).taxAndSurcharge == Assess(income, a).taxAndSurcharge
    ensures Assess(income, b).total == Assess(income, a).total
  {
    hide Assess, Capped, SlabTax, AtRate, SlabChain, BandChain, RebatesFit, RoundToTenRupees, Cess;
    TaxAfterRebate(income, a, slabs);
    TaxAfterRebate(income, b, slabs);
    AssessmentConclusion(income, a);
    AssessmentConclusion(income, b);
    if bands == [] || income < bands[0].from {
      ChargedBelowBands(income, a, slabs, bands);
      ChargedBelowBands(income, b, slabs, bands);
    } else {
      var i := BandOf(income, bands, slabs);
      ChargedByAnyBand(income, i, a, slabs, bands);
      ChargedByAnyBand(income, i, b, slabs, bands);
    }
  }

  // ----- Monotonicity and the relief bound

  /** The one paisa that two roundings can add: only to a step of one paisa, and only between paise. */
  function Slack(x: int, y: int): int {
    if y == x + 1 && x % RUPEE != 0 && y % RUPEE != 0 then 1 else 0
  }

  /** At the top rate, twice the rounded rise is at most the rise in income, but for the slack. */
  lemma TopRateSlope(a: nat, b: nat)
    requires a <= b
    ensures 0 <= 2 * (AtRate(b, TOP_SLAB_RATE) - AtRate(a, TOP_SLAB_RATE)) <= b - a + Slack(a, b)
  {
    AtRateMonotone(a, b, TOP_SLAB_RATE);
    if b == a + 1 {
      TopRateOnePaisa(a);
    }
    hide AtRate;
  }

  lemma TopRateOnePaisa(a: nat)
    ensures AtRate(a + 1, TOP_SLAB_RATE) - AtRate(a, TOP_SLAB_RATE) <= Slack(a, a + 1)
  {
    hide AtRate, Slack;
    var c := a % RUPEE;
    WholePart(a);
    TopRateShift(c, a - c);
    TopRateShift(c + 1, a - c);
    PaisaStep(c);
    SlackShift(c, c + 1, c - a);
  }

  lemma WholePart(a: int)
    ensures (a - a % RUPEE) % RUPEE == 0 && (a % RUPEE - a) % RUPEE == 0
  {
  }

  lemma PaisaStep(c: nat)
    requires c < RUPEE
    ensures AtRate(c + 1, TOP_SLAB_RATE) - AtRate(c, TOP_SLAB_RATE) <= Slack(c, c + 1)
  {
    TopRateOf(c);
    TopRateOf(c + 1);
    hide AtRate;
  }

  lemma TopRateOf(c: nat)
    ensures AtRate(c, TOP_SLAB_RATE) == (3 * c + 5) / 10
  {
  }

  lemma SlackShift(x: int, y: int, d: int)
    requires d % RUPEE == 0
    ensures Slack(x - d, y - d) == Slack(x, y)
  {
    assert (x - d) % RUPEE == x % RUPEE && (y - d) % RUPEE == y % RUPEE;
  }

  lemma NoSlackAtRupee(x: int, edge: int, y: int)
    requires edge % RUPEE == 0
    ensures Slack(x, edge) == Slack(edge, y) == 0 <= Slack(x, y)
  {
  }

  lemma SurchargeSlope(s: nat, t: nat, rate: nat)
    requires s <= t && rate <= RATE_ONE
    ensures 0 <= AtRate(t, rate) - AtRate(s, rate) <= t - s
  {
    AtRateMonotone(s, t, rate);
    MulMonotone(rate, RATE_ONE, t - s);
    hide AtRate;
  }

  lemma FullSurchargeSlope(x: int, y: int, band: SurchargeBand, slabs: seq<Slab>)
    requires SlabChain(slabs) && TopFrom(slabs) <= x <= y && band.rate <= RATE_ONE
    ensures 0 <= FullSurcharge(y, slabs, band) - FullSurcharge(x, slabs, band) <= y - x + Slack(x, y)
  {
    TopOnRupee(slabs);
    hide AtRate, SlabTax, SlabChain, Slack;
    var top := TopFrom(slabs);
    SlackShift(x, y, top);
    SlabTaxInTopSlab(x, slabs);
    SlabTaxInTopSlab(y, slabs);
    SlabTaxMonotone(x, y, slabs);
    TopRateSlope(x - top, y - top);
    SurchargeSlope(SlabTax(x, slabs), SlabTax(y, slabs), band.rate);
  }

  lemma TopOnRupee(slabs: seq<Slab>)
    requires SlabChain(slabs)
    ensures TopFrom(slabs) % RUPEE == 0
  {
  }

  lemma CappedSlope(x: int, y: int, band: SurchargeBand, slabs: seq<Slab>)
    requires SlabChain(slabs) && TopFrom(slabs) <= x <= y && band.rate <= RATE_ONE
    ensures 0 <= Capped(y, slabs, band) - Capped(x, slabs, band) <= y - x + Slack(x, y)
  {
    FullSurchargeSlope(x, y, band, slabs);
    hide FullSurcharge, SlabTax, AtRate, SlabChain;
  }

  lemma {:induction false} ClimbBands(x: int, y: int, i: nat, j: nat, slabs: seq<Slab>, bands: seq<SurchargeBand>)
    requires SlabChain(slabs) && BandChain(bands, slabs) && i <= j < |bands|
    requires TopFrom(slabs) <= bands[0].from
    requires x <= y && Covers(bands[i], x) && Covers(bands[j], y)
    ensures 0 <= Capped(y, slabs, bands[j]) - Capped(x, slabs, bands[i]) <= y - x + Slack(x, y)
    decreases j - i
  {
    hide Capped, SlabChain, Slack;
    BandStart(bands, slabs, i);
    if i == j {
      CappedSlope(x, y, bands[i], slabs);
    } else {
      var edge := bands[i + 1].from;
      assert bands[i + 1] in bands;
      NoSlackAtRupee(x, edge, y);
      BandStart(bands, slabs, i + 1);
      CappedSlope(x, edge, bands[i], slabs);
      BandsAgreeWhereTheyMeet(i, slabs, bands);
      if i + 1 < j {
        BandsAscend(bands, slabs, i + 1, j);
      }
      ClimbBands(edge, y, i + 1, j, slabs, bands);
    }
  }

  lemma CappedAtFirstThreshold(slabs: seq<Slab>, bands: seq<SurchargeBand>)
    requires SlabChain(slabs) && BandChain(bands, slabs) && bands != []
    ensures Capped(bands[0].from, slabs, bands[0]) == SlabTax(bands[0].from, slabs)
  {
    var t := SlabTax(bands[0].from, slabs);
    SlabTaxMonotone(bands[0].from, bands[0].from, slabs);
    AtRateMonotoneInRate(t, 0, bands[0].rate);
  }

  /** Climbing over the first threshold, in two steps. */
  lemma CrossIntoBands(x: int, y: int, rules: RuleSet, slabs: seq<Slab>, bands: seq<SurchargeBand>)
    returns (edge: int)
    requires WellFormed(rules, slabs, bands) && bands != [] && x < bands[0].from <= y
    ensures edge == bands[0].from
    ensures Assess(x, rules).taxAndSurcharge == Assess(x, rules).taxAfterRebate
    ensures 0 <= Assess(y, rules).taxAndSurcharge - Assess(edge, rules).taxAfterRebate <= y - edge
  {
    edge := bands[0].from;
    hide Assess, Capped, SlabTax, AtRate;
    ChargedBelowBands(x, rules, slabs, bands);
    TaxInSurchargeRange(edge, rules, slabs, bands);
    CappedAtFirstThreshold(slabs, bands);
    var j := BandOf(y, bands, slabs);
    ChargedByAnyBand(y, j, rules, slabs, bands);
    if 1 < |bands| {
      BandsAscend(bands, slabs, 0, 1);
    }
    ClimbBands(edge, y, 0, j, slabs, bands);
  }

  /** Tax and surcharge after both reliefs never fall as the taxable income rises. */
  lemma TaxAndSurchargeMonotone(x: int, y: int, rules: RuleSet, slabs: seq<Slab>, bands: seq<SurchargeBand>)
    requires WellFormed(rules, slabs, bands) && x <= y
    ensures 0 <= Assess(x, rules).taxAndSurcharge <= Assess(y, rules).taxAndSurcharge
  {
    hide Assess, Capped, SlabTax, AtRate;
    if bands == [] || y < bands[0].from {
      ChargedBelowBands(x, rules, slabs, bands);
      ChargedBelowBands(y, rules, slabs, bands);
      TaxAfterRebateMonotone(x, y, rules, slabs);
    } else if x < bands[0].from {
      var edge := CrossIntoBands(x, y, rules, slabs, bands);
      TaxAfterRebateMonotone(x, edge, rules, slabs);
    } else {
      var i := BandOf(x, bands, slabs);
      var j := BandOf(y, bands, slabs);
      ChargedByAnyBand(x, i, rules, slabs, bands);
      ChargedByAnyBand(y, j, rules, slabs, bands);
      var edge := CrossIntoBands(bands[0].from - 1, x, rules, slabs, bands);
      TaxAfterRebateMonotone(edge, edge, rules, slabs);
      if j < i {
        BandsAscend(bands, slabs, j, i);
        CoveringBandsAgree(y, j, i, slabs, bands);
        ClimbBands(x, y, i, i, slabs, bands);
      } else {
        ClimbBands(x, y, i, j, slabs, bands);
      }
    }
  }

  lemma {:induction false} CessMonotone(a: int, b: int, rates: seq<nat>)
    requires 0 <= a <= b
    ensures 0 <= Cess(a, rates) <= Cess(b, rates)
  {
    if rates != [] {
      var last := |rates| - 1;
      CessMonotone(a, b, rates[..last]);
      AtRateMonotone(a, b, rates[last]);
    }
  }

  lemma TotalMonotone(x: int, y: int, rules: RuleSet, slabs: seq<Slab>, bands: seq<SurchargeBand>)
    requires WellFormed(rules, slabs, bands) && x <= y
    ensures 0 <= Assess(x, rules).total <= Assess(y, rules).total
  {
    hide Assess, WellFormed, Cess, RoundToTenRupees;
    TaxAndSurchargeMonotone(x, y, rules, slabs, bands);
    AssessmentConclusion(x, rules);
    AssessmentConclusion(y, rules);
    ZeroRounds();
    var a, b := Assess(x, rules), Assess(y, rules);
    CessMonotone(a.taxAndSurcharge, b.taxAndSurcharge, rules.cessRates);
    RoundToTenRupeesMonotone(0, a.taxAndSurcharge + a.cess);
    RoundToTenRupeesMonotone(a.taxAndSurcharge + a.cess, b.taxAndSurcharge + b.cess);
  }

  lemma ZeroRounds()
    ensures RoundToTenRupees(0) == 0
  {
  }

  /** Earning more never lowers the annual tax: for all amounts in paise, whatever the claims. */
  lemma TaxMonotoneInGross(
      a: TaxInput, b: TaxInput, rules: RuleSet, slabs: seq<Slab>, bands: seq<SurchargeBand>)
    requires WellFormed(rules, slabs, bands)
    requires a.gross <= b.gross && b == a.(gross := b.gross)
    ensures 0 <= CalculateTax(a, rules).assessed.total <= CalculateTax(b, rules).assessed.total
  {
    TotalMonotone(TaxableIncome(a, rules), TaxableIncome(b, rules), rules, slabs, bands);
  }

  ghost predicate WholePercentSlabs(slabs: seq<Slab>) {
    forall i :: 0 <= i < |slabs| ==> slabs[i].rate % 100 == 0
  }

  // ----- The bracket loop rounds once

  /** The tax of the slabs before any rounding, in ten-thousandths of a paisa. */
  function ExactTax(income: int, slabs: seq<Slab>): int {
    if slabs == [] then 0 else TaxableInSlab(income, slabs[0]) * slabs[0].rate + ExactTax(income, slabs[1..])
  }

  lemma {:induction false} NothingBelow(income: int, slabs: seq<Slab>)
    requires SlabChain(slabs) && income <= slabs[0].from
    ensures SlabTax(income, slabs) == ExactTax(income, slabs) == 0
  {
    FirstSlab(slabs);
    AtRateOfZero(slabs[0].rate);
    hide AtRate, SlabChain;
    if |slabs| > 1 {
      NothingBelow(income, slabs[1..]);
    }
  }

  /** Each bracket is rounded by itself, yet their sum is the exact tax rounded once. */
  lemma {:induction false} RoundedOnce(income: int, slabs: seq<Slab>)
    requires SlabChain(slabs) && WholePercentSlabs(slabs)
    ensures SlabTax(income, slabs) == Quantize(ExactTax(income, slabs))
  {
    FirstSlab(slabs);
    hide Quantize;
    if |slabs| > 1 {
      var s, rest := slabs[0], slabs[1..];
      if income <= rest[0].from {
        NothingBelow(income, rest);
      } else {
        RoundedOnce(income, rest);
        ExactTaxSlope(rest[0].from, income, rest);
        NothingBelow(rest[0].from, rest);
        FullSlab(income, s);
        QuantizeWholePaise(ExactTax(income, rest), TaxInSlab(income, s));
      }
    }
  }

  /** A slab passed in full charges whole paise. */
  lemma FullSlab(income: int, s: Slab)
    requires s.to.Some? && s.from < s.to.value < income && s.from % RUPEE == 0 && s.to.value % RUPEE == 0
    requires s.rate % 100 == 0
    ensures 0 <= TaxInSlab(income, s) && RATE_ONE * TaxInSlab(income, s) == TaxableInSlab(income, s) * s.rate
  {
    AtRateExact(TaxableInSlab(income, s), s.rate);
    AtRateMonotone(0, TaxableInSlab(income, s), s.rate);
    hide AtRate;
  }

  lemma {:induction false} ExactTaxSlope(x: int, y: int, slabs: seq<Slab>)
    requires SlabChain(slabs) && x <= y
    ensures 0 <= ExactTax(y, slabs) - ExactTax(x, slabs)
              <= TOP_SLAB_RATE * (Max(y, slabs[0].from) - Max(x, slabs[0].from))
  {
    var s := slabs[0];
    FirstSlab(slabs);
    TaxableBounds(x, y, s);
    PartSlope(TaxableInSlab(x, s), TaxableInSlab(y, s), s.rate);
    hide TaxableInSlab;
    if |slabs| > 1 {
      ExactTaxSlope(x, y, slabs[1..]);
    }
  }

  lemma PartSlope(u: nat, v: nat, rate: nat)
    requires u <= v && rate <= TOP_SLAB_RATE
    ensures 0 <= v * rate - u * rate <= TOP_SLAB_RATE * (v - u)
  {
    MulMonotone(rate, TOP_SLAB_RATE, v - u);
    assert v * rate - u * rate == rate * (v - u);
  }

  predicate WholeRupees(x: int, y: int) { x % RUPEE == 0 && y % RUPEE == 0 }

  /** The slab tax climbs at no more than the top rate and less than one paisa; between whole rupees
      the paisa is gone. */
  lemma SlabTaxSlope(x: int, y: int, slabs: seq<Slab>)
    requires SlabChain(slabs) && WholePercentSlabs(slabs) && x <= y
    ensures var rise := RATE_ONE * (SlabTax(y, slabs) - SlabTax(x, slabs));
            var most := TOP_SLAB_RATE * (Max(y, slabs[0].from) - Max(x, slabs[0].from));
            0 <= rise < most + RATE_ONE && (WholeRupees(x, y) ==> rise <= most)
  {
    FirstOnRupee(slabs);
    hide SlabTax, ExactTax, Quantize, SlabChain, WholePercentSlabs;
    var low := Min(x, slabs[0].from);
    SlabTaxMonotone(x, y, slabs);
    NothingBelow(low, slabs);
    ExactTaxSlope(low, x, slabs);
    ExactTaxSlope(x, y, slabs);
    RoundedOnce(x, slabs);
    RoundedOnce(y, slabs);
    QuantizeSlope(ExactTax(x, slabs), ExactTax(y, slabs));
    if WholeRupees(x, y) {
      WholeRise(SlabTax(y, slabs) - SlabTax(x, slabs), Max(x, slabs[0].from), Max(y, slabs[0].from));
    }
  }

  lemma FirstOnRupee(slabs: seq<Slab>)
    requires SlabChain(slabs)
    ensures slabs != [] && slabs[0].from % RUPEE == 0
  {
  }

  lemma QuantizeSlope(u: nat, v: nat)
    requires u <= v
    ensures RATE_ONE * (Quantize(v) - Quantize(u)) < v - u + RATE_ONE
  {
  }

  lemma WholeRise(rise: int, a: int, b: int)
    requires RATE_ONE * rise < TOP_SLAB_RATE * (b - a) + RATE_ONE && WholeRupees(a, b)
    ensures RATE_ONE * rise <= TOP_SLAB_RATE * (b - a)
  {
    WholeUnits(rise, b / RUPEE - a / RUPEE);
  }

  lemma WholeUnits(rise: int, rupees: int)
    requires RATE_ONE * rise < TOP_SLAB_RATE * (RUPEE * rupees) + RATE_ONE
    ensures RATE_ONE * rise <= TOP_SLAB_RATE * (RUPEE * rupees)
  {
    var over := rise - 30 * rupees;
    assert RATE_ONE * over < RATE_ONE;
    assert over <= 0;
  }

  lemma TaxAfterRebateSlope(x: int, y: int, rules: RuleSet, slabs: seq<Slab>)
    requires SlabChain(slabs) && multiset(rules.slabs) == multiset(slabs) && RebatesFit(rules.rebates, slabs)
    requires WholePercentSlabs(slabs) && x <= y
    ensures Assess(y, rules).taxAfterRebate - Assess(x, rules).taxAfterRebate <= y - x
  {
    TaxAfterRebate(x, rules, slabs);
    TaxAfterRebate(y, rules, slabs);
    SlabTaxSlope(x, y, slabs);
    SlabTaxMonotone(x, y, slabs);
    hide Assess, SlabTax, SlabChain, WholePercentSlabs;
  }

  /** The relief bound, at any paisa: extra taxable income never adds more tax and surcharge than
      itself, across every slab edge, rebate and surcharge threshold, but for one paisa that a step
      of one paisa can round up to. */
  lemma ReliefBound(x: int, y: int, rules: RuleSet, slabs: seq<Slab>, bands: seq<SurchargeBand>)
    requires WellFormed(rules, slabs, bands) && WholePercentSlabs(slabs) && x <= y
    ensures Assess(y, rules).taxAndSurcharge - Assess(x, rules).taxAndSurcharge <= y - x + Slack(x, y)
  {
    hide Assess, Capped, SlabTax, AtRate;
    if bands == [] || y < bands[0].from {
      ChargedBelowBands(x, rules, slabs, bands);
      ChargedBelowBands(y, rules, slabs, bands);
      TaxAfterRebateSlope(x, y, rules, slabs);
    } else if x < bands[0].from {
      var edge := CrossIntoBands(x, y, rules, slabs, bands);
      TaxAfterRebateSlope(x, edge, rules, slabs);
    } else {
      var i := BandOf(x, bands, slabs);
      var j := BandOf(y, bands, slabs);
      ChargedByAnyBand(x, i, rules, slabs, bands);
      ChargedByAnyBand(y, j, rules, slabs, bands);
      if j < i {
        BandsAscend(bands, slabs, j, i);
        CoveringBandsAgree(y, j, i, slabs, bands);
        ClimbBands(x, y, i, i, slabs, bands);
      } else {
        ClimbBands(x, y, i, j, slabs, bands);
      }
    }
  }

  /** After the 4% cess and the rounding, the total climbs by at most 1.04 rupees a rupee, and
      ten rupees once. */
  lemma TotalReliefBound(x: int, y: int, rules: RuleSet, slabs: seq<Slab>, bands: seq<SurchargeBand>)
    requires WellFormed(rules, slabs, bands) && WholePercentSlabs(slabs) && x <= y
    requires rules.cessRates == [400]
    ensures 100 * (Assess(y, rules).total - Assess(x, rules).total)
            <= 104 * (y - x + Slack(x, y)) + 100 * TEN_RUPEES
  {
    hide Assess, WellFormed, Cess, RoundToTenRupees, AtRate;
    ReliefBound(x, y, rules, slabs, bands);
    TaxAndSurchargeMonotone(x, y, rules, slabs, bands);
    AssessmentConclusion(x, rules);
    AssessmentConclusion(y, rules);
    var a, b := Assess(x, rules), Assess(y, rules);
    SingleCess(a.taxAndSurcharge);
    SingleCess(b.taxAndSurcharge);
    AtRateMonotone(a.taxAndSurcharge, b.taxAndSurcharge, 400);
    RoundToTenRupeesMonotone(a.taxAndSurcharge + a.cess, b.taxAndSurcharge + b.cess);
  }

  lemma SingleCess(base: nat)
    ensures Cess(base, [400]) == AtRate(base, 400)
  {
    assert [400][..0] == [];
  }
}
