/**
 The income-tax pipeline: deductions, slab tax, section 87A rebate and its marginal relief,
 surcharge and its marginal relief, cess, and rounding to ten rupees (section 288B).
 The loops of the source are methods, each tied to the function the laws are proved about.
 */
module TaxEngine {
  import opened Money
  import opened Sorting
  import opened TaxRules

  // ----- Slab tax

  function TaxableInSlab(income: int, slab: Slab): int {
    if income <= slab.from then 0
    else if slab.to.Some? then Min(income, slab.to.value) - slab.from
    else income - slab.from
  }

  function TaxInSlab(income: int, slab: Slab): int {
    AtRate(TaxableInSlab(income, slab), slab.rate)
  }

  function SlabTax(income: int, slabs: seq<Slab>): int {
    if slabs == [] then 0 else TaxInSlab(income, slabs[0]) + SlabTax(income, slabs[1..])
  }

  datatype SlabLine = SlabLine(slab: Slab, taxable: int, tax: int)

  function LineTotal(lines: seq<SlabLine>): int {
    if lines == [] then 0 else LineTotal(lines[..|lines| - 1]) + lines[|lines| - 1].tax
  }

  const SLAB_ORDER := (s: Slab) => s.order

  lemma SlabTaxSplit(income: int, a: seq<Slab>, b: seq<Slab>)
    ensures SlabTax(income, a + b) == SlabTax(income, a) + SlabTax(income, b)
  {
    if a == [] {
      assert a + b == b;
    } else {
      assert (a + b)[1..] == a[1..] + b;
    }
  }

  lemma PermutationHead<T>(a: seq<T>, b: seq<T>) returns (k: nat)
    requires a != [] && multiset(a) == multiset(b)
    ensures k < |b| && b[k] == a[0]
    ensures multiset(a[1..]) == multiset(b[..k] + b[k + 1..])
  {
    assert a[0] in multiset(b);
    k :| k < |b| && b[k] == a[0];
    assert b == b[..k] + [b[k]] + b[k + 1..];
    assert a == [a[0]] + a[1..];
    assert multiset(a[1..]) == multiset(a) - multiset{a[0]};
    assert multiset(b[..k] + b[k + 1..]) == multiset(b) - multiset{b[k]};
  }

  lemma SlabTaxTakeOut(income: int, b: seq<Slab>, k: nat)
    requires k < |b|
    ensures SlabTax(income, b) == TaxInSlab(income, b[k]) + SlabTax(income, b[..k] + b[k + 1..])
  {
    assert b == b[..k + 1] + b[k + 1..];
    SlabTaxSplit(income, b[..k + 1], b[k + 1..]);
    SlabTaxUpTo(income, b, k);
    SlabTaxSplit(income, b[..k], b[k + 1..]);
  }

  /** The slab tax does not depend on the order in which the slab rows arrive. */
  lemma {:induction false} SlabTaxPermutation(income: int, a: seq<Slab>, b: seq<Slab>)
    requires multiset(a) == multiset(b)
    ensures SlabTax(income, a) == SlabTax(income, b)
  {
    if a == [] {
      assert |multiset(b)| == 0;
    } else {
      var k := PermutationHead(a, b);
      SlabTaxPermutation(income, a[1..], b[..k] + b[k + 1..]);
      SlabTaxTakeOut(income, b, k);
    }
  }

  lemma SlabTaxUpTo(income: int, slabs: seq<Slab>, i: nat)
    requires i < |slabs|
    ensures SlabTax(income, slabs[..i + 1]) == SlabTax(income, slabs[..i]) + TaxInSlab(income, slabs[i])
  {
    assert slabs[..i + 1] == slabs[..i] + [slabs[i]];
    SlabTaxSplit(income, slabs[..i], [slabs[i]]);
  }

  lemma LineTotalAppend(lines: seq<SlabLine>, line: SlabLine)
    ensures LineTotal(lines + [line]) == LineTotal(lines) + line.tax
  {
    assert (lines + [line])[..|lines|] == lines;
  }

  function LineOf(income: int, slab: Slab): SlabLine {
    SlabLine(slab, TaxableInSlab(income, slab), TaxInSlab(income, slab))
  }

  method CalculateSlabTax(income: int, slabs: seq<Slab>) returns (total: int, breakdown: seq<SlabLine>)
    ensures total == SlabTax(income, slabs) == LineTotal(breakdown)
    ensures |breakdown| == |slabs|
    ensures forall i :: 0 <= i < |slabs| ==> breakdown[i] == LineOf(income, SortBy(SLAB_ORDER, slabs)[i])
  {
    hide AtRate, SortBy;
    total, breakdown := 0, [];
    var sorted := SortBy(SLAB_ORDER, slabs);
    SortKeepsRows(SLAB_ORDER, slabs);
    SlabTaxPermutation(income, slabs, sorted);
    for i := 0 to |sorted|
      invariant |breakdown| == i
      invariant forall j :: 0 <= j < i ==> breakdown[j] == LineOf(income, sorted[j])
      invariant total == SlabTax(income, sorted[..i]) == LineTotal(breakdown)
    {
      var slab := sorted[i];
      var taxable, tax := 0, 0;
      if slab.from < income {
        taxable := if slab.to.Some? then Min(income, slab.to.value) - slab.from else income - slab.from;
        tax := AtRate(taxable, slab.rate);
        total := total + tax;
      }
      AtRateOfZero(slab.rate);
      SlabTaxUpTo(income, sorted, i);
      LineTotalAppend(breakdown, SlabLine(slab, taxable, tax));
      breakdown := breakdown + [SlabLine(slab, taxable, tax)];
    }
    assert sorted[..|sorted|] == sorted;
  }

  // ----- Section 87A rebate and its marginal relief

  function FirstCovering(income: int, rebates: seq<Rebate>): Option<Rebate> {
    if rebates == [] then None
    else if income <= rebates[0].threshold then Some(rebates[0])
    else FirstCovering(income, rebates[1..])
  }

  function RebateOf(income: int, slabTax: int, rebates: seq<Rebate>, resident: bool): int {
    if !resident || slabTax <= 0 then 0
    else
      match FirstCovering(income, rebates)
      case None => 0
      case Some(r) => Min(slabTax, r.maxRebate)
  }

  method CalculateRebate(income: int, slabTax: int, rebates: seq<Rebate>, resident: bool) returns (rebate: int)
    ensures rebate == RebateOf(income, slabTax, rebates, resident)
  {
    if !resident || slabTax <= 0 || rebates == [] {
      return 0;
    }
    var matching: Option<Rebate> := None;
    for i := 0 to |rebates|
      invariant matching == None && FirstCovering(income, rebates) == FirstCovering(income, rebates[i..])
    {
      if income <= rebates[i].threshold {
        matching := Some(rebates[i]);
        break;
      }
      assert rebates[i..][1..] == rebates[i + 1..];
    }
    if matching == None {
      return 0;
    }
    rebate := Min(slabTax, matching.value.maxRebate);
  }

  /** Row `k` grants the rebate: the first whose threshold covers the income, at most the tax and at most
      the row's amount. */
  ghost predicate GrantedBy(income: int, slabTax: int, rebates: seq<Rebate>, k: nat, rebate: int) {
    && k < |rebates| && income <= rebates[k].threshold
    && (forall i :: 0 <= i < k ==> rebates[i].threshold < income)
    && rebate <= slabTax && rebate <= rebates[k].maxRebate
    && (rebate == slabTax || rebate == rebates[k].maxRebate)
  }

  /** Who is granted a rebate: a resident with tax to pay and an income within some threshold. */
  lemma {:induction false} RebateExactly(income: int, slabTax: int, rebates: seq<Rebate>, resident: bool)
    ensures var r := RebateOf(income, slabTax, rebates, resident);
            var covered := exists i :: 0 <= i < |rebates| && income <= rebates[i].threshold;
            && (!resident || slabTax <= 0 || !covered ==> r == 0)
            && (resident && slabTax > 0 && covered ==> exists k: nat :: GrantedBy(income, slabTax, rebates, k, r))
  {
    var r := RebateOf(income, slabTax, rebates, resident);
    if rebates != [] && income > rebates[0].threshold {
      RebateExactly(income, slabTax, rebates[1..], resident);
      assert forall i :: 0 < i < |rebates| ==> rebates[i] == rebates[1..][i - 1];
      if j: nat :| GrantedBy(income, slabTax, rebates[1..], j, r) {
        assert GrantedBy(income, slabTax, rebates, j + 1, r);
      }
    } else if rebates != [] && resident && slabTax > 0 {
      assert GrantedBy(income, slabTax, rebates, 0, r);
    }
  }

  function FirstWithRelief(rebates: seq<Rebate>): Option<Rebate> {
    if rebates == [] then None
    else if rebates[0].marginalRelief then Some(rebates[0])
    else FirstWithRelief(rebates[1..])
  }

  function RebateMarginalRelief(income: int, slabTax: int, rebates: seq<Rebate>): int {
    if slabTax <= 0 then 0
    else
      match FirstWithRelief(rebates)
      case None => 0
      case Some(r) =>
        if income <= r.threshold then 0 else Max(0, slabTax - (income - r.threshold))
  }

  // ----- Surcharge and its marginal relief

  predicate Covers(band: SurchargeBand, income: int) {
    band.from <= income && (band.to.None? || income <= band.to.value)
  }

  function FirstBand(income: int, bands: seq<SurchargeBand>): Option<SurchargeBand> {
    if bands == [] then None
    else if Covers(bands[0], income) then Some(bands[0])
    else FirstBand(income, bands[1..])
  }

  function Surcharge(income: int, tax: int, bands: seq<SurchargeBand>): int {
    if tax <= 0 then 0
    else
      match FirstBand(income, bands)
      case None => 0
      case Some(b) => AtRate(tax, b.rate)
  }

  const TOP_SLAB_RATE := 3000

  /** The rate of the tier below the one starting at `threshold`, as the engine tabulates it. */
  function PreviousRate(threshold: int): nat {
    if threshold >= 5 * CRORE then 2500
    else if threshold >= 2 * CRORE then 1500
    else if threshold >= CRORE then 1000
    else 0
  }

  /** The engine's shortcut: the tax on the threshold, from the tax on the whole income. */
  function TaxOnThreshold(tax: int, excess: int): int {
    Max(0, tax - AtRate(excess, TOP_SLAB_RATE))
  }

  function SurchargeMarginalRelief(income: int, tax: int, surcharge: int, bands: seq<SurchargeBand>): int {
    if surcharge <= 0 then 0
    else
      match FirstBand(income, bands)
      case None => 0
      case Some(b) =>
        if !b.marginalRelief then 0
        else
          var excess := income - b.from;
          var onThreshold := TaxOnThreshold(tax, excess);
          var allowed := onThreshold + AtRate(onThreshold, PreviousRate(b.from)) + excess;
          Max(0, tax + surcharge - allowed)
  }

  // ----- Cess

  function Cess(base: int, rates: seq<nat>): int {
    if base <= 0 || rates == [] then 0
    else Cess(base, rates[..|rates| - 1]) + AtRate(base, rates[|rates| - 1])
  }

  method CalculateCess(base: int, rates: seq<nat>) returns (total: int)
    ensures total == Cess(base, rates)
  {
    total := 0;
    if base <= 0 || rates == [] {
      return;
    }
    for i := 0 to |rates|
      invariant total == Cess(base, rates[..i])
    {
      total := total + Quantize(base * rates[i]);
      assert rates[..i + 1][..i] == rates[..i];
    }
    assert rates[..|rates|] == rates;
  }

  // ----- The pipeline

  datatype TaxInput = TaxInput(
    gross: int,
    standardOverride: Option<int>,
    section80c: int,
    section80d: int,
    otherExemptions: int,
    otherDeductions: int)

  datatype Assessment = Assessment(
    slabTax: int,
    rebate: int,
    rebateRelief: int,
    taxAfterRebate: int,
    surcharge: int,
    surchargeRelief: int,
    taxAndSurcharge: int,
    cess: int,
    total: int)

  datatype TaxResult = TaxResult(
    standardDeduction: int,
    claimed80c: int,
    claimed80d: int,
    taxable: int,
    assessed: Assessment)

  predicate MentionsAt(code: string, section: string, i: nat) {
    i + |section| <= |code| && code[i..i + |section|] == section
  }

  predicate Mentions(code: string, section: string) {
    exists i: nat :: i <= |code| && MentionsAt(code, section, i)
  }

  function LimitOf(d: Option<Deduction>): int {
    if d.Some? && d.value.maxLimit.Some? then d.value.maxLimit.value else 0
  }

  function StandardRule(ds: seq<Deduction>): Option<Deduction> {
    if ds == [] then None else if ds[0].isStandard then Some(ds[0]) else StandardRule(ds[1..])
  }

  function SectionRule(ds: seq<Deduction>, section: string): Option<Deduction> {
    if ds == [] then None
    else if Mentions(ds[0].code, section) then Some(ds[0])
    else SectionRule(ds[1..], section)
  }

  function StandardDeduction(inp: TaxInput, rules: RuleSet): int {
    if inp.standardOverride.Some? then Min(inp.gross, inp.standardOverride.value)
    else Min(inp.gross, LimitOf(StandardRule(rules.deductions)))
  }

  function TaxableIncome(inp: TaxInput, rules: RuleSet): int {
    Max(0, inp.gross - (StandardDeduction(inp, rules)
                        + Min(inp.section80c, LimitOf(SectionRule(rules.deductions, "80C")))
                        + Min(inp.section80d, LimitOf(SectionRule(rules.deductions, "80D")))
                        + inp.otherDeductions + inp.otherExemptions))
  }

  /** Everything after the taxable income is known. */
  function Assess(income: int, rules: RuleSet): Assessment {
    var slabTax := SlabTax(income, rules.slabs);
    var rebate := RebateOf(income, slabTax, rules.rebates, true);
    var relief := if rebate == 0 then RebateMarginalRelief(income, slabTax, rules.rebates) else 0;
    var tax := Max(0, slabTax - rebate - relief);
    var surcharge := Surcharge(income, tax, rules.surcharges);
    var surchargeRelief := SurchargeMarginalRelief(income, tax, surcharge, rules.surcharges);
    var base := tax + surcharge - surchargeRelief;
    var cess := Cess(base, rules.cessRates);
    Assessment(slabTax, rebate, relief, tax, surcharge, surchargeRelief, base, cess, RoundToTenRupees(base + cess))
  }

  function CalculateTax(inp: TaxInput, rules: RuleSet): TaxResult {
    var taxable := TaxableIncome(inp, rules);
    TaxResult(
      StandardDeduction(inp, rules),
      Min(inp.section80c, LimitOf(SectionRule(rules.deductions, "80C"))),
      Min(inp.section80d, LimitOf(SectionRule(rules.deductions, "80D"))),
      taxable,
      Assess(taxable, rules))
  }
}
