/**
 From a salary input to the take-home: the normalizer, provident fund, professional tax, and
 the composition with the tax engine that the calculation service runs.
 */
module Salary {
  import opened Money
  import opened Sorting
  import opened TaxRules
  import opened TaxEngine
  import opened TaxLaws
  import opened TaxSeeds
  import opened TaxAgreement

  // ----- Normalizing a salary

  datatype SalaryInput = SalaryInput(
    annualCtc: Option<int>,
    annualGross: Option<int>,
    monthlyGross: Option<int>,
    basic: Option<int>,
    da: Option<int>,
    hra: Option<int>,
    special: Option<int>,
    bonus: Option<int>,
    otherAllowances: Option<int>,
    otherDeductions: Option<int>,
    optInHigherWage: bool)
  {
    function Amounts(): seq<Option<int>> {
      [annualCtc, annualGross, monthlyGross, basic, da, hra, special, bonus, otherAllowances, otherDeductions]
    }
  }

  datatype NormalizedSalary = NormalizedSalary(
    gross: int,
    basic: int,
    da: int,
    hra: int,
    special: int,
    bonus: int,
    otherAllowances: int,
    otherDeductions: int,
    monthlyGross: int,
    pfWageBase: int)
  {
    function Components(): int { basic + da + hra + special + bonus + otherAllowances }
  }

  datatype Normalization = Normal(salary: NormalizedSalary) | NegativeField(index: nat) | NoAmount

  function AmountOr0(o: Option<int>): int { if o.Some? then o.value else 0 }

  predicate Positive(o: Option<int>) { o.Some? && o.value > 0 }

  function StatedGross(inp: SalaryInput): Option<int> {
    if Positive(inp.annualGross) then inp.annualGross
    else if Positive(inp.monthlyGross) then Some(12 * inp.monthlyGross.value)
    else if Positive(inp.annualCtc) then inp.annualCtc
    else None
  }

  /** The components as given, before any balancing. */
  function GivenComponents(inp: SalaryInput): int {
    AmountOr0(inp.basic) + AmountOr0(inp.da) + AmountOr0(inp.hra) + AmountOr0(inp.special)
    + AmountOr0(inp.bonus) + AmountOr0(inp.otherAllowances)
  }

  function Assembled(inp: SalaryInput, gross: int, basic: int, hra: int, special: int): NormalizedSalary {
    NormalizedSalary(gross, basic, AmountOr0(inp.da), hra, special, AmountOr0(inp.bonus),
                     AmountOr0(inp.otherAllowances), AmountOr0(inp.otherDeductions),
                     PerMonth(gross), PerMonth(basic + AmountOr0(inp.da)))
  }

  function SplitGross(inp: SalaryInput, gross: int): NormalizedSalary {
    var basic, hra := AtRate(gross, 5000), AtRate(gross, 2000);
    Assembled(inp, gross, basic, hra, gross - (basic + hra))
  }

  /** The special allowance is raised to the stated gross only if it was left out and the rest
      falls short by more than a rupee. */
  predicate Balances(inp: SalaryInput, gross: int) {
    GivenComponents(inp) < gross - RUPEE && AmountOr0(inp.special) == 0
  }

  function FirstNegative(amounts: seq<Option<int>>, from: nat): Option<nat>
    requires from <= |amounts|
    decreases |amounts| - from
  {
    if from == |amounts| then None
    else if amounts[from].Some? && amounts[from].value < 0 then Some(from)
    else FirstNegative(amounts, from + 1)
  }

  function Normalized(inp: SalaryInput): Normalization {
    if FirstNegative(inp.Amounts(), 0).Some? then NegativeField(FirstNegative(inp.Amounts(), 0).value)
    else
      var stated, given := StatedGross(inp), GivenComponents(inp);
      if given > 0 then
        var gross := if stated.Some? then stated.value else given;
        var special := if stated.Some? && Balances(inp, gross) then gross - given else AmountOr0(inp.special);
        Normal(Assembled(inp, gross, AmountOr0(inp.basic), AmountOr0(inp.hra), special))
      else if stated.Some? then Normal(SplitGross(inp, stated.value))
      else NoAmount
  }

  method Normalize(inp: SalaryInput) returns (r: Normalization)
    ensures r == Normalized(inp)
  {
    hide AtRate, PerMonth;
    var amounts := inp.Amounts();
    for i := 0 to |amounts|
      invariant FirstNegative(amounts, 0) == FirstNegative(amounts, i)
    {
      if amounts[i].Some? && amounts[i].value < 0 {
        return NegativeField(i);
      }
    }
    var gross: Option<int> := None;
    if Positive(inp.annualGross) {
      gross := inp.annualGross;
    } else if Positive(inp.monthlyGross) {
      gross := Some(inp.monthlyGross.value * 12);
    } else if Positive(inp.annualCtc) {
      gross := inp.annualCtc;
    }
    var basic, da := AmountOr0(inp.basic), AmountOr0(inp.da);
    var hra, special := AmountOr0(inp.hra), AmountOr0(inp.special);
    var bonus, other := AmountOr0(inp.bonus), AmountOr0(inp.otherAllowances);
    var sum := basic + da + hra + special + bonus + other;
    if sum > 0 {
      if gross.Some? && gross.value > 0 {
        if Abs(sum - gross.value) > RUPEE {
          if special == 0 && sum < gross.value {
            special := gross.value - (basic + da + hra + bonus + other);
          }
        }
      } else {
        gross := Some(sum);
      }
    } else if gross.Some? && gross.value > 0 {
      basic := AtRate(gross.value, 5000);
      hra := AtRate(gross.value, 2000);
      special := gross.value - (basic + hra);
    } else {
      return NoAmount;
    }
    r := Normal(NormalizedSalary(gross.value, basic, da, hra, special, bonus, other,
                                 AmountOr0(inp.otherDeductions), PerMonth(gross.value), PerMonth(basic + da)));
  }

  /** Whatever mix of gross and components is supplied: the components of the result add up to
      its gross exactly unless components and a gross were both given, disagree, and the special
      allowance could not absorb the gap. */
  lemma ComponentsAddUp(inp: SalaryInput)
    requires Normalized(inp).Normal?
    ensures var s := Normalized(inp).salary;
            s.Components() == s.gross
            <==> (GivenComponents(inp) <= 0 || StatedGross(inp) == None
                  || GivenComponents(inp) == StatedGross(inp).value || Balances(inp, StatedGross(inp).value))
  {
    NoneNegative(inp.Amounts(), 0);
    assert forall i :: 0 <= i < 10 ==> AmountOr0(inp.Amounts()[i]) >= 0;
    assert inp.Amounts()[3] == inp.basic && inp.Amounts()[4] == inp.da && inp.Amounts()[5] == inp.hra;
    assert inp.Amounts()[6] == inp.special && inp.Amounts()[7] == inp.bonus;
    assert inp.Amounts()[8] == inp.otherAllowances;
    hide AtRate, PerMonth;
  }

  lemma {:induction false} NoneNegative(amounts: seq<Option<int>>, from: nat)
    requires from <= |amounts| && FirstNegative(amounts, from) == None
    ensures forall i :: from <= i < |amounts| ==> AmountOr0(amounts[i]) >= 0
    decreases |amounts| - from
  {
    if from < |amounts| {
      NoneNegative(amounts, from + 1);
    }
  }

  // ----- Provident fund

  datatype PfRules = PfRules(employeeRate: nat, epsRate: nat, edliRate: nat, ceiling: int, epsCeiling: int)

  const PF_RULES := PfRules(1200, 833, 50, 15_000 * RUPEE, 15_000 * RUPEE)

  datatype PfResult = PfResult(
    monthlyEmployee: int,
    annualEmployee: int,
    monthlyEmployerEpf: int,
    annualEmployerEpf: int,
    monthlyEps: int,
    annualEps: int,
    monthlyEdli: int,
    annualEdli: int,
    totalMonthlyEmployer: int,
    totalAnnualEmployer: int)

  function CalculatePf(wageBase: int, applicable: bool, optIn: bool, rules: PfRules): PfResult {
    if !applicable || wageBase <= 0 then PfResult(0, 0, 0, 0, 0, 0, 0, 0, 0, 0)
    else
      var employeeBase := if optIn then wageBase else Min(wageBase, rules.ceiling);
      var employee := AtRate(employeeBase, rules.employeeRate);
      var epsBase := Min(wageBase, rules.epsCeiling);
      var eps := AtRate(epsBase, rules.epsRate);
      var epf := Max(0, AtRate(employeeBase, rules.employeeRate) - eps);
      var edli := AtRate(epsBase, rules.edliRate);
      PfResult(employee, 12 * employee, epf, 12 * epf, eps, 12 * eps, edli, 12 * edli,
               epf + eps + edli, 12 * epf + 12 * eps + 12 * edli)
  }

  /** The employer's fund and pension shares add up to the employee's share whenever the pension
      base and rate are within the fund's; in any case to the larger of the two. */
  lemma EmployerMatchesEmployee(wageBase: int, applicable: bool, optIn: bool, rules: PfRules)
    ensures var r := CalculatePf(wageBase, applicable, optIn, rules);
            && r.monthlyEmployerEpf + r.monthlyEps == Max(r.monthlyEmployee, r.monthlyEps)
            && r.annualEmployerEpf + r.annualEps == Max(r.annualEmployee, r.annualEps)
            && (0 <= rules.epsCeiling <= rules.ceiling && rules.epsRate <= rules.employeeRate ==>
                  && r.annualEmployerEpf + r.annualEps == r.annualEmployee
                  && r.totalAnnualEmployer == r.annualEmployee + r.annualEdli)
  {
    hide AtRate;
    if applicable && wageBase > 0 && 0 <= rules.epsCeiling <= rules.ceiling && rules.epsRate <= rules.employeeRate {
      var small, large := Min(wageBase, rules.epsCeiling), if optIn then wageBase else Min(wageBase, rules.ceiling);
      AtRateMonotone(small, large, rules.epsRate);
      AtRateMonotoneInRate(large, rules.epsRate, rules.employeeRate);
    }
  }

  // ----- Professional tax

  datatype Gender = AnyGender | Male | Female

  datatype PtSlab = PtSlab(order: int, from: int, to: Option<int>, monthly: int, february: Option<int>, gender: Gender)

  predicate PtMatches(slab: PtSlab, monthlyGross: int, gender: Gender) {
    && slab.from <= monthlyGross
    && (slab.to.None? || monthlyGross <= slab.to.value)
    && (slab.gender == AnyGender || slab.gender == gender)
  }

  function FirstPtSlab(slabs: seq<PtSlab>, monthlyGross: int, gender: Gender): Option<PtSlab> {
    if slabs == [] then None
    else if PtMatches(slabs[0], monthlyGross, gender) then Some(slabs[0])
    else FirstPtSlab(slabs[1..], monthlyGross, gender)
  }

  datatype PtResult = PtResult(monthly: int, february: int, annual: int)

  function PtOf(slab: Option<PtSlab>): PtResult {
    if slab.None? then PtResult(0, 0, 0)
    else
      var february := if slab.value.february.Some? then slab.value.february.value else slab.value.monthly;
      PtResult(slab.value.monthly, february, 11 * slab.value.monthly + february)
  }

  const PT_ORDER := (s: PtSlab) => s.order

  method CalculatePt(slabs: seq<PtSlab>, monthlyGross: int, gender: Gender) returns (r: PtResult)
    ensures r == PtOf(FirstPtSlab(SortBy(PT_ORDER, slabs), monthlyGross, gender))
  {
    var sorted := SortBy(PT_ORDER, slabs);
    var matching: Option<PtSlab> := None;
    for i := 0 to |sorted|
      invariant matching == None
      invariant FirstPtSlab(sorted, monthlyGross, gender) == FirstPtSlab(sorted[i..], monthlyGross, gender)
    {
      if monthlyGross >= sorted[i].from {
        if sorted[i].to.None? || monthlyGross <= sorted[i].to.value {
          if sorted[i].gender == AnyGender || sorted[i].gender == gender {
            matching := Some(sorted[i]);
            break;
          }
        }
      }
      assert sorted[i..][1..] == sorted[i + 1..];
    }
    if matching.None? {
      r := PtResult(0, 0, 0);
    } else {
      var monthly := matching.value.monthly;
      var february := if matching.value.february.Some? then matching.value.february.value else monthly;
      r := PtResult(monthly, february, monthly * 11 + february);
    }
  }

  function Row(order: int, from: int, to: Option<int>, monthly: int, february: int): PtSlab {
    PtSlab(order, from, to, monthly, Some(february), AnyGender)
  }

  const PT_DL := [Row(1, 0, None, 0, 0)]

  const PT_KA := [
    Row(1, 0, Some(14_999_99), 0, 0),
    Row(2, 15_000_00, None, 200_00, 200_00)]

  const PT_MH := [
    Row(1, 0, Some(7_500_00), 0, 0),
    Row(2, 7_501_00, Some(10_000_00), 175_00, 175_00),
    Row(3, 10_001_00, None, 200_00, 300_00)]

  const PT_TS := [
    Row(1, 0, Some(15_000_00), 0, 0),
    Row(2, 15_001_00, Some(20_000_00), 150_00, 150_00),
    Row(3, 20_001_00, None, 200_00, 200_00)]

  const PT_WB := [
    Row(1, 0, Some(10_000_00), 0, 0),
    Row(2, 10_001_00, Some(15_000_00), 110_00, 110_00),
    Row(3, 15_001_00, Some(25_000_00), 130_00, 130_00),
    Row(4, 25_001_00, Some(40_000_00), 150_00, 150_00),
    Row(5, 40_001_00, None, 200_00, 200_00)]

  const PT_GJ := [
    Row(1, 0, Some(12_000_00), 0, 0),
    Row(2, 12_001_00, None, 200_00, 200_00)]

  const PT_TN := [
    Row(1, 0, Some(21_000_00), 0, 0),
    Row(2, 21_001_00, Some(50_000_00), 104_17, 104_13),
    Row(3, 50_001_00, None, 208_33, 208_37)]

  const PT_SCHEDULES := [PT_DL, PT_KA, PT_MH, PT_TS, PT_WB, PT_GJ, PT_TN]

  predicate PtRowCapped(row: PtSlab) {
    var r := PtOf(Some(row));
    && 0 <= r.monthly && 0 <= r.february && r.annual <= 2_500 * RUPEE
    && (r.annual > 0 ==> 7_501 * RUPEE <= row.from)
  }

  /** Rows in order that charge nobody below 7,501 rupees a month and at most 2,500 a year. */
  ghost predicate PtCapped(slabs: seq<PtSlab>) {
    forall i :: 0 <= i < |slabs| ==> slabs[i].order == i + 1 && PtRowCapped(slabs[i])
  }

  lemma SeededPtCapped(slabs: seq<PtSlab>)
    requires slabs in PT_SCHEDULES
    ensures PtCapped(slabs)
  {
    SmallPtCapped();
    LargePtCapped();
    hide PtCapped;
  }

  lemma SmallPtCapped()
    ensures PtCapped(PT_DL) && PtCapped(PT_KA) && PtCapped(PT_GJ) && PtCapped(PT_MH)
  {
  }

  lemma LargePtCapped()
    ensures PtCapped(PT_TS) && PtCapped(PT_WB) && PtCapped(PT_TN)
  {
  }

  lemma {:induction false} FirstPtSlabFound(slabs: seq<PtSlab>, monthlyGross: int, gender: Gender)
    ensures var f := FirstPtSlab(slabs, monthlyGross, gender);
            && (f.Some? ==> f.value in slabs && PtMatches(f.value, monthlyGross, gender))
            && (f.None? ==> forall s :: s in slabs ==> !PtMatches(s, monthlyGross, gender))
  {
    if slabs != [] {
      FirstPtSlabFound(slabs[1..], monthlyGross, gender);
    }
  }

  /** In every seeded state the year's professional tax is at most 2,500 rupees, the constitutional
      limit, and nothing is charged below 7,501 rupees a month. */
  lemma PtWithinLimit(slabs: seq<PtSlab>, monthlyGross: int, gender: Gender)
    requires slabs in PT_SCHEDULES
    ensures var r := PtOf(FirstPtSlab(SortBy(PT_ORDER, slabs), monthlyGross, gender));
            && 0 <= r.annual <= 2_500 * RUPEE
            && (r.annual > 0 ==> 7_501 * RUPEE <= monthlyGross)
  {
    SeededPtCapped(slabs);
    assert SortedBy(PT_ORDER, slabs);
    SortOfSorted(PT_ORDER, slabs);
    FirstPtSlabFound(slabs, monthlyGross, gender);
    assert PtOf(None).annual == 0;
  }

  // ----- Gaps between the rows

  function AnnualPt(slabs: seq<PtSlab>, monthlyGross: int, gender: Gender): int {
    PtOf(FirstPtSlab(SortBy(PT_ORDER, slabs), monthlyGross, gender)).annual
  }

  function RowAnnual(row: PtSlab): int { PtOf(Some(row)).annual }

  predicate Reaches(row: PtSlab, monthlyGross: int) {
    row.from <= monthlyGross && (row.to.Some? ==> monthlyGross <= row.to.value)
  }

  predicate RowFits(row: PtSlab, order: int) {
    && row.order == order && row.gender == AnyGender && 0 <= RowAnnual(row)
    && (row.to.Some? ==> row.from <= row.to.value)
  }

  predicate StepsUp(row: PtSlab, next: PtSlab) {
    row.to.Some? && row.to.value < next.from && RowAnnual(row) <= RowAnnual(next)
  }

  /** Rows for everyone, one above the other though not always end to end, that charge no less higher up. */
  ghost predicate PtClimbs(slabs: seq<PtSlab>) {
    && (forall i :: 0 <= i < |slabs| ==> RowFits(slabs[i], i + 1))
    && forall i :: 0 <= i < |slabs| - 1 ==> StepsUp(slabs[i], slabs[i + 1])
  }

  lemma RowsClimb(slabs: seq<PtSlab>, i: nat, j: nat)
    requires PtClimbs(slabs) && i < j < |slabs|
    ensures slabs[i].to.Some? && slabs[i].to.value < slabs[j].from && RowAnnual(slabs[i]) <= RowAnnual(slabs[j])
    decreases j - i
  {
    hide RowAnnual;
    assert StepsUp(slabs[i], slabs[i + 1]);
    if i + 1 < j {
      RowsClimb(slabs, i + 1, j);
    }
  }

  lemma UpToThreeClimb(slabs: seq<PtSlab>)
    requires 1 <= |slabs| <= 3 && RowFits(slabs[0], 1)
    requires |slabs| > 1 ==> RowFits(slabs[1], 2) && StepsUp(slabs[0], slabs[1])
    requires |slabs| > 2 ==> RowFits(slabs[2], 3) && StepsUp(slabs[1], slabs[2])
    ensures PtClimbs(slabs)
  {
    hide RowFits, StepsUp;
  }

  lemma FiveClimb(slabs: seq<PtSlab>)
    requires |slabs| == 5
    requires RowFits(slabs[0], 1) && RowFits(slabs[1], 2) && RowFits(slabs[2], 3)
    requires RowFits(slabs[3], 4) && RowFits(slabs[4], 5)
    requires StepsUp(slabs[0], slabs[1]) && StepsUp(slabs[1], slabs[2])
    requires StepsUp(slabs[2], slabs[3]) && StepsUp(slabs[3], slabs[4])
    ensures PtClimbs(slabs)
  {
    hide RowFits, StepsUp;
  }

  lemma SeededPtClimbs(slabs: seq<PtSlab>)
    requires slabs in PT_SCHEDULES
    ensures PtClimbs(slabs)
  {
    UpToThreeClimb(PT_DL);
    UpToThreeClimb(PT_KA);
    UpToThreeClimb(PT_GJ);
    UpToThreeClimb(PT_MH);
    UpToThreeClimb(PT_TS);
    UpToThreeClimb(PT_TN);
    FiveClimb(PT_WB);
    hide PtClimbs;
  }

  lemma AnnualOfRow(slabs: seq<PtSlab>, monthlyGross: int, gender: Gender, i: nat)
    requires PtClimbs(slabs) && i < |slabs| && Reaches(slabs[i], monthlyGross)
    ensures AnnualPt(slabs, monthlyGross, gender) == RowAnnual(slabs[i])
  {
    SortOfSorted(PT_ORDER, slabs);
    FirstPtSlabFound(slabs, monthlyGross, gender);
    hide SortBy, FirstPtSlab, PtOf;
    assert slabs[i] in slabs && PtMatches(slabs[i], monthlyGross, gender);
    var j: nat :| j < |slabs| && slabs[j] == FirstPtSlab(slabs, monthlyGross, gender).value;
    if i < j {
      RowsClimb(slabs, i, j);
    } else if j < i {
      RowsClimb(slabs, j, i);
    }
  }

  lemma AnnualInGap(slabs: seq<PtSlab>, monthlyGross: int, gender: Gender)
    requires PtClimbs(slabs) && forall i :: 0 <= i < |slabs| ==> !Reaches(slabs[i], monthlyGross)
    ensures AnnualPt(slabs, monthlyGross, gender) == 0
  {
    SortOfSorted(PT_ORDER, slabs);
    FirstPtSlabFound(slabs, monthlyGross, gender);
    hide SortBy, FirstPtSlab;
  }

  ghost predicate Covered(slabs: seq<PtSlab>, monthlyGross: int) {
    exists i :: 0 <= i < |slabs| && Reaches(slabs[i], monthlyGross)
  }

  /** What a lower gross pays comes from a row that starts no higher. */
  lemma AnnualFromRow(slabs: seq<PtSlab>, monthlyGross: int, gender: Gender) returns (i: Option<nat>)
    requires PtClimbs(slabs)
    ensures i.Some? ==> i.value < |slabs| && Reaches(slabs[i.value], monthlyGross)
                        && AnnualPt(slabs, monthlyGross, gender) == RowAnnual(slabs[i.value])
    ensures i.None? ==> !Covered(slabs, monthlyGross) && AnnualPt(slabs, monthlyGross, gender) == 0
  {
    if j: nat :| j < |slabs| && Reaches(slabs[j], monthlyGross) {
      AnnualOfRow(slabs, monthlyGross, gender, j);
      i := Some(j);
    } else {
      AnnualInGap(slabs, monthlyGross, gender);
      i := None;
    }
  }

  ghost predicate NothingChargedBelow(slabs: seq<PtSlab>, monthlyGross: int) {
    forall i :: 0 <= i < |slabs| && slabs[i].to.Some? && slabs[i].to.value < monthlyGross ==> RowAnnual(slabs[i]) == 0
  }

  /** The seeded rows leave gaps of paise between them, where nothing is charged: at a monthly gross no
      lower one pays more, in any seeded state, exactly when some row covers it or no row that ends
      below it charges. */
  lemma NoLowerGrossPaysMoreExactly(slabs: seq<PtSlab>, monthlyGross: int, gender: Gender)
    requires slabs in PT_SCHEDULES
    ensures (forall lower :: lower <= monthlyGross ==>
               AnnualPt(slabs, lower, gender) <= AnnualPt(slabs, monthlyGross, gender))
            <==> Covered(slabs, monthlyGross) || NothingChargedBelow(slabs, monthlyGross)
  {
    SeededPtClimbs(slabs);
    hide AnnualPt, RowAnnual, PtClimbs;
    var i := AnnualFromRow(slabs, monthlyGross, gender);
    if Covered(slabs, monthlyGross) || NothingChargedBelow(slabs, monthlyGross) {
      forall lower | lower <= monthlyGross
        ensures AnnualPt(slabs, lower, gender) <= AnnualPt(slabs, monthlyGross, gender)
      {
        var j := AnnualFromRow(slabs, lower, gender);
        NotBelow(slabs, lower, monthlyGross, j, i);
      }
    } else {
      var k: nat :| k < |slabs| && slabs[k].to.Some? && slabs[k].to.value < monthlyGross && RowAnnual(slabs[k]) != 0;
      EndOfRow(slabs, k);
      AnnualOfRow(slabs, slabs[k].to.value, gender, k);
    }
  }

  lemma EndOfRow(slabs: seq<PtSlab>, k: nat)
    requires PtClimbs(slabs) && k < |slabs| && slabs[k].to.Some?
    ensures Reaches(slabs[k], slabs[k].to.value) && 0 <= RowAnnual(slabs[k])
  {
    hide RowAnnual;
  }

  lemma NotBelow(slabs: seq<PtSlab>, lower: int, monthlyGross: int, j: Option<nat>, i: Option<nat>)
    requires PtClimbs(slabs) && lower <= monthlyGross
    requires j.Some? ==> j.value < |slabs| && Reaches(slabs[j.value], lower)
    requires i.Some? ==> i.value < |slabs| && Reaches(slabs[i.value], monthlyGross)
    requires Covered(slabs, monthlyGross) ==> i.Some?
    requires Covered(slabs, monthlyGross) || NothingChargedBelow(slabs, monthlyGross)
    ensures (if j.Some? then RowAnnual(slabs[j.value]) else 0) <= (if i.Some? then RowAnnual(slabs[i.value]) else 0)
  {
    hide RowAnnual;
    if j.Some? && i.Some? {
      if j.value < i.value {
        RowsClimb(slabs, j.value, i.value);
      } else if i.value < j.value {
        RowsClimb(slabs, i.value, j.value);
      }
    } else if j.Some? {
      assert !Reaches(slabs[j.value], monthlyGross);
    }
  }

  // ----- Take-home

  datatype Calculation = Calculation(salary: NormalizedSalary, tax: TaxResult, pf: PfResult, pt: PtResult) {
    function TakeHome(): int {
      salary.gross - tax.assessed.total - pf.annualEmployee - pt.annual - salary.otherDeductions
    }
  }

  function Calculate(
      salary: NormalizedSalary, optIn: bool, rules: RuleSet, pfRules: PfRules, pt: seq<PtSlab>): Calculation
  {
    Calculation(
      salary,
      CalculateTax(TaxInput(salary.gross, None, 0, 0, 0, 0), rules),
      CalculatePf(salary.pfWageBase, true, optIn, pfRules),
      PtOf(FirstPtSlab(SortBy(PT_ORDER, pt), salary.monthlyGross, AnyGender)))
  }

  /** The five checks the validator makes before a result is stored. */
  predicate Validates(c: Calculation, takeHome: int) {
    && 0 <= c.salary.gross
    && 0 <= c.tax.assessed.total
    && 0 <= c.pf.annualEmployee
    && 0 <= c.pt.annual
    && Abs(takeHome - c.TakeHome()) <= RUPEE
  }

  /** The slab tax never exceeds 30% of the income by more than half a paisa, at any paisa. */
  lemma SlabTaxBound(x: int, slabs: seq<Slab>)
    requires SlabChain(slabs) && WholePercentSlabs(slabs)
    ensures RATE_ONE * SlabTax(x, slabs) <= TOP_SLAB_RATE * Max(0, x - slabs[0].from) + RATE_ONE / 2
  {
    FirstOnRupee(slabs);
    hide SlabTax, ExactTax, SlabChain, WholePercentSlabs;
    var low := Min(x, slabs[0].from);
    NothingBelow(low, slabs);
    ExactTaxSlope(low, x, slabs);
    RoundedOnce(x, slabs);
  }

  /** Tax and surcharge never exceed the slab tax and 37% of it. */
  lemma BaseBound(x: int, rules: RuleSet, slabs: seq<Slab>, bands: seq<SurchargeBand>)
    requires WellFormed(rules, slabs, bands) && forall b :: b in bands ==> b.rate <= 3700
    ensures 0 <= Assess(x, rules).taxAndSurcharge <= SlabTax(x, slabs) + AtRate(SlabTax(x, slabs), 3700)
  {
    hide Assess, SlabTax, AtRate;
    TaxAndSurchargeMonotone(x, x, rules, slabs, bands);
    SlabTaxMonotone(x, x, slabs);
    AtRateMonotone(0, SlabTax(x, slabs), 3700);
    if bands == [] || x < bands[0].from {
      ChargedBelowBands(x, rules, slabs, bands);
      TaxAfterRebate(x, rules, slabs);
    } else {
      var i := BandOf(x, bands, slabs);
      ChargedByAnyBand(x, i, rules, slabs, bands);
      AtRateMonotoneInRate(SlabTax(x, slabs), bands[i].rate, 3700);
    }
  }

  lemma TotalFraction(x: int, slabTax: nat, base: nat)
    requires 250 * RUPEE <= x && RATE_ONE * slabTax <= TOP_SLAB_RATE * x + RATE_ONE / 2
    requires base <= slabTax + AtRate(slabTax, 3700)
    ensures 100 * RoundToTenRupees(base + AtRate(base, 400)) <= 45 * x
  {
    assert RATE_ONE * AtRate(slabTax, 3700) <= 3700 * slabTax + RATE_ONE;
    assert RATE_ONE * AtRate(base, 400) <= 400 * base + RATE_ONE;
    hide AtRate;
  }

  /** The whole tax is never more than 45% of the taxable income, at any paisa from 250 rupees on;
      below that the rounding to ten rupees can outweigh it, unless a rebate leaves nothing due. */
  lemma TaxFraction(x: nat, rules: RuleSet, slabs: seq<Slab>, bands: seq<SurchargeBand>)
    requires WellFormed(rules, slabs, bands) && WholePercentSlabs(slabs) && rules.cessRates == [400]
    requires forall b :: b in bands ==> b.rate <= 3700
    ensures 0 <= Assess(x, rules).total
    ensures 250 * RUPEE <= x ==> 100 * Assess(x, rules).total <= 45 * x
    ensures rules.rebates != [] && x <= rules.rebates[0].threshold && (bands == [] || x < bands[0].from)
            ==> Assess(x, rules).total == 0
  {
    hide Assess, SlabTax, AtRate, RoundToTenRupees, Cess;
    var e := Assess(x, rules);
    AssessmentConclusion(x, rules);
    BaseBound(x, rules, slabs, bands);
    TotalMonotone(x, x, rules, slabs, bands);
    SingleCess(e.taxAndSurcharge);
    if rules.rebates != [] && x <= rules.rebates[0].threshold && (bands == [] || x < bands[0].from) {
      ChargedBelowBands(x, rules, slabs, bands);
      TaxAfterRebate(x, rules, slabs);
      AtRateOfZero(400);
      ZeroRounds();
    }
    if 250 * RUPEE <= x {
      SlabTaxBound(x, slabs);
      SlabTaxMonotone(x, x, slabs);
      TotalFraction(x, SlabTax(x, slabs), e.taxAndSurcharge);
    }
  }

  lemma SeededTaxFraction(x: nat, rules: RuleSet)
    requires Seeded(rules)
    ensures 0 <= 100 * Assess(x, rules).total <= 45 * x
  {
    hide Assess, WellFormed;
    SeededWellFormed(rules);
    TaxFraction(x, rules, rules.slabs, rules.surcharges);
  }

  /** The employee's fund share is never more than an eighth of the salary. */
  lemma PfFraction(gross: nat, optIn: bool)
    requires 0 < gross
    ensures var base := PerMonth(AtRate(gross, 5000));
            0 <= 8 * CalculatePf(base, true, optIn, PF_RULES).annualEmployee <= gross
  {
    var basic := AtRate(gross, 5000);
    assert 2 * basic <= gross + 1;
    var base := PerMonth(basic);
    assert 0 <= basic && 0 <= base && 24 * base <= 2 * basic + 12;
    hide PerMonth;
    var r := CalculatePf(base, true, optIn, PF_RULES);
    if base > 0 {
      var b := if optIn then base else Min(base, 15_000 * RUPEE);
      assert r.annualEmployee == 12 * AtRate(b, 1200);
      TwelvePercent(b);
    }
  }

  lemma TwelvePercent(b: nat)
    ensures b <= 4 ==> AtRate(b, 1200) == 0
    ensures 0 <= 100 * AtRate(b, 1200) <= 12 * b + 50
  {
  }

  lemma TaxableAtMostGross(gross: nat, rules: RuleSet)
    requires Seeded(rules)
    ensures 0 <= TaxableIncome(TaxInput(gross, None, 0, 0, 0, 0), rules) <= gross
  {
    assert TaxInput(gross, None, 0, 0, 0, 0) == NewInput(gross, 0, 0);
    if rules == OLD {
      OldTaxable(gross, 0, 0);
    } else {
      NewTaxable(gross, 0, 0, rules);
    }
    hide TaxableIncome;
  }

  /** No amount is negative and no component is given: at most a gross by the year or the month, a
      cost to company, and deductions. */
  predicate WithoutComponents(inp: SalaryInput) {
    FirstNegative(inp.Amounts(), 0).None? && GivenComponents(inp) == 0
  }

  /** Without components the stated gross is split, and everything else counts as nothing. */
  lemma NormalizedWithoutComponents(inp: SalaryInput)
    requires WithoutComponents(inp)
    ensures StatedGross(inp).None? ==> Normalized(inp) == NoAmount
    ensures StatedGross(inp).Some? ==>
              StatedGross(inp).value > 0 && Normalized(inp) == Normal(SplitGross(inp, StatedGross(inp).value))
    ensures AmountOr0(inp.da) == AmountOr0(inp.bonus) == AmountOr0(inp.otherAllowances) == 0
  {
    NoneNegative(inp.Amounts(), 0);
    assert inp.Amounts()[3] == inp.basic && inp.Amounts()[4] == inp.da && inp.Amounts()[5] == inp.hra;
    assert inp.Amounts()[6] == inp.special && inp.Amounts()[7] == inp.bonus;
    assert inp.Amounts()[8] == inp.otherAllowances;
    hide AtRate, PerMonth, FirstNegative;
  }
}
