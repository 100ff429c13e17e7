/**
 The amounts behind the take-home, each by what it must be and not by how it is computed: the parts of
 a salary, the fund shares, the professional tax of every seeded state, and the taxable income.
 */
module SalaryAmounts {
  import opened Money
  import opened Sorting
  import opened TaxRules
  import opened TaxEngine
  import opened TaxSeeds
  import opened TaxAgreement
  import opened Salary

  /** The whole paise nearest to `num / den`, the upper one of two: no other amount is. */
  predicate Nearest(amount: int, num: int, den: int) {
    -den < 2 * (den * amount - num) <= den
  }

  lemma NearestIsOne(a: int, b: int, num: int, den: nat)
    requires Nearest(a, num, den) && Nearest(b, num, den)
    ensures a == b
  {
    if a < b {
      assert den * a + den <= den * b by { MulMonotone(1, b - a, den); }
    } else if b < a {
      assert den * b + den <= den * a by { MulMonotone(1, a - b, den); }
    }
  }

  lemma AtRateNearest(amount: nat, rate: nat)
    ensures Nearest(AtRate(amount, rate), rate * amount, 10_000)
  {
    assert 0 <= amount * rate;
    QuantizeNearest(amount * rate);
  }

  lemma QuantizeNearest(scaled: nat)
    ensures Nearest(Quantize(scaled), scaled, 10_000)
  {
  }

  lemma PerMonthNearest(annual: nat)
    ensures Nearest(PerMonth(annual), annual, 12) && PerMonth(annual) >= 0
  {
  }

  // ----- Fund shares

  /** A share of a base at a rate in ten-thousandths: of the whole base, or of the ceiling where there
      is one. */
  ghost predicate ShareUpTo(share: int, rate: nat, base: int, capped: bool, ceiling: int) {
    && (!capped || base <= ceiling ==> Nearest(share, rate * base, 10_000))
    && (capped && base >= ceiling ==> Nearest(share, rate * ceiling, 10_000))
  }

  /** The year is twelve months, and the employer's fund share is what is left of the employee's after
      the pension share, if anything is. */
  predicate SharesAddUp(r: PfResult) {
    && r.annualEmployee == 12 * r.monthlyEmployee && r.annualEmployerEpf == 12 * r.monthlyEmployerEpf
    && r.annualEps == 12 * r.monthlyEps && r.annualEdli == 12 * r.monthlyEdli
    && (r.monthlyEps <= r.monthlyEmployee ==> r.monthlyEmployerEpf + r.monthlyEps == r.monthlyEmployee)
    && (r.monthlyEps >= r.monthlyEmployee ==> r.monthlyEmployerEpf == 0)
    && r.totalMonthlyEmployer == r.monthlyEmployerEpf + r.monthlyEps + r.monthlyEdli
    && r.totalAnnualEmployer == 12 * r.totalMonthlyEmployer
  }

  /** The shares under any rules: the employee's is of the whole wage base when opted in, and otherwise
      of the base up to the ceiling; the pension and insurance shares are always of the base up to
      theirs; nobody without a wage base or outside the fund pays anything. */
  lemma FundShares(wageBase: int, applicable: bool, optIn: bool, rules: PfRules)
    requires 0 <= rules.ceiling && 0 <= rules.epsCeiling
    ensures var r := CalculatePf(wageBase, applicable, optIn, rules);
            && SharesAddUp(r)
            && (!applicable || wageBase <= 0 ==>
                  r.monthlyEmployee == r.monthlyEmployerEpf == r.monthlyEps == r.monthlyEdli == 0)
            && (applicable && wageBase > 0 ==>
                  && ShareUpTo(r.monthlyEmployee, rules.employeeRate, wageBase, !optIn, rules.ceiling)
                  && ShareUpTo(r.monthlyEps, rules.epsRate, wageBase, true, rules.epsCeiling)
                  && ShareUpTo(r.monthlyEdli, rules.edliRate, wageBase, true, rules.epsCeiling))
  {
    if applicable && wageBase > 0 {
      var whole, low, eps := wageBase, Min(wageBase, rules.ceiling), Min(wageBase, rules.epsCeiling);
      AtRateNearest(whole, rules.employeeRate);
      AtRateNearest(low, rules.employeeRate);
      AtRateNearest(eps, rules.epsRate);
      AtRateNearest(eps, rules.edliRate);
      hide AtRate, Nearest;
    }
  }

  /** The shares as seeded, a month: the employee's is 12% of the wage base when opted in or up to 15,000
      rupees, and otherwise 1,800 rupees; the pension share is 8.33% and the insurance share 0.5% of
      the base up to 15,000 rupees, so at most 1,249.50 and 75 rupees. */
  lemma SeededFundShares(wageBase: int, optIn: bool)
    requires wageBase > 0
    ensures var r := CalculatePf(wageBase, true, optIn, PF_RULES);
            && (optIn || wageBase <= 15_000_00 ==> Nearest(r.monthlyEmployee, 12 * wageBase, 100))
            && (!optIn && wageBase >= 15_000_00 ==> r.monthlyEmployee == 1_800_00)
            && (wageBase <= 15_000_00 ==>
                  && Nearest(r.monthlyEps, 833 * wageBase, 10_000) && r.monthlyEps <= 1_249_50
                  && Nearest(r.monthlyEdli, wageBase, 200) && r.monthlyEdli <= 75_00)
            && (wageBase >= 15_000_00 ==> r.monthlyEps == 1_249_50 && r.monthlyEdli == 75_00)
            && r.monthlyEmployerEpf + r.monthlyEps == r.monthlyEmployee
            && SharesAddUp(r)
  {
    FundShares(wageBase, true, optIn, PF_RULES);
    EmployerMatchesEmployee(wageBase, true, optIn, PF_RULES);
    hide CalculatePf;
  }

  // ----- Professional tax

  /** What a search of the rows must find: one of those that match with the lowest order number, charged
      for eleven months and once for February; without such a row nothing is charged. */
  lemma PtExactly(slabs: seq<PtSlab>, monthlyGross: int, gender: Gender)
    ensures var r := PtOf(FirstPtSlab(SortBy(PT_ORDER, slabs), monthlyGross, gender));
            if forall row :: row in slabs ==> !PtMatches(row, monthlyGross, gender) then
              r.monthly == r.february == r.annual == 0
            else
              exists row :: row in slabs && PtMatches(row, monthlyGross, gender)
                && (forall other :: other in slabs && PtMatches(other, monthlyGross, gender) ==>
                      row.order <= other.order)
                && r.monthly == row.monthly
                && (row.february == None ==> r.february == row.monthly)
                && (row.february != None ==> r.february == row.february.value)
                && r.annual == 11 * r.monthly + r.february
  {
    var sorted := SortBy(PT_ORDER, slabs);
    SortKeepsRows(PT_ORDER, slabs);
    hide SortBy, FirstPtSlab, PtMatches;
    SameRows(slabs, sorted);
    FirstPtSlabIsLowest(sorted, monthlyGross, gender);
    var found := FirstPtSlab(sorted, monthlyGross, gender);
    if found.Some? {
      assert found.value in slabs;
    }
  }

  lemma SameRows<T>(a: seq<T>, b: seq<T>)
    requires multiset(a) == multiset(b)
    ensures forall x :: x in a <==> x in b
  {
    forall x ensures x in a <==> x in b {
      assert x in multiset(a) <==> x in multiset(b);
    }
  }

  lemma {:induction false} FirstPtSlabIsLowest(sorted: seq<PtSlab>, monthlyGross: int, gender: Gender)
    requires SortedBy(PT_ORDER, sorted)
    ensures var found := FirstPtSlab(sorted, monthlyGross, gender);
            && (found.None? ==> forall row :: row in sorted ==> !PtMatches(row, monthlyGross, gender))
            && (found.Some? ==>
                  && found.value in sorted && PtMatches(found.value, monthlyGross, gender)
                  && forall row :: row in sorted && PtMatches(row, monthlyGross, gender) ==>
                       found.value.order <= row.order)
  {
    if sorted != [] {
      var head, tail := sorted[0], sorted[1..];
      FirstPtSlabIsLowest(tail, monthlyGross, gender);
      forall row | row in sorted ensures row == head || row in tail
        ensures head.order <= row.order
      {
        var i :| 0 <= i < |sorted| && sorted[i] == row;
        assert i > 0 ==> tail[i - 1] == row && PT_ORDER(head) <= PT_ORDER(row);
      }
      hide PtMatches, SortedBy;
    }
  }

  lemma RowCharges(slabs: seq<PtSlab>, monthlyGross: int, gender: Gender, i: nat)
    requires slabs in PT_SCHEDULES && i < |slabs| && slabs[i].february.Some?
    requires slabs[i].from <= monthlyGross && (slabs[i].to.Some? ==> monthlyGross <= slabs[i].to.value)
    ensures AnnualPt(slabs, monthlyGross, gender) == 11 * slabs[i].monthly + slabs[i].february.value
  {
    SeededPtClimbs(slabs);
    hide PtClimbs, AnnualPt;
    AnnualOfRow(slabs, monthlyGross, gender, i);
  }

  lemma GapIsFree(slabs: seq<PtSlab>, monthlyGross: int, gender: Gender)
    requires slabs in PT_SCHEDULES
    requires forall i :: 0 <= i < |slabs| ==> !Reaches(slabs[i], monthlyGross)
    ensures AnnualPt(slabs, monthlyGross, gender) == 0
  {
    SeededPtClimbs(slabs);
    hide PtClimbs, AnnualPt;
    AnnualInGap(slabs, monthlyGross, gender);
  }

  lemma YearOfTwoRows(m: int, gender: Gender)
    ensures AnnualPt(PT_DL, m, gender) == 0
    ensures AnnualPt(PT_KA, m, gender) == if 15_000_00 <= m then 2_400_00 else 0
    ensures AnnualPt(PT_GJ, m, gender) == if 12_001_00 <= m then 2_400_00 else 0
  {
    hide AnnualPt;
    if 0 <= m {
      RowCharges(PT_DL, m, gender, 0);
    } else {
      GapIsFree(PT_DL, m, gender);
    }
    if 15_000_00 <= m {
      RowCharges(PT_KA, m, gender, 1);
    } else if 0 <= m {
      RowCharges(PT_KA, m, gender, 0);
    } else {
      GapIsFree(PT_KA, m, gender);
    }
    if 12_001_00 <= m {
      RowCharges(PT_GJ, m, gender, 1);
    } else if 0 <= m <= 12_000_00 {
      RowCharges(PT_GJ, m, gender, 0);
    } else {
      GapIsFree(PT_GJ, m, gender);
    }
  }

  /** With three rows: the second and the third charge, and nothing else does. */
  lemma YearOfThreeRows(slabs: seq<PtSlab>, m: int, gender: Gender)
    requires slabs in PT_SCHEDULES && |slabs| == 3 && slabs[1].to.Some? && slabs[2].to.None?
    requires forall i :: 0 <= i < 3 ==> slabs[i].february.Some?
    requires slabs[0].monthly == 0 && slabs[0].february == Some(0)
    ensures AnnualPt(slabs, m, gender)
            == if slabs[1].from <= m <= slabs[1].to.value then 11 * slabs[1].monthly + slabs[1].february.value
               else if slabs[2].from <= m then 11 * slabs[2].monthly + slabs[2].february.value
               else 0
  {
    hide AnnualPt;
    if slabs[1].from <= m <= slabs[1].to.value {
      RowCharges(slabs, m, gender, 1);
    } else if slabs[2].from <= m {
      RowCharges(slabs, m, gender, 2);
    } else if Reaches(slabs[0], m) {
      RowCharges(slabs, m, gender, 0);
    } else {
      GapIsFree(slabs, m, gender);
    }
  }

  lemma YearOfFiveRows(m: int, gender: Gender)
    ensures AnnualPt(PT_WB, m, gender)
            == if 10_001_00 <= m <= 15_000_00 then 1_320_00
               else if 15_001_00 <= m <= 25_000_00 then 1_560_00
               else if 25_001_00 <= m <= 40_000_00 then 1_800_00
               else if 40_001_00 <= m then 2_400_00
               else 0
  {
    hide AnnualPt;
    var i := if m <= 10_000_00 then 0 else if m <= 15_000_00 then 1 else if m <= 25_000_00 then 2
             else if m <= 40_000_00 then 3 else 4;
    if Reaches(PT_WB[i], m) {
      RowCharges(PT_WB, m, gender, i);
    } else {
      GapIsFree(PT_WB, m, gender);
    }
  }

  /** The year's professional tax in every seeded state, by the monthly gross. */
  ghost predicate YearlyPt(slabs: seq<PtSlab>, m: int, annual: int) {
    && (slabs == PT_DL ==> annual == 0)
    && (slabs == PT_KA ==> annual == if 15_000_00 <= m then 2_400_00 else 0)
    && (slabs == PT_GJ ==> annual == if 12_001_00 <= m then 2_400_00 else 0)
    && (slabs == PT_MH ==>
          annual == if 7_501_00 <= m <= 10_000_00 then 2_100_00 else if 10_001_00 <= m then 2_500_00 else 0)
    && (slabs == PT_TS ==>
          annual == if 15_001_00 <= m <= 20_000_00 then 1_800_00 else if 20_001_00 <= m then 2_400_00 else 0)
    && (slabs == PT_TN ==>
          annual == if 21_001_00 <= m <= 50_000_00 then 1_250_00 else if 50_001_00 <= m then 2_500_00 else 0)
    && (slabs == PT_WB ==>
          annual == if 10_001_00 <= m <= 15_000_00 then 1_320_00 else if 15_001_00 <= m <= 25_000_00 then 1_560_00
                    else if 25_001_00 <= m <= 40_000_00 then 1_800_00 else if 40_001_00 <= m then 2_400_00 else 0)
  }

  lemma SeededYearlyPt(slabs: seq<PtSlab>, m: int, gender: Gender)
    requires slabs in PT_SCHEDULES
    ensures YearlyPt(slabs, m, AnnualPt(slabs, m, gender))
  {
    hide AnnualPt;
    YearOfTwoRows(m, gender);
    YearOfThreeRows(PT_MH, m, gender);
    YearOfThreeRows(PT_TS, m, gender);
    YearOfThreeRows(PT_TN, m, gender);
    YearOfFiveRows(m, gender);
  }

  // ----- The parts of a salary

  /** The gross a caller states: the annual one if positive, else twelve times the monthly one, else the
      cost to company. */
  ghost predicate StatedAs(inp: SalaryInput, gross: Option<int>) {
    if inp.annualGross != None && inp.annualGross.value > 0 then gross == inp.annualGross
    else if inp.monthlyGross != None && inp.monthlyGross.value > 0 then gross == Some(12 * inp.monthlyGross.value)
    else if inp.annualCtc != None && inp.annualCtc.value > 0 then gross == inp.annualCtc
    else gross == None
  }

  /** An amount that was given, and nothing for one that was left out. */
  predicate Given(amount: int, o: Option<int>) {
    && (o == None ==> amount == 0)
    && (o != None ==> amount == o.value)
  }

  /** The parts taken over as they were given. */
  predicate TakenOver(s: NormalizedSalary, inp: SalaryInput) {
    && Given(s.basic, inp.basic) && Given(s.da, inp.da) && Given(s.hra, inp.hra)
    && Given(s.bonus, inp.bonus) && Given(s.otherAllowances, inp.otherAllowances)
    && Given(s.otherDeductions, inp.otherDeductions)
  }

  /** The parts of a gross that came without any: half, a fifth and the rest. */
  ghost predicate Split(s: NormalizedSalary, inp: SalaryInput) {
    && Nearest(s.basic, s.gross, 2) && Nearest(s.hra, s.gross, 5) && s.basic + s.hra + s.special == s.gross
    && s.da == s.bonus == s.otherAllowances == 0 && Given(s.otherDeductions, inp.otherDeductions)
  }

  lemma NormalizedFields(inp: SalaryInput)
    requires Normalized(inp).Normal?
    ensures var s := Normalized(inp).salary;
            var given := AmountOr0(inp.basic) + AmountOr0(inp.da) + AmountOr0(inp.hra) + AmountOr0(inp.special)
                         + AmountOr0(inp.bonus) + AmountOr0(inp.otherAllowances);
            && StatedAs(inp, StatedGross(inp))
            && s.gross > 0
            && (StatedGross(inp) != None ==> Some(s.gross) == StatedGross(inp))
            && (StatedGross(inp) == None ==> s.gross == given)
            && (given == 0 ==> Split(s, inp))
            && (given > 0 ==>
                  && TakenOver(s, inp)
                  && (given < s.gross - 1_00 && AmountOr0(inp.special) == 0 ==> s.special == s.gross - given)
                  && (!(given < s.gross - 1_00 && AmountOr0(inp.special) == 0) ==> Given(s.special, inp.special)))
            && 0 <= s.basic + s.da
            && Nearest(s.monthlyGross, s.gross, 12) && Nearest(s.pfWageBase, s.basic + s.da, 12)
  {
    hide AtRate, PerMonth, FirstNegative, Nearest;
    PartsNotNegative(inp);
    var s := Normalized(inp).salary;
    SplitParts(s.gross);
    PerMonthNearest(s.gross);
    PerMonthNearest(s.basic + s.da);
  }

  lemma PartsNotNegative(inp: SalaryInput)
    requires FirstNegative(inp.Amounts(), 0).None?
    ensures AmountOr0(inp.basic) >= 0 && AmountOr0(inp.da) >= 0 && AmountOr0(inp.hra) >= 0
    ensures AmountOr0(inp.special) >= 0 && AmountOr0(inp.bonus) >= 0 && AmountOr0(inp.otherAllowances) >= 0
  {
    NoneNegative(inp.Amounts(), 0);
    var a := inp.Amounts();
    assert a[3] == inp.basic && a[4] == inp.da && a[5] == inp.hra && a[6] == inp.special;
    assert a[7] == inp.bonus && a[8] == inp.otherAllowances;
    hide FirstNegative;
  }

  lemma SplitParts(gross: nat)
    ensures Nearest(AtRate(gross, 5000), gross, 2) && AtRate(gross, 5000) >= 0
    ensures Nearest(AtRate(gross, 2000), gross, 5) && AtRate(gross, 2000) >= 0
  {
  }

  /** Which inputs are refused: one with a negative amount, for the first of them, and one without any
      positive amount by the year, the month, the cost to company or the parts. */
  lemma RefusedSalary(inp: SalaryInput)
    ensures var amounts := inp.Amounts();
            var r := Normalized(inp);
            && (r.NegativeField? <==> exists i :: 0 <= i < 10 && amounts[i] != None && amounts[i].value < 0)
            && (r.NegativeField? ==>
                  && r.index < 10 && amounts[r.index] != None && amounts[r.index].value < 0
                  && forall j :: 0 <= j < r.index ==> amounts[j] == None || amounts[j].value >= 0)
            && (r.NoAmount? <==>
                  && (forall i :: 0 <= i < 10 ==> amounts[i] == None || amounts[i].value >= 0)
                  && forall i :: 0 <= i < 9 ==> amounts[i] == None || amounts[i].value == 0)
  {
    hide FirstNegative, Normalized;
    FirstNegativeIsFirst(inp.Amounts(), 0);
    WhenRefused(inp);
    if FirstNegative(inp.Amounts(), 0).None? {
      WhenEmpty(inp);
    }
  }

  lemma WhenRefused(inp: SalaryInput)
    ensures Normalized(inp).NegativeField? <==> FirstNegative(inp.Amounts(), 0).Some?
    ensures Normalized(inp).NegativeField? ==> FirstNegative(inp.Amounts(), 0) == Some(Normalized(inp).index)
    ensures Normalized(inp).NoAmount? <==>
              FirstNegative(inp.Amounts(), 0).None? && GivenComponents(inp) <= 0 && StatedGross(inp).None?
  {
    hide FirstNegative, GivenComponents, StatedGross, AtRate, PerMonth;
  }

  lemma WhenEmpty(inp: SalaryInput)
    requires FirstNegative(inp.Amounts(), 0).None?
    ensures GivenComponents(inp) <= 0 && StatedGross(inp).None?
            <==> forall i :: 0 <= i < 9 ==> inp.Amounts()[i] == None || inp.Amounts()[i].value == 0
  {
    NoneNegative(inp.Amounts(), 0);
    var a := inp.Amounts();
    assert a[0] == inp.annualCtc && a[1] == inp.annualGross && a[2] == inp.monthlyGross;
    assert a[3] == inp.basic && a[4] == inp.da && a[5] == inp.hra && a[6] == inp.special;
    assert a[7] == inp.bonus && a[8] == inp.otherAllowances;
    hide FirstNegative;
  }

  lemma {:induction false} FirstNegativeIsFirst(amounts: seq<Option<int>>, from: nat)
    requires from <= |amounts|
    ensures var i := FirstNegative(amounts, from);
            && (i.None? ==> forall j :: from <= j < |amounts| ==> amounts[j] == None || amounts[j].value >= 0)
            && (i.Some? ==>
                  && from <= i.value < |amounts| && amounts[i.value] != None && amounts[i.value].value < 0
                  && forall j :: from <= j < i.value ==> amounts[j] == None || amounts[j].value >= 0)
    decreases |amounts| - from
  {
    if from < |amounts| {
      FirstNegativeIsFirst(amounts, from + 1);
    }
  }

  // ----- Taxable income

  predicate Smaller(x: int, a: int, b: int) { (x == a || x == b) && x <= a && x <= b }

  function StandardLimit(rules: RuleSet): int { if rules == OLD then 50_000_00 else 75_000_00 }

  function Limit80c(rules: RuleSet): int { if rules == OLD then 1_50_000_00 else 0 }

  function Limit80d(rules: RuleSet): int { if rules == OLD then 25_000_00 else 0 }

  /** What is taken off the gross under the seeded rules, whatever is claimed: the standard deduction or
      the amount put in its place, the two sections up to their limits, of which the new regime knows
      none, and the other deductions and exemptions in full. */
  lemma TaxableExactly(inp: TaxInput, rules: RuleSet)
    requires Seeded(rules)
    ensures var r := CalculateTax(inp, rules);
            var rest := inp.gross - r.standardDeduction - r.claimed80c - r.claimed80d - inp.otherDeductions
                        - inp.otherExemptions;
            && (inp.standardOverride == None ==> Smaller(r.standardDeduction, inp.gross, StandardLimit(rules)))
            && (inp.standardOverride != None ==>
                  Smaller(r.standardDeduction, inp.gross, inp.standardOverride.value))
            && Smaller(r.claimed80c, inp.section80c, Limit80c(rules))
            && Smaller(r.claimed80d, inp.section80d, Limit80d(rules))
            && (rest >= 0 ==> r.taxable == rest) && (rest <= 0 ==> r.taxable == 0)
            && r.assessed == Assess(r.taxable, rules)
  {
    if rules == OLD {
      OldLimits();
    } else {
      NewLimits(rules.deductions[0]);
    }
    hide SectionRule, StandardRule, Assess;
  }

  // ----- Take-home

  /** The employee's fund share in a year on a monthly wage base. */
  ghost predicate YearlyFund(wageBase: int, optIn: bool, annual: int) {
    && (wageBase == 0 ==> annual == 0)
    && (wageBase > 0 && (optIn || wageBase <= 15_000_00) ==>
          exists share :: Nearest(share, 12 * wageBase, 100) && annual == 12 * share)
    && (!optIn && wageBase >= 15_000_00 ==> annual == 21_600_00)
  }

  lemma SeededYearlyFund(wageBase: nat, optIn: bool)
    ensures YearlyFund(wageBase, optIn, CalculatePf(wageBase, true, optIn, PF_RULES).annualEmployee)
  {
    FundShares(wageBase, true, optIn, PF_RULES);
    if wageBase > 0 {
      SeededFundShares(wageBase, optIn);
    }
    hide CalculatePf, Nearest;
  }

  /** A salary is taxed on the gross less the standard deduction. */
  predicate TaxedAfterStandard(gross: int, r: TaxResult, rules: RuleSet) {
    && (gross <= StandardLimit(rules) ==> r.taxable == 0)
    && (gross >= StandardLimit(rules) ==> r.taxable == gross - StandardLimit(rules))
    && r.assessed == Assess(r.taxable, rules)
  }

  lemma SeededTaxed(gross: nat, rules: RuleSet)
    requires Seeded(rules)
    ensures TaxedAfterStandard(gross, CalculateTax(TaxInput(gross, None, 0, 0, 0, 0), rules), rules)
  {
    TaxableExactly(TaxInput(gross, None, 0, 0, 0, 0), rules);
    hide CalculateTax, Assess, Seeded;
  }

  /** The figures of a calculation under the seeded rules: the income taxed, the employee's fund share by
      the year, the professional tax of the state, and what is left of the gross. */
  ghost predicate Figures(c: Calculation, optIn: bool, rules: RuleSet, pt: seq<PtSlab>) {
    && TaxedAfterStandard(c.salary.gross, c.tax, rules)
    && YearlyFund(c.salary.pfWageBase, optIn, c.pf.annualEmployee)
    && YearlyPt(pt, c.salary.monthlyGross, c.pt.annual)
    && c.TakeHome() == c.salary.gross - c.tax.assessed.total - c.pf.annualEmployee - c.pt.annual
                       - c.salary.otherDeductions
  }

  /** Whatever salary is put in: the figures its take-home is made of. */
  lemma TakeHomeFigures(inp: SalaryInput, rules: RuleSet, pt: seq<PtSlab>)
    requires Normalized(inp).Normal? && Seeded(rules) && pt in PT_SCHEDULES
    ensures var c := Calculate(Normalized(inp).salary, inp.optInHigherWage, rules, PF_RULES, pt);
            c.salary == Normalized(inp).salary && Figures(c, inp.optInHigherWage, rules, pt)
  {
    NormalizedFields(inp);
    hide Normalized, CalculatePf, CalculateTax, FirstPtSlab, SortBy, PtOf, YearlyPt, YearlyFund, TaxedAfterStandard;
    hide Seeded, StatedGross, StatedAs, Split, TakenOver;
    var s := Normalized(inp).salary;
    NotBelowZero(s);
    SeededTaxed(s.gross, rules);
    SeededYearlyPt(pt, s.monthlyGross, AnyGender);
    SeededYearlyFund(s.pfWageBase, inp.optInHigherWage);
  }

  lemma NotBelowZero(s: NormalizedSalary)
    requires 0 <= s.basic + s.da && Nearest(s.pfWageBase, s.basic + s.da, 12)
    ensures 0 <= s.pfWageBase
  {
  }

  /** Whatever is stated, by the year, the month or as cost to company, without components, in any
      seeded year, regime and state: the components add up to the gross, the employer matches the
      employee's fund share, professional tax stays within the limit, tax, fund and professional tax,
      each of its exact amount, leave something between nothing and the gross, and the validator
      accepts it. */
  lemma TakeHomeNeverNegative(inp: SalaryInput, rules: RuleSet, pt: seq<PtSlab>)
    requires WithoutComponents(inp) && Seeded(rules) && pt in PT_SCHEDULES
    ensures Normalized(inp).Normal? <==> StatedGross(inp).Some?
    ensures Normalized(inp).Normal? ==>
              var gross := StatedGross(inp).value;
              var c := Calculate(Normalized(inp).salary, inp.optInHigherWage, rules, PF_RULES, pt);
              && StatedAs(inp, Some(gross)) && Split(c.salary, inp)
              && c.salary.Components() == c.salary.gross == gross > 0
              && Figures(c, inp.optInHigherWage, rules, pt)
              && c.pf.annualEmployerEpf + c.pf.annualEps == c.pf.annualEmployee
              && 0 <= c.tax.assessed.total && 0 <= c.pf.annualEmployee && 0 <= c.pt.annual <= 2_500_00
              && 0 <= c.TakeHome() + AmountOr0(inp.otherDeductions) <= gross
              && Validates(c, c.TakeHome())
  {
    hide AtRate, PerMonth, Assess, CalculatePf, PtOf, TaxableIncome, StandardDeduction, SortBy, FirstPtSlab;
    hide Figures, Split, StatedAs, YearlyPt;
    NormalizedWithoutComponents(inp);
    if StatedGross(inp).Some? {
      var gross := StatedGross(inp).value;
      TakeHomeFigures(inp, rules, pt);
      NormalizedFields(inp);
      hide Normalized, StatedGross, WithoutComponents;
      PfFraction(gross, inp.optInHigherWage);
      EmployerMatchesEmployee(PerMonth(AtRate(gross, 5000)), true, inp.optInHigherWage, PF_RULES);
      PtWithinLimit(pt, PerMonth(gross), AnyGender);
      TaxableAtMostGross(gross, rules);
      SeededTaxFraction(TaxableIncome(TaxInput(gross, None, 0, 0, 0, 0), rules), rules);
    }
  }
}
