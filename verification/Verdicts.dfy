/**
 What a reconciliation finds, in rupees and field by field: the tolerances, the values compared, the
 status and code of a field, and the verdict on the whole payslip.
 */
module Verdicts {
  import opened Money
  import opened Reconciliation

  /** Too far from the reference, in paise: by more than the rupees a field allows and, for some, by more
      than its share of a positive reference. */
  predicate Off(f: Field, actual: int, expected: int) {
    var delta := if actual < expected then expected - actual else actual - expected;
    match f
    case GrossEarnings => delta > 10_00 && !(expected > 0 && 1000 * delta <= expected)
    case Basic => delta > 5_00 && !(expected > 0 && 1000 * delta <= expected)
    case Hra => delta > 5_00 && !(expected > 0 && 1000 * delta <= expected)
    case EmployeeEpf => delta > 1_00
    case ProfessionalTax => actual != expected
    case Tds => delta > 5_00 && !(expected > 0 && 200 * delta <= expected)
    case TotalDeductions => delta > 2_00
    case NetPay => delta > 2_00
  }

  lemma ToleratedExactly(f: Field, actual: int, expected: int)
    ensures Tolerable(f, actual, expected) <==> !Off(f, actual, expected)
    ensures Evaluate(f, actual, expected) == CriticalMismatch <==> Off(f, actual, expected)
    ensures Evaluate(f, actual, expected) == Exact <==> actual == expected
  {
  }

  // ----- The values compared

  /** The reference there is, if it is there. */
  predicate Refers<T>(reference: Option<int>, source: Option<T>, value: T -> int) {
    && (source == None ==> reference == None)
    && (source != None ==> reference == Some(value(source.value)))
  }

  predicate PayrollOnly(c: Comparison, f: Field, value: int, p: Option<Payroll>, ofPayroll: Payroll -> int) {
    c.field == f && c.document == value && Refers(c.payroll, p, ofPayroll) && c.statutory == None
  }

  predicate BothWays(
      c: Comparison, f: Field, value: int, p: Option<Payroll>, ofPayroll: Payroll -> int,
      s: Option<Statutory>, ofStatutory: Statutory -> int)
  {
    c.field == f && c.document == value && Refers(c.payroll, p, ofPayroll) && Refers(c.statutory, s, ofStatutory)
  }

  /** Which values of the three sources are compared: every field with payroll, and four of them with the
      statutory projection. */
  lemma FieldsCompared(d: Document, p: Option<Payroll>, s: Option<Statutory>)
    ensures var cs := Comparisons(d, p, s);
            && |cs| == 8
            && BothWays(cs[0], GrossEarnings, d.gross, p, (x: Payroll) => x.gross,
                        s, (x: Statutory) => x.monthlyGross)
            && PayrollOnly(cs[1], Basic, d.basic, p, (x: Payroll) => x.basic)
            && PayrollOnly(cs[2], Hra, d.hra, p, (x: Payroll) => x.hra)
            && BothWays(cs[3], EmployeeEpf, d.epf, p, (x: Payroll) => x.epf, s, (x: Statutory) => x.epf)
            && BothWays(cs[4], ProfessionalTax, d.pt, p, (x: Payroll) => x.pt, s, (x: Statutory) => x.pt)
            && BothWays(cs[5], Tds, d.tds, p, (x: Payroll) => x.tds, s, (x: Statutory) => x.tds)
            && PayrollOnly(cs[6], TotalDeductions, d.deductions, p, (x: Payroll) => x.deductions)
            && PayrollOnly(cs[7], NetPay, d.net, p, (x: Payroll) => x.net)
  {
  }

  // ----- One field

  predicate OffReference(c: Comparison, reference: Option<int>) {
    reference != None && Off(c.field, c.document, reference.value)
  }

  predicate Differs(c: Comparison, reference: Option<int>) {
    reference != None && c.document != reference.value
  }

  /** A field is critical if it is off either reference, matched if it differs from neither, and else a
      warning; its code tells what payroll found, and only if that found nothing what the projection did. */
  lemma FieldExactly(c: Comparison)
    ensures StatusOf(c) == Critical <==> OffReference(c, c.payroll) || OffReference(c, c.statutory)
    ensures StatusOf(c) == Matched <==> !Differs(c, c.payroll) && !Differs(c, c.statutory)
    ensures CodeOf(c) == None <==> StatusOf(c) == Matched
    ensures CodeOf(c) == Some(PfUnderDeduction) <==>
              c.field == EmployeeEpf && OffReference(c, c.payroll) && c.document < c.payroll.value
    ensures CodeOf(c) == Some(PfOverDeduction) <==>
              c.field == EmployeeEpf && OffReference(c, c.payroll) && c.document > c.payroll.value
    ensures forall f :: CodeOf(c) == Some(FieldMismatch(f)) <==>
              && f == c.field
              && ((f != EmployeeEpf && OffReference(c, c.payroll))
                  || (!Differs(c, c.payroll) && OffReference(c, c.statutory)))
    ensures CodeOf(c) == Some(RoundingVariance) <==>
              || (Differs(c, c.payroll) && !OffReference(c, c.payroll))
              || (!Differs(c, c.payroll) && Differs(c, c.statutory) && !OffReference(c, c.statutory))
    ensures Warned(c) <==> CodeOf(c) == Some(RoundingVariance)
  {
    if c.payroll.Some? {
      ToleratedExactly(c.field, c.document, c.payroll.value);
      OffDiffers(c.field, c.document, c.payroll.value);
    }
    if c.statutory.Some? {
      ToleratedExactly(c.field, c.document, c.statutory.value);
      OffDiffers(c.field, c.document, c.statutory.value);
    }
    hide Off, Tolerable;
  }

  lemma OffDiffers(f: Field, actual: int, expected: int)
    ensures Off(f, actual, expected) ==> actual != expected
  {
  }

  // ----- The whole payslip

  predicate SameAsPayroll(d: Document, p: Payroll) {
    && d.gross == p.gross && d.basic == p.basic && d.hra == p.hra && d.epf == p.epf
    && d.pt == p.pt && d.tds == p.tds && d.deductions == p.deductions && d.net == p.net
  }

  predicate SameAsProjected(d: Document, s: Statutory) {
    d.gross == s.monthlyGross && d.epf == s.epf && d.pt == s.pt && d.tds == s.tds
  }

  predicate OffPayroll(d: Document, p: Payroll) {
    || Off(GrossEarnings, d.gross, p.gross) || Off(Basic, d.basic, p.basic) || Off(Hra, d.hra, p.hra)
    || Off(EmployeeEpf, d.epf, p.epf) || Off(ProfessionalTax, d.pt, p.pt) || Off(Tds, d.tds, p.tds)
    || Off(TotalDeductions, d.deductions, p.deductions) || Off(NetPay, d.net, p.net)
  }

  predicate OffProjection(d: Document, s: Statutory) {
    || Off(GrossEarnings, d.gross, s.monthlyGross) || Off(EmployeeEpf, d.epf, s.epf)
    || Off(ProfessionalTax, d.pt, s.pt) || Off(Tds, d.tds, s.tds)
  }

  /** The verdict on a payslip, from the three records alone. */
  lemma VerdictExactly(overall: Overall, d: Document, p: Option<Payroll>, s: Option<Statutory>)
    requires RightVerdict(overall, d, p, s)
    ensures overall == DiscrepancyCritical <==>
              !d.formulaVerified || (p.Some? && OffPayroll(d, p.value)) || (s.Some? && OffProjection(d, s.value))
    ensures overall == Unreconciled <==> d.formulaVerified && p.None? && s.None?
    ensures overall == AllMatched <==>
              && d.formulaVerified && (p.Some? || s.Some?)
              && (p.Some? ==> SameAsPayroll(d, p.value)) && (s.Some? ==> SameAsProjected(d, s.value))
  {
    hide Off, Tolerable;
    EachOff(d, p, s);
    EachSame(d, p, s);
    hide Comparisons, OffPayroll, OffProjection, OutOfTolerance, EqualsReferences, SameAsPayroll, SameAsProjected;
  }

  lemma EachOff(d: Document, p: Option<Payroll>, s: Option<Statutory>)
    ensures (exists c :: c in Comparisons(d, p, s) && OutOfTolerance(c))
            <==> (p.Some? && OffPayroll(d, p.value)) || (s.Some? && OffProjection(d, s.value))
  {
    hide Off, OutOfTolerance;
    var cs := Comparisons(d, p, s);
    OneOfEight(cs, (c: Comparison) => OutOfTolerance(c));
    forall i | 0 <= i < 8
      ensures OutOfTolerance(cs[i]) <==> OffReference(cs[i], cs[i].payroll) || OffReference(cs[i], cs[i].statutory)
    {
      OffIsOutOfTolerance(cs[i]);
    }
  }

  lemma OffIsOutOfTolerance(c: Comparison)
    ensures OutOfTolerance(c) <==> OffReference(c, c.payroll) || OffReference(c, c.statutory)
  {
    if c.payroll.Some? {
      ToleratedExactly(c.field, c.document, c.payroll.value);
    }
    if c.statutory.Some? {
      ToleratedExactly(c.field, c.document, c.statutory.value);
    }
    hide Off, Tolerable;
  }

  lemma EachSame(d: Document, p: Option<Payroll>, s: Option<Statutory>)
    ensures (forall c :: c in Comparisons(d, p, s) ==> EqualsReferences(c))
            <==> (p.Some? ==> SameAsPayroll(d, p.value)) && (s.Some? ==> SameAsProjected(d, s.value))
  {
    OneOfEight(Comparisons(d, p, s), (c: Comparison) => !EqualsReferences(c));
  }

  lemma OneOfEight(cs: seq<Comparison>, bad: Comparison -> bool)
    requires |cs| == 8
    ensures (exists c :: c in cs && bad(c))
            <==> bad(cs[0]) || bad(cs[1]) || bad(cs[2]) || bad(cs[3])
                 || bad(cs[4]) || bad(cs[5]) || bad(cs[6]) || bad(cs[7])
  {
    if c :| c in cs && bad(c) {
      var i :| 0 <= i < |cs| && cs[i] == c;
    }
  }

  // ----- The codes of a report

  /** The codes a report lists, each once: a missing reference and a failed formula exactly when they are,
      and any other exactly when some field gets it. */
  lemma CodesExactly(codes: seq<Code>, items: seq<Item>, d: Document, p: Option<Payroll>, s: Option<Statutory>)
    requires ItemsOf(items, Comparisons(d, p, s)) && ListsCodes(codes, items, d, p, s)
    ensures PayrollMissing in codes <==> p == None
    ensures StatutoryMissing in codes <==> s == None
    ensures FormulaMismatch in codes <==> !d.formulaVerified
    ensures forall code :: code !in {PayrollMissing, StatutoryMissing, FormulaMismatch} ==>
              (code in codes <==> exists i :: 0 <= i < |items| && items[i].code == Some(code))
    ensures forall i, j :: 0 <= i < j < |codes| ==> codes[i] != codes[j]
  {
    forall i | 0 <= i < |items|
      ensures items[i].code !in {Some(PayrollMissing), Some(StatutoryMissing), Some(FormulaMismatch)}
    {
      FieldsGetOwnCodes(Comparisons(d, p, s)[i]);
    }
    hide Comparisons, CodeOf, StatusOf;
  }

  lemma FieldsGetOwnCodes(c: Comparison)
    ensures CodeOf(c) !in {Some(PayrollMissing), Some(StatutoryMissing), Some(FormulaMismatch)}
  {
    hide Tolerable;
  }
}
