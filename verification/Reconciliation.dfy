/**
 Reconciling a payslip with the payroll record and the statutory projection: eight fields, each
 compared with whichever references exist, and one overall verdict. Amounts are in paise.
 */
module Reconciliation {
  import opened Money

  datatype Field = GrossEarnings | Basic | Hra | EmployeeEpf | ProfessionalTax | Tds | TotalDeductions | NetPay

  /** An absolute tolerance in paise and a relative one in thousandths. */
  datatype Tolerance = Tolerance(absolute: nat, perMille: nat)

  function ToleranceOf(f: Field): Tolerance {
    match f
    case GrossEarnings => Tolerance(10_00, 1)
    case Basic => Tolerance(5_00, 1)
    case Hra => Tolerance(5_00, 1)
    case EmployeeEpf => Tolerance(1_00, 0)
    case ProfessionalTax => Tolerance(0, 0)
    case Tds => Tolerance(5_00, 5)
    case NetPay => Tolerance(2_00, 0)
    case TotalDeductions => Tolerance(2_00, 0)
  }

  datatype Difference = Exact | TolerableRounding | CriticalMismatch

  function Evaluate(f: Field, actual: int, expected: int): Difference {
    var delta, tolerance := Abs(actual - expected), ToleranceOf(f);
    if delta == 0 then Exact
    else if delta <= tolerance.absolute then TolerableRounding
    else if expected > 0 && tolerance.perMille > 0 && 1000 * delta <= tolerance.perMille * expected then
      TolerableRounding
    else CriticalMismatch
  }

  /** Within tolerance of a reference, stated as the policy is: absolutely, or relative to it. */
  predicate Tolerable(f: Field, actual: int, expected: int) {
    var t := ToleranceOf(f);
    || expected - t.absolute <= actual <= expected + t.absolute
    || (expected > 0 && (1000 - t.perMille) * expected <= 1000 * actual <= (1000 + t.perMille) * expected)
  }

  /** The verdict on one difference: exact if equal, critical if out of tolerance. */
  lemma EvaluateMeans(f: Field, actual: int, expected: int)
    ensures Evaluate(f, actual, expected) == Exact <==> actual == expected
    ensures Evaluate(f, actual, expected) == CriticalMismatch <==> !Tolerable(f, actual, expected)
  {
  }

  datatype Comparison = Comparison(field: Field, document: int, payroll: Option<int>, statutory: Option<int>)

  datatype Document = Document(
    gross: int, basic: int, hra: int, epf: int, pt: int, tds: int, deductions: int, net: int, formulaVerified: bool)

  datatype Payroll = Payroll(gross: int, basic: int, hra: int, epf: int, pt: int, tds: int, deductions: int, net: int)

  datatype Statutory = Statutory(monthlyGross: int, epf: int, pt: int, tds: int)

  function Comparisons(d: Document, p: Option<Payroll>, s: Option<Statutory>): seq<Comparison> {
    [
      Comparison(GrossEarnings, d.gross, if p.Some? then Some(p.value.gross) else None,
                 if s.Some? then Some(s.value.monthlyGross) else None),
      Comparison(Basic, d.basic, if p.Some? then Some(p.value.basic) else None, None),
      Comparison(Hra, d.hra, if p.Some? then Some(p.value.hra) else None, None),
      Comparison(EmployeeEpf, d.epf, if p.Some? then Some(p.value.epf) else None,
                 if s.Some? then Some(s.value.epf) else None),
      Comparison(ProfessionalTax, d.pt, if p.Some? then Some(p.value.pt) else None,
                 if s.Some? then Some(s.value.pt) else None),
      Comparison(Tds, d.tds, if p.Some? then Some(p.value.tds) else None,
                 if s.Some? then Some(s.value.tds) else None),
      Comparison(TotalDeductions, d.deductions, if p.Some? then Some(p.value.deductions) else None, None),
      Comparison(NetPay, d.net, if p.Some? then Some(p.value.net) else None, None)
    ]
  }

  datatype FieldStatus = Matched | Warning | Critical

  datatype Code = FieldMismatch(field: Field) | PfUnderDeduction | PfOverDeduction | RoundingVariance
                | PayrollMissing | StatutoryMissing | FormulaMismatch

  datatype Item = Item(comparison: Comparison, status: FieldStatus, code: Option<Code>)

  datatype Overall = AllMatched | DiscrepancyWarning | DiscrepancyCritical | Unreconciled

  datatype Report = Report(overall: Overall, items: seq<Item>, codes: seq<Code>, critical: nat, warnings: nat)

  // ----- What a comparison says, by itself

  predicate EqualsReferences(c: Comparison) {
    (c.payroll.Some? ==> c.document == c.payroll.value) && (c.statutory.Some? ==> c.document == c.statutory.value)
  }

  predicate OutOfTolerance(c: Comparison) {
    || (c.payroll.Some? && !Tolerable(c.field, c.document, c.payroll.value))
    || (c.statutory.Some? && !Tolerable(c.field, c.document, c.statutory.value))
  }

  function StatusOf(c: Comparison): FieldStatus {
    if OutOfTolerance(c) then Critical else if EqualsReferences(c) then Matched else Warning
  }

  /** A field warns on payroll even if it then turns out critical against the projection. */
  predicate Warned(c: Comparison) {
    || (c.payroll.Some? && c.document != c.payroll.value && Tolerable(c.field, c.document, c.payroll.value))
    || (StatusOf(c) == Warning)
  }

  function Count(cs: seq<Comparison>, p: Comparison -> bool): nat {
    if cs == [] then 0 else Count(cs[..|cs| - 1], p) + if p(cs[|cs| - 1]) then 1 else 0
  }

  const IS_CRITICAL := (c: Comparison) => StatusOf(c) == Critical

  const IS_WARNED := (c: Comparison) => Warned(c)

  lemma CountUpTo(cs: seq<Comparison>, i: nat, p: Comparison -> bool)
    requires i < |cs|
    ensures Count(cs[..i + 1], p) == Count(cs[..i], p) + if p(cs[i]) then 1 else 0
  {
    assert cs[..i + 1][..i] == cs[..i];
  }

  /** Nothing is counted exactly when nothing qualifies. */
  lemma {:induction false} CountIsZero(cs: seq<Comparison>, p: Comparison -> bool)
    ensures Count(cs, p) == 0 <==> forall i :: 0 <= i < |cs| ==> !p(cs[i])
  {
    if cs != [] {
      CountIsZero(cs[..|cs| - 1], p);
    }
  }

  /** The codes a report lists, before and after the fields. */
  predicate GivenCode(code: Code, d: Document, p: Option<Payroll>, s: Option<Statutory>) {
    || (code == PayrollMissing && p.None?)
    || (code == StatutoryMissing && s.None?)
    || (code == FormulaMismatch && !d.formulaVerified)
  }

  ghost predicate ListsCodes(
      codes: seq<Code>, items: seq<Item>, d: Document, p: Option<Payroll>, s: Option<Statutory>)
  {
    && (forall i, j :: 0 <= i < j < |codes| ==> codes[i] != codes[j])
    && forall code :: code in codes <==>
         GivenCode(code, d, p, s) || exists i :: 0 <= i < |items| && items[i].code == Some(code)
  }

  /** The code a field gets: payroll is compared first, so its finding wins. */
  function CodeOf(c: Comparison): Option<Code> {
    if c.payroll.Some? && !Tolerable(c.field, c.document, c.payroll.value) then
      if c.field != EmployeeEpf then Some(FieldMismatch(c.field))
      else if c.document < c.payroll.value then Some(PfUnderDeduction)
      else Some(PfOverDeduction)
    else if c.payroll.Some? && c.document != c.payroll.value then Some(RoundingVariance)
    else if c.statutory.Some? && !Tolerable(c.field, c.document, c.statutory.value) then Some(FieldMismatch(c.field))
    else if c.statutory.Some? && c.document != c.statutory.value then Some(RoundingVariance)
    else None
  }

  /** Comparing with the references one after the other, as the loop does. */
  method CompareField(c: Comparison) returns (item: Item, criticals: nat, warnings: nat)
    ensures item == Item(c, StatusOf(c), CodeOf(c))
    ensures criticals == (if StatusOf(c) == Critical then 1 else 0) && warnings == (if Warned(c) then 1 else 0)
  {
    var status, code: Option<Code> := Matched, None;
    criticals, warnings := 0, 0;
    if c.payroll.Some? {
      EvaluateMeans(c.field, c.document, c.payroll.value);
      var difference := Evaluate(c.field, c.document, c.payroll.value);
      if difference == CriticalMismatch {
        status, code, criticals := Critical, Some(FieldMismatch(c.field)), 1;
        if c.field == EmployeeEpf {
          code := if c.document < c.payroll.value then Some(PfUnderDeduction) else Some(PfOverDeduction);
        }
      } else if difference == TolerableRounding {
        status, code, warnings := Warning, Some(RoundingVariance), 1;
      }
    }
    if c.statutory.Some? {
      EvaluateMeans(c.field, c.document, c.statutory.value);
      var difference := Evaluate(c.field, c.document, c.statutory.value);
      if difference == CriticalMismatch {
        if status != Critical {
          status, criticals := Critical, criticals + 1;
        }
        if code.None? {
          code := Some(FieldMismatch(c.field));
        }
      } else if difference == TolerableRounding && status == Matched {
        status := Warning;
        if code.None? {
          code := Some(RoundingVariance);
        }
        warnings := warnings + 1;
      }
    }
    item := Item(c, status, code);
  }

  /** How many items carry a status. */
  function CountStatus(items: seq<Item>, status: FieldStatus): nat {
    if items == [] then 0
    else CountStatus(items[..|items| - 1], status) + if items[|items| - 1].status == status then 1 else 0
  }

  /** What the overall verdict promises, said of the compared values alone. */
  ghost predicate RightVerdict(overall: Overall, d: Document, p: Option<Payroll>, s: Option<Statutory>) {
    var cs := Comparisons(d, p, s);
    && (overall == DiscrepancyCritical <==> !d.formulaVerified || exists c :: c in cs && OutOfTolerance(c))
    && (overall == AllMatched <==>
          d.formulaVerified && (p.Some? || s.Some?) && forall c :: c in cs ==> EqualsReferences(c))
    && (overall == Unreconciled <==> d.formulaVerified && p.None? && s.None?)
  }

  predicate ItemsOf(items: seq<Item>, cs: seq<Comparison>) {
    |items| <= |cs| && forall i :: 0 <= i < |items| ==> items[i] == Item(cs[i], StatusOf(cs[i]), CodeOf(cs[i]))
  }

  method Reconcile(d: Document, p: Option<Payroll>, s: Option<Statutory>) returns (r: Report)
    ensures |r.items| == |Comparisons(d, p, s)| && ItemsOf(r.items, Comparisons(d, p, s))
    ensures RightVerdict(r.overall, d, p, s)
    ensures r.critical == CountStatus(r.items, Critical)
    ensures CountStatus(r.items, Warning) <= r.warnings == Count(Comparisons(d, p, s), IS_WARNED)
    ensures ListsCodes(r.codes, r.items, d, p, s)
  {
    hide StatusOf, Warned, CodeOf, Comparisons, ItemsOf, RightVerdict, ListsCodes, Count, CountStatus;
    var items, codes: seq<Code> := [], InitialCodes(d, p, s);
    var cs := Comparisons(d, p, s);
    NothingYet(cs, codes, d, p, s);
    var critical, warnings := 0, 0;
    for i := 0 to |cs|
      invariant |items| == i && ItemsOf(items, cs)
      invariant ListsCodes(codes, items, d, p, s)
      invariant critical == Count(cs[..i], IS_CRITICAL) == CountStatus(items, Critical)
      invariant CountStatus(items, Warning) <= warnings == Count(cs[..i], IS_WARNED)
    {
      var item, criticals, warned := CompareField(cs[i]);
      OneMore(cs, items, item);
      ListMore(codes, items, item, d, p, s);
      critical, warnings := critical + criticals, warnings + warned;
      if item.code.Some? && item.code.value !in codes {
        codes := codes + [item.code.value];
      }
      items := items + [item];
    }
    assert cs[..|cs|] == cs;
    var overall;
    if critical > 0 || !d.formulaVerified {
      overall := DiscrepancyCritical;
    } else if warnings > 0 {
      overall := DiscrepancyWarning;
    } else if p.None? && s.None? {
      overall := Unreconciled;
    } else {
      overall := AllMatched;
    }
    VerdictIsRight(overall, critical, warnings, d, p, s);
    r := Report(overall, items, codes, critical, warnings);
  }

  function InitialCodes(d: Document, p: Option<Payroll>, s: Option<Statutory>): seq<Code> {
    (if p.None? then [PayrollMissing] else []) + (if s.None? then [StatutoryMissing] else [])
    + (if d.formulaVerified then [] else [FormulaMismatch])
  }

  lemma NothingYet(cs: seq<Comparison>, codes: seq<Code>, d: Document, p: Option<Payroll>, s: Option<Statutory>)
    requires codes == InitialCodes(d, p, s)
    ensures ItemsOf([], cs) && ListsCodes(codes, [], d, p, s)
    ensures Count(cs[..0], IS_CRITICAL) == 0 && Count(cs[..0], IS_WARNED) == 0
    ensures CountStatus([], Critical) == 0 && CountStatus([], Warning) == 0
  {
  }

  lemma OneMore(cs: seq<Comparison>, items: seq<Item>, item: Item)
    requires |items| < |cs| && ItemsOf(items, cs)
    requires item == Item(cs[|items|], StatusOf(cs[|items|]), CodeOf(cs[|items|]))
    ensures ItemsOf(items + [item], cs)
    ensures var c := cs[|items|];
            && Count(cs[..|items| + 1], IS_CRITICAL)
               == Count(cs[..|items|], IS_CRITICAL) + (if StatusOf(c) == Critical then 1 else 0)
            && Count(cs[..|items| + 1], IS_WARNED) == Count(cs[..|items|], IS_WARNED) + (if Warned(c) then 1 else 0)
            && CountStatus(items + [item], Critical)
               == CountStatus(items, Critical) + (if StatusOf(c) == Critical then 1 else 0)
            && CountStatus(items + [item], Warning)
               <= CountStatus(items, Warning) + (if Warned(c) then 1 else 0)
  {
    hide CodeOf, OutOfTolerance, EqualsReferences, Tolerable, StatusOf, Count, CountStatus;
    var c := cs[|items|];
    CountUpTo(cs, |items|, IS_CRITICAL);
    CountUpTo(cs, |items|, IS_WARNED);
    CountOneMore(items, item, Critical);
    CountOneMore(items, item, Warning);
    assert IS_CRITICAL(c) == (StatusOf(c) == Critical) && IS_WARNED(c) == Warned(c);
  }

  lemma CountOneMore(items: seq<Item>, item: Item, status: FieldStatus)
    ensures CountStatus(items + [item], status) == CountStatus(items, status) + if item.status == status then 1 else 0
  {
    assert (items + [item])[..|items|] == items;
  }

  lemma VerdictIsRight(overall: Overall, critical: nat, warnings: nat,
                       d: Document, p: Option<Payroll>, s: Option<Statutory>)
    requires critical == Count(Comparisons(d, p, s), IS_CRITICAL)
    requires warnings == Count(Comparisons(d, p, s), IS_WARNED)
    requires overall == if critical > 0 || !d.formulaVerified then DiscrepancyCritical
                        else if warnings > 0 then DiscrepancyWarning
                        else if p.None? && s.None? then Unreconciled
                        else AllMatched
    ensures RightVerdict(overall, d, p, s)
  {
    hide Comparisons, StatusOf, Warned, OutOfTolerance, EqualsReferences, Count;
    var cs := Comparisons(d, p, s);
    CountIsZero(cs, IS_CRITICAL);
    CountIsZero(cs, IS_WARNED);
    VerdictMeans(cs);
    NoReferences(d, p, s);
  }

  lemma ListMore(codes: seq<Code>, items: seq<Item>, item: Item, d: Document, p: Option<Payroll>, s: Option<Statutory>)
    requires ListsCodes(codes, items, d, p, s)
    ensures ListsCodes(if item.code.Some? && item.code.value !in codes then codes + [item.code.value] else codes,
                       items + [item], d, p, s)
  {
    hide GivenCode;
    var more := items + [item];
    forall code
      ensures (exists i :: 0 <= i < |more| && more[i].code == Some(code))
              <==> item.code == Some(code) || exists i :: 0 <= i < |items| && items[i].code == Some(code)
    {
      if i :| 0 <= i < |items| && items[i].code == Some(code) {
        assert more[i].code == Some(code);
      }
      assert more[|items|] == item;
    }
  }

  /** No critical count means nothing is out of tolerance, and no warning either means all equal. */
  lemma VerdictMeans(cs: seq<Comparison>)
    ensures (forall i :: 0 <= i < |cs| ==> !IS_CRITICAL(cs[i])) <==> (forall c :: c in cs ==> !OutOfTolerance(c))
    ensures (forall i :: 0 <= i < |cs| ==> !IS_CRITICAL(cs[i]) && !IS_WARNED(cs[i]))
            <==> (forall c :: c in cs ==> EqualsReferences(c))
  {
    hide OutOfTolerance, EqualsReferences;
    forall i | 0 <= i < |cs|
      ensures IS_CRITICAL(cs[i]) <==> OutOfTolerance(cs[i])
      ensures !IS_CRITICAL(cs[i]) && !IS_WARNED(cs[i]) <==> EqualsReferences(cs[i])
    {
      EqualIsTolerable(cs[i]);
      assert cs[i] in cs;
    }
    hide StatusOf, Warned;
  }

  lemma EqualIsTolerable(c: Comparison)
    ensures EqualsReferences(c) ==> !OutOfTolerance(c) && StatusOf(c) == Matched && !Warned(c)
    ensures !EqualsReferences(c) ==> StatusOf(c) == Critical || Warned(c)
  {
  }

  lemma NoReferences(d: Document, p: Option<Payroll>, s: Option<Statutory>)
    ensures p.None? && s.None? ==> forall c :: c in Comparisons(d, p, s) ==> EqualsReferences(c)
  {
  }
}
