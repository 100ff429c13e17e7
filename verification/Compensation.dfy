/**
 Effective-dated compensation records, the overlap guard on creating one, and how payroll picks
 the record in force on a pay date and totals a run.
 */
module Compensation {
  import opened Money

  /** Calendar days, counted from 1 January of year 1 to 31 December of year 9999. */
  type Date = d: int | 1 <= d <= 3_652_059 witness 1

  const LAST_DATE: Date := 3_652_059

  datatype Record = Record(id: nat, employeeId: int, from: Date, to: Option<Date>, annualCtc: int, monthlyGross: int) {
    /** An open end runs to the last date there is. */
    function End(): Date { if to.Some? then to.value else LAST_DATE }

    predicate Contains(day: Date) { from <= day <= End() }

    predicate IsEmpty() { End() < from }
  }

  predicate Clashes(r: Record, from: Date, end: Date) {
    Max(from, r.from) <= Min(end, r.End())
  }

  /** The guard's test is sharing a day, also when a range is empty. */
  lemma ClashIsSharedDay(r: Record, from: Date, end: Date)
    ensures Clashes(r, from, end) <==> exists day: Date :: r.Contains(day) && from <= day <= end
  {
    if Clashes(r, from, end) {
      var day: Date := Max(from, r.from);
      assert r.Contains(day) && from <= day <= end;
    }
  }

  class CompensationService {
    var records: seq<Record>
    var nextId: nat

    constructor ()
      ensures records == [] && nextId == 1
    {
      records, nextId := [], 1;
    }

    method CheckDateOverlap(employeeId: int, from: Date, to: Option<Date>, exclude: Option<nat>) returns (overlap: bool)
      ensures overlap <==>
                exists i :: 0 <= i < |records| && records[i].employeeId == employeeId
                            && !(exclude.Some? && exclude.value != 0 && records[i].id == exclude.value)
                            && Clashes(records[i], from, if to.Some? then to.value else LAST_DATE)
    {
      var end := if to.Some? then to.value else LAST_DATE;
      for i := 0 to |records|
        invariant forall j :: 0 <= j < i && records[j].employeeId == employeeId
                              && !(exclude.Some? && exclude.value != 0 && records[j].id == exclude.value)
                    ==> !Clashes(records[j], from, end)
      {
        var r := records[i];
        if r.employeeId == employeeId && !(exclude.Some? && exclude.value != 0 && r.id == exclude.value) {
          var overlapStart, overlapEnd := Max(from, r.from), Min(end, r.End());
          if overlapStart <= overlapEnd {
            return true;
          }
        }
      }
      overlap := false;
    }

    method CreateCompensationVersion(employeeId: int, from: Date, to: Option<Date>, annualCtc: int, monthlyGross: int)
      returns (created: Option<Record>)
      modifies this
      ensures var p := Proposal(employeeId, from, to, annualCtc, monthlyGross);
              (records, nextId) == Create(old(records), old(nextId), p)
      ensures created.Some? <==> |records| > |old(records)|
      ensures created.Some? ==> records == old(records) + [created.value]
    {
      var overlap := CheckDateOverlap(employeeId, from, to, None);
      if overlap {
        return None;
      }
      created := Some(Record(nextId, employeeId, from, to, annualCtc, monthlyGross));
      records := records + [created.value];
      nextId := nextId + 1;
    }
  }

  // ----- Runs of creations

  datatype Proposal = Proposal(employeeId: int, from: Date, to: Option<Date>, annualCtc: int, monthlyGross: int) {
    predicate Covers(day: Date) { from <= day && (to != None ==> day <= to.value) }
  }

  predicate Overlapping(records: seq<Record>, p: Proposal) {
    exists i :: 0 <= i < |records| && records[i].employeeId == p.employeeId
                && Clashes(records[i], p.from, if p.to.Some? then p.to.value else LAST_DATE)
  }

  function Create(records: seq<Record>, nextId: nat, p: Proposal): (seq<Record>, nat) {
    if Overlapping(records, p) then (records, nextId)
    else (records + [Record(nextId, p.employeeId, p.from, p.to, p.annualCtc, p.monthlyGross)], nextId + 1)
  }

  function CreateAll(proposals: seq<Proposal>): (seq<Record>, nat) {
    if proposals == [] then ([], 1)
    else
      var (records, nextId) := CreateAll(proposals[..|proposals| - 1]);
      Create(records, nextId, proposals[|proposals| - 1])
  }

  /** Two proposals for one employee share a day, an open end running to the last date there is. */
  ghost predicate ShareDay(p: Proposal, q: Proposal) {
    && p.employeeId == q.employeeId
    && exists day: Date :: p.Covers(day) && q.Covers(day)
  }

  /** The proposals that do not share a day with one kept before. */
  ghost function Kept(proposals: seq<Proposal>): seq<Proposal> {
    if proposals == [] then []
    else
      var n := |proposals| - 1;
      var front := Kept(proposals[..n]);
      if exists i :: 0 <= i < |front| && ShareDay(front[i], proposals[n]) then front else front + [proposals[n]]
  }

  /** The record keeps what was proposed. */
  predicate Keeps(r: Record, p: Proposal) {
    && r.employeeId == p.employeeId && r.from == p.from && r.to == p.to
    && r.annualCtc == p.annualCtc && r.monthlyGross == p.monthlyGross
  }

  lemma ClashIsShareDay(r: Record, q: Proposal, p: Proposal)
    requires Keeps(r, q)
    ensures ShareDay(q, p)
            <==> r.employeeId == p.employeeId && Clashes(r, p.from, if p.to.Some? then p.to.value else LAST_DATE)
  {
    var end := if p.to.Some? then p.to.value else LAST_DATE;
    ClashIsSharedDay(r, p.from, end);
    if r.employeeId == p.employeeId && Clashes(r, p.from, end) {
      var day: Date :| r.Contains(day) && p.from <= day <= end;
      assert q.Covers(day) && p.Covers(day);
    }
    if ShareDay(q, p) {
      var day: Date :| q.Covers(day) && p.Covers(day);
      assert r.Contains(day) && p.from <= day <= end;
    }
  }

  /** The table after any creations: one record for every proposal that shares no day with an earlier
      one kept for its employee, as proposed, numbered from one. */
  lemma {:induction false} TableOfProposals(proposals: seq<Proposal>)
    ensures var (records, nextId) := CreateAll(proposals);
            && |records| == |Kept(proposals)| && nextId == |records| + 1
            && forall i :: 0 <= i < |records| ==> records[i].id == i + 1 && Keeps(records[i], Kept(proposals)[i])
  {
    if proposals != [] {
      var n := |proposals| - 1;
      var p := proposals[n];
      TableOfProposals(proposals[..n]);
      var records, front := CreateAll(proposals[..n]).0, Kept(proposals[..n]);
      forall i | 0 <= i < |records|
        ensures ShareDay(front[i], p)
                <==> records[i].employeeId == p.employeeId
                     && Clashes(records[i], p.from, if p.to.Some? then p.to.value else LAST_DATE)
      {
        ClashIsShareDay(records[i], front[i], p);
      }
      hide ShareDay, Clashes;
    }
  }

  /** No two records of an employee share a day. */
  ghost predicate Disjoint(records: seq<Record>) {
    forall i, j, day: Date :: 0 <= i < j < |records| && records[i].employeeId == records[j].employeeId ==>
      !(records[i].Contains(day) && records[j].Contains(day))
  }

  /** Whatever is proposed in whatever order, an employee's ranges never overlap. */
  lemma {:induction false} RangesStayDisjoint(proposals: seq<Proposal>)
    ensures Disjoint(CreateAll(proposals).0)
  {
    if proposals != [] {
      var n := |proposals| - 1;
      var p := proposals[n];
      RangesStayDisjoint(proposals[..n]);
      var records := CreateAll(proposals[..n]).0;
      if !Overlapping(records, p) {
        forall i, day: Date | 0 <= i < |records| && records[i].employeeId == p.employeeId && records[i].Contains(day)
          ensures !(p.from <= day <= if p.to.Some? then p.to.value else LAST_DATE)
        {
          ClashIsSharedDay(records[i], p.from, if p.to.Some? then p.to.value else LAST_DATE);
        }
      }
    }
  }

  // ----- Payroll's choice

  /** Record `i` may be payroll's choice: the latest start on or before the pay date. The query's order
      leaves ties open, so several records may qualify. */
  ghost predicate Picked(records: seq<Record>, employeeId: int, payDate: Date, i: nat) {
    && i < |records| && records[i].employeeId == employeeId && records[i].from <= payDate
    && forall j :: 0 <= j < |records| && records[j].employeeId == employeeId && records[j].from <= payDate ==>
         records[j].from <= records[i].from
  }

  lemma {:induction false} LatestStart(records: seq<Record>, employeeId: int, payDate: Date, k: nat) returns (i: nat)
    requires k < |records| && records[k].employeeId == employeeId && records[k].from <= payDate
    ensures Picked(records, employeeId, payDate, i) && records[k].from <= records[i].from
  {
    i := k;
    for j := 0 to |records|
      invariant i < |records| && records[i].employeeId == employeeId && records[k].from <= records[i].from <= payDate
      invariant forall m :: 0 <= m < j && records[m].employeeId == employeeId && records[m].from <= payDate ==>
                  records[m].from <= records[i].from
    {
      if records[j].employeeId == employeeId && records[i].from < records[j].from <= payDate {
        i := j;
      }
    }
  }

  lemma SharedDayIsOneRecord(records: seq<Record>, i: nat, j: nat, day: Date)
    requires Disjoint(records) && i < |records| && j < |records| && records[i].employeeId == records[j].employeeId
    requires records[i].Contains(day) && records[j].Contains(day)
    ensures i == j
  {
  }

  ghost predicate InForce(records: seq<Record>, employeeId: int, payDate: Date, j: nat) {
    j < |records| && records[j].employeeId == employeeId && records[j].Contains(payDate)
  }

  /** Another record of the employee starts inside the one in force, up to the pay date. */
  ghost predicate StartsInside(records: seq<Record>, payDate: Date, j: nat, k: nat)
    requires j < |records|
  {
    k < |records| && k != j && records[k].employeeId == records[j].employeeId
    && records[j].from <= records[k].from <= payDate
  }

  /** After any creations: payroll is sure to pick the record in force on the pay date exactly when
      no other record starts inside it by then, and such a record can only have an empty range. */
  lemma PayrollPicksTheRecordInForce(proposals: seq<Proposal>, employeeId: int, payDate: Date, j: nat)
    requires InForce(CreateAll(proposals).0, employeeId, payDate, j)
    ensures var records := CreateAll(proposals).0;
            && ((forall i :: Picked(records, employeeId, payDate, i) ==> i == j)
                <==> (forall k: nat :: !StartsInside(records, payDate, j, k)))
            && (forall k: nat :: StartsInside(records, payDate, j, k) ==> records[k].IsEmpty())
  {
    RangesStayDisjoint(proposals);
    hide CreateAll;
    var records := CreateAll(proposals).0;
    forall k: nat | StartsInside(records, payDate, j, k) ensures records[k].IsEmpty() {
      if !records[k].IsEmpty() {
        SharedDayIsOneRecord(records, j, k, records[k].from);
      }
    }
    if k: nat :| StartsInside(records, payDate, j, k) {
      var i := LatestStart(records, employeeId, payDate, k);
      assert Picked(records, employeeId, payDate, i);
      if i == j {
        assert Picked(records, employeeId, payDate, k);
      }
    } else {
      hide Disjoint;
      forall i | Picked(records, employeeId, payDate, i) ensures i == j {
        assert !StartsInside(records, payDate, j, i);
      }
    }
  }

  ghost predicate NoneEmpty(records: seq<Record>, employeeId: int) {
    forall i :: 0 <= i < |records| && records[i].employeeId == employeeId ==> !records[i].IsEmpty()
  }

  /** With non-empty ranges, payroll's pick contains the pay date exactly when some record does, and
      is then the one record that does. */
  lemma NonEmptyRangesAgree(proposals: seq<Proposal>, employeeId: int, payDate: Date, i: nat)
    requires NoneEmpty(CreateAll(proposals).0, employeeId) && Picked(CreateAll(proposals).0, employeeId, payDate, i)
    ensures var records := CreateAll(proposals).0;
            && (InForce(records, employeeId, payDate, i) <==> exists j :: InForce(records, employeeId, payDate, j))
            && (forall j :: InForce(records, employeeId, payDate, j) ==> j == i)
  {
    hide CreateAll;
    var records := CreateAll(proposals).0;
    forall j | InForce(records, employeeId, payDate, j) ensures j == i {
      PayrollPicksTheRecordInForce(proposals, employeeId, payDate, j);
      forall k: nat ensures !StartsInside(records, payDate, j, k) {
        if k < |records| && records[k].employeeId == employeeId {
          assert !records[k].IsEmpty();
        }
      }
    }
  }

  /** Payroll never looks at the end of a range: an employee whose only record ended before the pay
      date is still paid from it, though no record is in force. */
  lemma ExpiredRecordIsPaid(employeeId: int, from: Date, to: Date, payDate: Date)
    requires from <= to < payDate
    ensures var records := CreateAll([Proposal(employeeId, from, Some(to), 0, 0)]).0;
            && Picked(records, employeeId, payDate, 0)
            && !exists j :: InForce(records, employeeId, payDate, j)
  {
    var p := Proposal(employeeId, from, Some(to), 0, 0);
    assert [p][..0] == [];
    assert CreateAll([p]).0 == [Record(1, employeeId, from, Some(to), 0, 0)];
  }

  /** An empty range passes the guard and then hides the record in force behind it. */
  lemma EmptyRangeHidesRecord()
    ensures var records := CreateAll([Proposal(1, 1, Some(10), 0, 0), Proposal(1, 5, Some(4), 0, 0)]).0;
            && InForce(records, 1, 7, 0)
            && Picked(records, 1, 7, 1) && !records[1].Contains(7)
  {
    var p, q := Proposal(1, 1, Some(10), 0, 0), Proposal(1, 5, Some(4), 0, 0);
    assert [p, q][..1] == [p] && [p][..0] == [];
    assert CreateAll([p]).0 == [Record(1, 1, 1, Some(10), 0, 0)] && CreateAll([p]).1 == 2;
    assert CreateAll([p, q]).0 == [Record(1, 1, 1, Some(10), 0, 0), Record(2, 1, 5, Some(4), 0, 0)];
  }

  // ----- A payroll run

  /** What the calculation service returns for one employee's year, by the month. */
  datatype Monthly = Monthly(tax: int, employeePf: int, professionalTax: int, employerContribution: int)

  datatype Item = Item(
    employeeId: int,
    gross: int,
    basic: int,
    hra: int,
    special: int,
    employeePf: int,
    professionalTax: int,
    tax: int,
    deductions: int,
    net: int,
    employerPf: int,
    cost: int)

  datatype Totals = Totals(
    gross: int, deductions: int, tax: int, employeePf: int, employerPf: int, professionalTax: int, net: int, cost: int)

  /** Each item splits its gross into earnings and again into net pay and deductions. */
  predicate Balanced(i: Item) {
    && i.basic + i.hra + i.special == i.gross
    && i.deductions == i.employeePf + i.professionalTax + i.tax
    && i.net + i.deductions == i.gross
    && i.cost == i.gross + i.employerPf
  }

  function Sum(items: seq<Item>, f: Item -> int): int {
    if items == [] then 0 else Sum(items[..|items| - 1], f) + f(items[|items| - 1])
  }

  /** The columns of the totals are the sums of the items' columns. */
  ghost predicate Totalled(t: Totals, items: seq<Item>) {
    && t.gross == Sum(items, (i: Item) => i.gross)
    && t.deductions == Sum(items, (i: Item) => i.deductions)
    && t.tax == Sum(items, (i: Item) => i.tax)
    && t.employeePf == Sum(items, (i: Item) => i.employeePf)
    && t.employerPf == Sum(items, (i: Item) => i.employerPf)
    && t.professionalTax == Sum(items, (i: Item) => i.professionalTax)
    && t.net == Sum(items, (i: Item) => i.net)
    && t.cost == Sum(items, (i: Item) => i.cost)
  }

  /** Earnings are rounded half to even, the default of the decimal type. */
  function ItemOf(employeeId: int, r: Record, m: Monthly): Item {
    var basic, hra := HalfEven(r.monthlyGross, 2), HalfEven(r.monthlyGross, 4);
    var deductions := m.employeePf + m.professionalTax + m.tax;
    Item(employeeId, r.monthlyGross, basic, hra, r.monthlyGross - basic - hra, m.employeePf, m.professionalTax, m.tax,
         deductions, r.monthlyGross - deductions, m.employerContribution, r.monthlyGross + m.employerContribution)
  }

  /** One item for each employee with a record, in order. */
  function ItemsOf(employees: seq<int>, active: int -> Option<Record>, monthly: (int, int) -> Monthly)
    : (items: seq<Item>)
    ensures forall i :: i in items ==> Balanced(i)
  {
    if employees == [] then []
    else
      var n := |employees| - 1;
      var items := ItemsOf(employees[..n], active, monthly);
      match active(employees[n])
      case None => items
      case Some(r) => items + [ItemOf(employees[n], r, monthly(employees[n], r.annualCtc))]
  }

  /** A whole number of paise nearest to `num / den`, the even one of two. */
  predicate NearestEven(x: int, num: int, den: int) {
    && -den <= 2 * (den * x - num) <= den
    && (2 * (den * x - num) == den || 2 * (den * x - num) == -den ==> x % 2 == 0)
  }

  /** The item pays the monthly gross of the record: half of it as basic, a quarter as house rent and
      the rest as special allowance, less what the year's calculation takes off by the month. */
  predicate PaidBy(item: Item, r: Record, m: Monthly) {
    && item.gross == r.monthlyGross
    && NearestEven(item.basic, r.monthlyGross, 2) && NearestEven(item.hra, r.monthlyGross, 4)
    && item.special == r.monthlyGross - item.basic - item.hra
    && item.tax == m.tax && item.employeePf == m.employeePf && item.professionalTax == m.professionalTax
    && item.employerPf == m.employerContribution
    && item.deductions == m.tax + m.employeePf + m.professionalTax
    && item.net == r.monthlyGross - (m.tax + m.employeePf + m.professionalTax)
    && item.cost == r.monthlyGross + m.employerContribution
  }

  lemma ItemIsPaidBy(employeeId: int, r: Record, m: Monthly)
    ensures PaidBy(ItemOf(employeeId, r, m), r, m) && ItemOf(employeeId, r, m).employeeId == employeeId
  {
    HalfNearest(r.monthlyGross);
    QuarterNearest(r.monthlyGross);
    hide HalfEven, NearestEven;
  }

  lemma HalfNearest(num: int)
    ensures NearestEven(HalfEven(num, 2), num, 2)
  {
  }

  lemma QuarterNearest(num: int)
    ensures NearestEven(HalfEven(num, 4), num, 4)
  {
  }

  /** The item pays its employee from a record payroll may pick, after the calculation on the annual
      cost to company of that record. */
  ghost predicate PaidFromPick(item: Item, records: seq<Record>, payDate: Date, monthly: (int, int) -> Monthly) {
    exists i: nat :: Picked(records, item.employeeId, payDate, i)
                     && PaidBy(item, records[i], monthly(item.employeeId, records[i].annualCtc))
  }

  lemma {:induction false} PaidFromPicks(
      employees: seq<int>, records: seq<Record>, payDate: Date, active: int -> Option<Record>,
      monthly: (int, int) -> Monthly)
    requires forall e :: e in employees ==> MayAnswer(records, e, payDate, active(e))
    ensures forall i :: i in ItemsOf(employees, active, monthly) ==> PaidFromPick(i, records, payDate, monthly)
  {
    if employees != [] {
      var n := |employees| - 1;
      var e := employees[n];
      assert employees == employees[..n] + [e];
      PaidFromPicks(employees[..n], records, payDate, active, monthly);
      if active(e).Some? {
        var i: nat :| Picked(records, e, payDate, i) && records[i] == active(e).value;
        ItemIsPaidBy(e, records[i], monthly(e, records[i].annualCtc));
        assert PaidFromPick(ItemOf(e, records[i], monthly(e, records[i].annualCtc)), records, payDate, monthly);
      }
    }
  }

  function Ids(items: seq<Item>): seq<int> { seq(|items|, i requires 0 <= i < |items| => items[i].employeeId) }

  /** Every employee a record was found for has one item for each time it is listed, and no other has. */
  lemma {:induction false} WhoIsPaid(
      employees: seq<int>, active: int -> Option<Record>, monthly: (int, int) -> Monthly, e: int)
    ensures multiset(Ids(ItemsOf(employees, active, monthly)))[e]
            == if active(e).Some? then multiset(employees)[e] else 0
  {
    if employees != [] {
      var n := |employees| - 1;
      WhoIsPaid(employees[..n], active, monthly, e);
      assert employees == employees[..n] + [employees[n]];
      var before := ItemsOf(employees[..n], active, monthly);
      if active(employees[n]).Some? {
        var item := ItemOf(employees[n], active(employees[n]).value,
                           monthly(employees[n], active(employees[n]).value.annualCtc));
        assert Ids(before + [item]) == Ids(before) + [employees[n]];
      }
    }
  }

  /** What the query for one employee may answer: a record with the latest start on or before the pay
      date, or nothing if none starts by then. */
  ghost predicate MayAnswer(records: seq<Record>, employeeId: int, payDate: Date, answer: Option<Record>) {
    match answer
    case None => forall j :: 0 <= j < |records| && records[j].employeeId == employeeId ==> payDate < records[j].from
    case Some(r) => exists i: nat :: Picked(records, employeeId, payDate, i) && records[i] == r
  }

  /** The run pays every employee a record was found for, one item each, in order, and its totals are
      the sums of the items' columns. */
  method TotalRun(
      employees: seq<int>, records: seq<Record>, payDate: Date, active: int -> Option<Record>,
      monthly: (int, int) -> Monthly)
    returns (items: seq<Item>, totals: Totals)
    requires forall e :: e in employees ==> MayAnswer(records, e, payDate, active(e))
    ensures items == ItemsOf(employees, active, monthly)
    ensures forall i :: i in items ==> PaidFromPick(i, records, payDate, monthly)
    ensures Totalled(totals, items)
  {
    hide PaidFromPick, MayAnswer;
    PaidFromPicks(employees, records, payDate, active, monthly);
    items := [];
    var gross, deductions, tax, employeePf, employerPf, professionalTax, net, cost := 0, 0, 0, 0, 0, 0, 0, 0;
    for k := 0 to |employees|
      invariant items == ItemsOf(employees[..k], active, monthly)
      invariant Totalled(Totals(gross, deductions, tax, employeePf, employerPf, professionalTax, net, cost), items)
    {
      assert employees[..k + 1][..k] == employees[..k];
      var comp := active(employees[k]);
      if comp.Some? {
        var i := ItemOf(employees[k], comp.value, monthly(employees[k], comp.value.annualCtc));
        ghost var before := items;
        items := items + [i];
        TotalledAppend(
          Totals(gross, deductions, tax, employeePf, employerPf, professionalTax, net, cost), before, i);
        gross := gross + i.gross;
        deductions := deductions + i.deductions;
        tax := tax + i.tax;
        employeePf := employeePf + i.employeePf;
        employerPf := employerPf + i.employerPf;
        professionalTax := professionalTax + i.professionalTax;
        net := net + i.net;
        cost := cost + i.cost;
      }
    }
    assert employees[..|employees|] == employees;
    totals := Totals(gross, deductions, tax, employeePf, employerPf, professionalTax, net, cost);
  }

  function Plus(t: Totals, i: Item): Totals {
    Totals(t.gross + i.gross, t.deductions + i.deductions, t.tax + i.tax, t.employeePf + i.employeePf,
           t.employerPf + i.employerPf, t.professionalTax + i.professionalTax, t.net + i.net, t.cost + i.cost)
  }

  lemma TotalledAppend(t: Totals, items: seq<Item>, i: Item)
    requires Totalled(t, items)
    ensures Totalled(Plus(t, i), items + [i])
  {
    assert (items + [i])[..|items|] == items;
  }

  /** Money is conserved over the run: gross is net pay and deductions, deductions are their three
      parts, and the cost is gross and the employer's share. */
  lemma {:induction false} RunConserves(items: seq<Item>, t: Totals)
    requires Totalled(t, items) && forall i :: i in items ==> Balanced(i)
    ensures t.net + t.deductions == t.gross
    ensures t.deductions == t.tax + t.employeePf + t.professionalTax
    ensures t.cost == t.gross + t.employerPf
  {
    if items != [] {
      var n := |items| - 1;
      var before := Totals(t.gross - items[n].gross, t.deductions - items[n].deductions, t.tax - items[n].tax,
                           t.employeePf - items[n].employeePf, t.employerPf - items[n].employerPf,
                           t.professionalTax - items[n].professionalTax, t.net - items[n].net, t.cost - items[n].cost);
      RunConserves(items[..n], before);
      assert items[n] in items;
    }
  }

  /** After any creations with non-empty ranges: whoever has a record in force on the pay date is paid,
      and from that record. */
  lemma InForceIsPaid(
      proposals: seq<Proposal>, employeeId: int, payDate: Date, answer: Option<Record>, j: nat)
    requires NoneEmpty(CreateAll(proposals).0, employeeId) && InForce(CreateAll(proposals).0, employeeId, payDate, j)
    requires MayAnswer(CreateAll(proposals).0, employeeId, payDate, answer)
    ensures answer == Some(CreateAll(proposals).0[j])
  {
    var records := CreateAll(proposals).0;
    hide CreateAll;
    if answer.Some? {
      var i: nat :| Picked(records, employeeId, payDate, i) && records[i] == answer.value;
      NonEmptyRangesAgree(proposals, employeeId, payDate, i);
    }
  }
}
