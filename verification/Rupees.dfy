/**
 Printing an amount in the Indian grouping and reading it back from a payslip. A decimal is a
 whole number of units and a count of decimal places; digits are the ten ASCII ones.
 */
module Rupees {
  import opened Money

  /** `units / 10^places`, written out with exactly `places` decimals. */
  datatype Decimal = Decimal(units: int, places: nat)

  function Pow10(n: nat): (p: nat)
    ensures p > 0
  {
    if n == 0 then 1 else 10 * Pow10(n - 1)
  }

  // ----- Digits

  predicate IsDigit(c: char) { '0' <= c <= '9' }

  ghost predicate AllDigits(s: string) { forall i :: 0 <= i < |s| ==> IsDigit(s[i]) }

  function DigitChar(d: nat): (c: char)
    requires d < 10
    ensures IsDigit(c) && c as int - '0' as int == d
  {
    ('0' as int + d) as char
  }

  /** Without leading zeros. */
  function Digits(n: nat): (s: string)
    ensures s != "" && AllDigits(s)
  {
    if n < 10 then [DigitChar(n)] else Digits(n / 10) + [DigitChar(n % 10)]
  }

  function ValueOf(s: string): nat
    requires AllDigits(s)
  {
    if s == "" then 0 else 10 * ValueOf(s[..|s| - 1]) + (s[|s| - 1] as int - '0' as int)
  }

  lemma ValueAppend(s: string, c: char)
    requires AllDigits(s) && IsDigit(c)
    ensures AllDigits(s + [c]) && ValueOf(s + [c]) == 10 * ValueOf(s) + (c as int - '0' as int)
  {
    assert (s + [c])[..|s|] == s;
  }

  lemma {:induction false} DigitsRead(n: nat)
    ensures ValueOf(Digits(n)) == n
  {
    if n < 10 {
      ValueAppend("", DigitChar(n));
      assert "" + [DigitChar(n)] == [DigitChar(n)];
    } else {
      DigitsRead(n / 10);
      ValueAppend(Digits(n / 10), DigitChar(n % 10));
    }
  }

  /** At least two digits. */
  function TwoDigits(n: nat): (s: string)
    ensures |s| >= 2 && AllDigits(s)
  {
    if n < 10 then "0" + Digits(n) else Digits(n)
  }

  // ----- Grouping

  /** From the right in pairs; what is left in front has one or two digits. */
  function Pairs(s: string): seq<string> {
    if |s| <= 2 then [s] else Pairs(s[..|s| - 2]) + [s[|s| - 2..]]
  }

  function Join(parts: seq<string>): string {
    if parts == [] then ""
    else if |parts| == 1 then parts[0]
    else Join(parts[..|parts| - 1]) + "," + parts[|parts| - 1]
  }

  function Grouped(s: string): string {
    if |s| <= 3 then s else Join(Pairs(s[..|s| - 3])) + "," + s[|s| - 3..]
  }

  method GroupDigits(s: string) returns (grouped: string)
    requires s != ""
    ensures grouped == Grouped(s)
  {
    if |s| <= 3 {
      return s;
    }
    var last3, rest := s[|s| - 3..], s[..|s| - 3];
    var groups: seq<string> := [];
    while |rest| > 2
      invariant |rest| >= 1
      invariant Pairs(s[..|s| - 3]) == Pairs(rest) + groups
      decreases |rest|
    {
      groups := [rest[|rest| - 2..]] + groups;
      rest := rest[..|rest| - 2];
    }
    if |rest| > 0 {
      groups := [rest] + groups;
    }
    grouped := Join(groups) + "," + last3;
  }

  /** The Indian grouping: a front group of one or two digits, pairs, and a last group of three. */
  lemma {:induction false} GroupShape(s: string)
    requires s != ""
    ensures var p := Pairs(s);
            && p != [] && 1 <= |p[0]| <= 2
            && forall i :: 0 < i < |p| ==> |p[i]| == 2
  {
    if |s| > 2 {
      GroupShape(s[..|s| - 2]);
    }
  }

  // ----- Printing

  function Prefix(negative: bool): string { if negative then "-₹" else "₹" }

  function Div(a: nat, b: nat): nat requires b > 0 { a / b }

  function Mod(a: nat, b: nat): (r: nat) requires b > 0 ensures r < b { a % b }

  function WholePart(v: Decimal): nat { Div(Abs(v.units), Pow10(v.places)) }

  /** The fraction in paise, rounded by itself: it can come out as 100. */
  function PaisePart(v: Decimal): nat {
    Abs(HalfEven(100 * Mod(Abs(v.units), Pow10(v.places)), Pow10(v.places)))
  }

  function Format(v: Decimal, includePaise: bool): string {
    var whole := Prefix(v.units < 0) + Grouped(Digits(WholePart(v)));
    if includePaise && (PaisePart(v) > 0 || v.places > 0) then whole + "." + TwoDigits(PaisePart(v)) else whole
  }

  method FormatInr(value: Option<Decimal>, includePaise: bool) returns (text: string)
    ensures text == if value.None? then "₹0" else Format(value.value, includePaise)
  {
    if value.None? {
      return "₹0";
    }
    var v := value.value;
    var negative := v.units < 0;
    var whole, paise := WholePart(v), PaisePart(v);
    var grouped := GroupDigits(Digits(whole));
    var prefix := if negative then "-₹" else "₹";
    if includePaise && (paise > 0 || v.places > 0) {
      return prefix + grouped + "." + TwoDigits(paise);
    }
    text := prefix + grouped;
  }

  // ----- Reading

  predicate Kept(c: char) { IsDigit(c) || c == '.' || c == '-' }

  function Clean(s: string): string {
    if s == "" then ""
    else
      var front := Clean(s[..|s| - 1]);
      if Kept(s[|s| - 1]) then front + [s[|s| - 1]] else front
  }

  /** What follows the point at `k`, if there is one. */
  function Decimals(s: string, k: nat): string
    requires k <= |s|
  {
    if k < |s| then s[k + 1..] else ""
  }

  /** Digits with at most one point among them, at least one digit in all. */
  function ReadUnsigned(s: string): Option<Decimal> {
    var k := PointAt(s);
    var whole, fraction := s[..k], Decimals(s, k);
    if (forall i :: 0 <= i < |whole| ==> IsDigit(whole[i]))
       && (forall i :: 0 <= i < |fraction| ==> IsDigit(fraction[i]))
       && whole + fraction != ""
    then Some(Decimal(ValueOf(whole + fraction), |fraction|))
    else None
  }

  /** The first point, or the end. */
  function PointAt(s: string): (k: nat)
    ensures k <= |s| && (k < |s| ==> s[k] == '.') && forall i :: 0 <= i < k ==> s[i] != '.'
  {
    if s == "" || s[0] == '.' then 0 else 1 + PointAt(s[1..])
  }

  function ReadDecimal(s: string): Option<Decimal> {
    if s != "" && s[0] == '-' then
      var u := ReadUnsigned(s[1..]);
      if u.None? then None else Some(u.value.(units := -u.value.units))
    else ReadUnsigned(s)
  }

  /** The amount in paise, half to even. */
  function Paise(v: Decimal): int { HalfEven(100 * v.units, Pow10(v.places)) }

  /** In paise; anything that is not a number reads as nothing. */
  function ParseCurrency(text: string): int {
    match ReadDecimal(Clean(text))
    case None => 0
    case Some(v) => Paise(v)
  }

  // ----- Reading back what was printed

  lemma {:induction false} CleanConcat(a: string, b: string)
    ensures Clean(a + b) == Clean(a) + Clean(b)
  {
    if b == "" {
      assert a + b == a;
    } else {
      var n := |b| - 1;
      CleanConcat(a, b[..n]);
      assert (a + b)[..|a| + n] == a + b[..n];
    }
  }

  lemma {:induction false} CleanDigits(s: string)
    requires AllDigits(s)
    ensures Clean(s) == s
  {
    if s != "" {
      CleanDigits(s[..|s| - 1]);
    }
  }

  lemma {:induction false} CleanPairs(s: string)
    requires AllDigits(s)
    ensures Clean(Join(Pairs(s))) == s
  {
    hide Clean;
    if |s| <= 2 {
      CleanDigits(s);
    } else {
      var front, last := s[..|s| - 2], s[|s| - 2..];
      CleanPairs(front);
      var parts := Pairs(s);
      assert parts[..|parts| - 1] == Pairs(front);
      assert Join(parts) == Join(Pairs(front)) + "," + last;
      CleanTail(Join(Pairs(front)), front, last);
      assert front + last == s;
    }
  }

  lemma CleanComma()
    ensures Clean(",") == "" && Clean(".") == "." && Clean("₹") == "" && Clean("-₹") == "-"
  {
    assert ","[..0] == "" && "."[..0] == "" && "₹"[..0] == "" && "-"[..0] == "";
    assert "-₹"[..1] == "-";
  }

  /** Cleaning drops the comma before a group of digits. */
  lemma CleanTail(text: string, digits: string, last: string)
    requires Clean(text) == digits && AllDigits(last)
    ensures Clean(text + "," + last) == digits + last
  {
    hide Clean;
    CleanDigits(last);
    CleanConcat(text + ",", last);
    CleanConcat(text, ",");
    CleanComma();
  }

  /** Cleaning takes the grouping out again. */
  lemma CleanGrouped(s: string)
    requires AllDigits(s)
    ensures Clean(Grouped(s)) == s
  {
    hide Clean, Pairs, Join;
    if |s| <= 3 {
      CleanDigits(s);
    } else {
      var front, last := s[..|s| - 3], s[|s| - 3..];
      CleanPairs(front);
      CleanTail(Join(Pairs(front)), front, last);
      assert front + last == s;
    }
  }

  function Sign(negative: bool): string { if negative then "-" else "" }

  lemma CleanFormat(v: Decimal, includePaise: bool)
    ensures var digits := Digits(WholePart(v));
            Clean(Format(v, includePaise))
            == Sign(v.units < 0)
               + if includePaise && (PaisePart(v) > 0 || v.places > 0) then digits + "." + TwoDigits(PaisePart(v))
                 else digits
  {
    hide WholePart, PaisePart, Digits, TwoDigits, Grouped, Clean;
    var digits, two := Digits(WholePart(v)), TwoDigits(PaisePart(v));
    var prefix := Prefix(v.units < 0);
    CleanComma();
    CleanGrouped(digits);
    CleanDigits(two);
    CleanConcat(prefix, Grouped(digits));
    CleanConcat(prefix + Grouped(digits), ".");
    CleanConcat(prefix + Grouped(digits) + ".", two);
  }

  lemma PointAfter(digits: string, rest: string)
    requires AllDigits(digits)
    ensures PointAt(digits + "." + rest) == |digits| && PointAt(digits) == |digits|
  {
    var s := digits + "." + rest;
    assert s[|digits|] == '.';
    assert forall i :: 0 <= i < |digits| ==> s[i] == digits[i];
  }

  lemma ReadDigits(negative: bool, whole: string)
    requires AllDigits(whole) && whole != ""
    ensures ReadDecimal(Sign(negative) + whole)
            == Some(Decimal(Signed(negative, ValueOf(whole)), 0))
  {
    hide PointAt, ValueOf;
    PointAfter(whole, "");
    assert whole[..|whole|] + "" == whole;
    hide AllDigits;
    assert ReadUnsigned(whole) == Some(Decimal(ValueOf(whole), 0));
    hide ReadUnsigned;
    Unsigned(negative, whole);
  }

  /** A sign in front of a digit is taken off again. */
  lemma Unsigned(negative: bool, u: string)
    requires u != "" && IsDigit(u[0])
    ensures var read := ReadUnsigned(u);
            ReadDecimal(Sign(negative) + u)
            == if read.None? then None
               else Some(read.value.(units := if negative then -read.value.units else read.value.units))
  {
    hide ReadUnsigned;
    assert negative ==> (Sign(negative) + u)[1..] == u;
    assert !negative ==> Sign(negative) + u == u;
  }

  lemma ReadPoint(negative: bool, whole: string, fraction: string)
    requires AllDigits(whole) && whole != "" && AllDigits(fraction)
    ensures AllDigits(whole + fraction)
    ensures var value := ValueOf(whole + fraction);
            ReadDecimal(Sign(negative) + (whole + "." + fraction))
            == Some(Decimal(Signed(negative, value), |fraction|))
  {
    hide PointAt, ValueOf;
    PointAfter(whole, fraction);
    var u := whole + "." + fraction;
    assert u[..|whole|] == whole && u[|whole| + 1..] == fraction;
    assert IsDigit(whole[0]) && u[0] == whole[0];
    assert ReadUnsigned(u) == Some(Decimal(ValueOf(whole + fraction), |fraction|));
    hide ReadUnsigned;
    Unsigned(negative, u);
  }

  /** The digits of a number up to 100 after those of another. */
  lemma ValueOfTwo(whole: string, p: nat)
    requires AllDigits(whole) && p <= 100
    ensures AllDigits(whole + TwoDigits(p))
    ensures |TwoDigits(p)| == if p < 100 then 2 else 3
    ensures ValueOf(whole + TwoDigits(p)) == if p < 100 then 100 * ValueOf(whole) + p else 1000 * ValueOf(whole) + 100
  {
    if p < 100 {
      TwoDigitsAre(p);
      ValueAppendTwo(whole, DigitChar(p / 10), DigitChar(p % 10));
    } else {
      var a, b := DigitChar(1), DigitChar(0);
      assert Digits(1) == [a] && Digits(10) == [a, b] && TwoDigits(p) == [a, b] + [b];
      hide TwoDigits, Digits, DigitChar, ValueOf;
      assert whole + ([a, b] + [b]) == whole + [a, b] + [b];
      ValueAppendTwo(whole, a, b);
      ValueAppend(whole + [a, b], b);
    }
  }

  lemma TwoDigitsAre(p: nat)
    requires p < 100
    ensures TwoDigits(p) == [DigitChar(p / 10), DigitChar(p % 10)]
  {
    assert p >= 10 ==> Digits(p / 10) == [DigitChar(p / 10)];
  }

  lemma ValueAppendTwo(s: string, a: char, b: char)
    requires AllDigits(s) && IsDigit(a) && IsDigit(b)
    ensures AllDigits(s + [a, b])
    ensures ValueOf(s + [a, b]) == 100 * ValueOf(s) + 10 * (a as int - '0' as int) + (b as int - '0' as int)
  {
    hide ValueOf;
    assert s + [a, b] == s + [a] + [b];
    ValueAppend(s, a);
    ValueAppend(s + [a], b);
  }

  lemma PowersOfTen()
    ensures Pow10(0) == 1 && Pow10(1) == 10 && Pow10(2) == 100 && Pow10(3) == 1000
  {
  }

  function Signed(negative: bool, n: nat): int { if negative then 0 - n else n }

  lemma FractionBound(v: Decimal)
    ensures PaisePart(v) <= 100
  {
    var p := Pow10(v.places);
    RoundsWithin(Mod(Abs(v.units), p), p);
  }

  lemma RoundsWithin(r: nat, p: nat)
    requires r < p
    ensures 0 <= HalfEven(100 * r, p) <= 100
  {
    var q := (100 * r) / p;
    assert q * p <= 100 * r < 100 * p;
    QuotientBound(q, p, 100);
  }

  lemma QuotientBound(q: nat, p: nat, bound: nat)
    requires q * p < bound * p
    ensures q < bound
  {
    if bound <= q {
      MulMonotone(bound, q, p);
    }
  }

  /** Whole units and a remainder round like the remainder alone, above an even count of paise. */
  lemma HalfEvenShift(w: nat, r: nat, p: nat)
    requires p > 0
    ensures HalfEven(100 * (w * p + r), p) == 100 * w + HalfEven(100 * r, p)
  {
    var x := 100 * r;
    assert 100 * (w * p + r) == (100 * w) * p + x;
    DivisionShift(100 * w, x, p);
    HalfEvenFrom((100 * w) * p + x, x, 100 * w, p);
  }

  lemma RoundEvenShift(q: int, r: nat, k: nat, den: nat)
    requires k % 2 == 0
    ensures RoundEven(k + q, r, den) == k + RoundEven(q, r, den)
  {
  }

  /** Numerators with the same remainder, and quotients an even number apart, round alike. */
  lemma HalfEvenFrom(a: nat, b: nat, k: nat, p: nat)
    requires p > 0 && k % 2 == 0 && a / p == k + b / p && a % p == b % p
    ensures HalfEven(a, p) == k + HalfEven(b, p)
  {
    hide RoundEven;
    RoundEvenShift(b / p, b % p, k, p);
  }

  lemma DivisionShift(k: nat, x: nat, p: nat)
    requires p > 0
    ensures (k * p + x) / p == k + x / p && (k * p + x) % p == x % p
  {
    var q, m := x / p, x % p;
    assert k * p + x == (k + q) * p + m;
    DivisionUnique(k * p + x, k + q, m, p);
  }

  lemma DivisionUnique(a: nat, q: nat, m: nat, p: nat)
    requires p > 0 && a == q * p + m && m < p
    ensures a / p == q && a % p == m
  {
    var d := a / p;
    assert a == d * p + a % p;
    if d < q {
      MulMonotone(d + 1, q, p);
    } else if q < d {
      MulMonotone(q + 1, d, p);
    }
  }

  lemma HalfEvenSign(n: nat, p: nat)
    requires p > 0
    ensures HalfEven(0 - n, p) == 0 - HalfEven(n, p)
  {
  }

  /** A fraction rounds to fewer than a hundred paise exactly when it is below 0.995. */
  lemma RoundsBelowHundred(r: nat, p: nat)
    requires r < p
    ensures HalfEven(100 * r, p) < 100 <==> 200 * r < 199 * p
  {
    var q, m := 100 * r / p, 100 * r % p;
    assert 100 * r == q * p + m;
    QuotientBound(q, p, 100);
    hide RoundEven;
    RoundsUpAt(q, m, p);
    if q < 99 {
      MulMonotone(q, 98, p);
    }
  }

  lemma RoundsUpAt(q: nat, m: nat, p: nat)
    requires q < 100 && m < p
    ensures RoundEven(q, m, p) < 100 <==> q < 99 || 2 * m < p
  {
  }

  /** Printed with paise and read back, an amount comes back rounded to paise exactly when its
      fraction is below 0.995: at that it is printed as a hundred paise. */
  lemma PrintedIsReadBack(v: Decimal)
    requires v.places > 0
    ensures ParseCurrency(Format(v, true)) == Paise(v)
            <==> 200 * Mod(Abs(v.units), Pow10(v.places)) < 199 * Pow10(v.places)
  {
    hide Format, ParseCurrency, Paise, PaisePart, Pow10, Mod;
    BelowHundred(v);
    PrintedWithPaise(v);
  }

  lemma BelowHundred(v: Decimal)
    ensures PaisePart(v) < 100 <==> 200 * Mod(Abs(v.units), Pow10(v.places)) < 199 * Pow10(v.places)
  {
    hide Pow10, Mod, HalfEven;
    var p := Pow10(v.places);
    RoundsWithin(Mod(Abs(v.units), p), p);
    RoundsBelowHundred(Mod(Abs(v.units), p), p);
  }

  lemma PrintedWithPaise(v: Decimal)
    requires v.places > 0
    ensures ParseCurrency(Format(v, true)) == Paise(v) <==> PaisePart(v) < 100
  {
    var p, n, negative := Pow10(v.places), Abs(v.units), v.units < 0;
    var w, r := WholePart(v), PaisePart(v);
    var digits := Digits(w);
    CleanFormat(v, true);
    FractionBound(v);
    ReadPoint(negative, digits, TwoDigits(r));
    ValueOfTwo(digits, r);
    DigitsRead(w);
    PowersOfTen();
    assert Clean(Format(v, true)) == Sign(negative) + (digits + "." + TwoDigits(r));
    PaiseOf(v);
    hide Clean, Format, ReadDecimal, Digits, TwoDigits, ValueOf, WholePart, PaisePart, Paise, Pow10;
    if r < 100 {
      ReadHundredths(negative, w, r);
    } else {
      ReadThousandths(negative, w);
    }
  }

  lemma PaiseOf(v: Decimal)
    ensures Paise(v) == Signed(v.units < 0, 100 * WholePart(v) + PaisePart(v))
  {
    var p, n := Pow10(v.places), Abs(v.units);
    assert n == Div(n, p) * p + Mod(n, p);
    HalfEvenShift(Div(n, p), Mod(n, p), p);
    RoundsWithin(Mod(n, p), p);
    HalfEvenSign(100 * n, p);
  }

  lemma ReadHundredths(negative: bool, w: nat, r: nat)
    ensures HalfEven(100 * Signed(negative, 100 * w + r), 100) == Signed(negative, 100 * w + r)
  {
  }

  lemma ReadThousandths(negative: bool, w: nat)
    ensures HalfEven(100 * Signed(negative, 1000 * w + 100), 1000) == Signed(negative, 100 * w + 10)
  {
  }

  /** Every signed amount of rupees and paise survives printing and reading. */
  lemma RoundTrip(paise: int)
    ensures ParseCurrency(Format(Decimal(paise, 2), true)) == paise
  {
    var v := Decimal(paise, 2);
    PowersOfTen();
    WholePaise(Abs(paise));
    assert PaisePart(v) < 100 && Paise(v) == paise by {
      hide Pow10;
    }
    hide Paise, PaisePart, Format, ParseCurrency;
    PrintedWithPaise(v);
  }

  lemma WholePaise(n: nat)
    ensures HalfEven(100 * n, 100) == n && HalfEven(0 - 100 * n, 100) == 0 - n
  {
  }

  /** Without paise, the rupees come back, the fraction dropped towards zero. */
  lemma RupeesRoundTrip(v: Decimal)
    ensures ParseCurrency(Format(v, false)) == Signed(v.units < 0, WholePart(v)) * 100
  {
    CleanFormat(v, false);
    ReadDigits(v.units < 0, Digits(WholePart(v)));
    DigitsRead(WholePart(v));
    PowersOfTen();
    hide Clean, Format, ReadDecimal, Digits, ValueOf, WholePart, Pow10;
  }

  /** 1.999 rupees print as 1.100 and read back as 1.10. */
  lemma FractionCanCarry()
    ensures PaisePart(Decimal(1999, 3)) == 100
    ensures ParseCurrency(Format(Decimal(1999, 3), true)) != Paise(Decimal(1999, 3))
  {
    PowersOfTen();
    assert PaisePart(Decimal(1999, 3)) == 100 by {
      hide Pow10;
    }
    hide Format, ParseCurrency, Paise, PaisePart;
    PrintedWithPaise(Decimal(1999, 3));
  }
}
