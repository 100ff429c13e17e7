/** What a printed amount looks like, character by character: its sign, its digits, where the commas stand
    and what the fraction says. */
module PrintedRupees {
  import opened Money
  import opened Rupees

  /** A comma stands wherever a multiple of three characters is to its right, the first of three digits
      and each further of two digits and a comma; everything else is a digit. */
  ghost predicate IndianCommas(g: string) {
    forall i :: 0 <= i < |g| ==>
      var right := |g| - 1 - i;
      (g[i] == ',' <==> right > 0 && right % 3 == 0) && (g[i] != ',' ==> IsDigit(g[i]))
  }

  /** The same to the left of the last three digits and their comma. */
  ghost predicate PairCommas(g: string) {
    forall i :: 0 <= i < |g| ==>
      (g[i] == ',' <==> (|g| - 1 - i) % 3 == 2) && (g[i] != ',' ==> IsDigit(g[i]))
  }

  lemma ThirdPlace(right: nat)
    ensures (right + 3) % 3 == right % 3
    ensures (right + 4) % 3 == 0 <==> right % 3 == 2
  {
  }

  lemma {:induction false} PairsHaveCommas(s: string)
    requires AllDigits(s)
    ensures PairCommas(Join(Pairs(s)))
  {
    if |s| > 2 {
      var front, last := s[..|s| - 2], s[|s| - 2..];
      PairsHaveCommas(front);
      var parts := Pairs(s);
      assert parts[..|parts| - 1] == Pairs(front);
      hide Pairs;
      JoinedPairs(Join(Pairs(front)), last);
    }
  }

  lemma JoinedPairs(g: string, last: string)
    requires PairCommas(g) && AllDigits(last) && |last| == 2
    ensures PairCommas(g + "," + last)
  {
    var all := g + "," + last;
    forall i | 0 <= i < |all|
      ensures (all[i] == ',' <==> (|all| - 1 - i) % 3 == 2) && (all[i] != ',' ==> IsDigit(all[i]))
    {
      if i < |g| {
        assert all[i] == g[i] && |all| - 1 - i == (|g| - 1 - i) + 3;
        ThirdPlace(|g| - 1 - i);
      } else if i > |g| {
        assert all[i] == last[i - |g| - 1];
      }
    }
  }

  /** The grouping puts a comma before the last three digits and before every pair further left, keeps
      the digits in their order and starts with none. */
  lemma GroupedCommas(s: string)
    requires s != "" && AllDigits(s)
    ensures IndianCommas(Grouped(s)) && Clean(Grouped(s)) == s
    ensures Grouped(s) != "" && Grouped(s)[0] == s[0]
  {
    hide Clean, Pairs, Join;
    CleanGrouped(s);
    GroupedStart(s);
    if |s| > 3 {
      var front, last := s[..|s| - 3], s[|s| - 3..];
      PairsHaveCommas(front);
      LastThree(Join(Pairs(front)), last);
    }
  }

  lemma LastThree(g: string, last: string)
    requires PairCommas(g) && AllDigits(last) && |last| == 3
    ensures IndianCommas(g + "," + last)
  {
    var all := g + "," + last;
    forall i | 0 <= i < |all|
      ensures (all[i] == ',' <==> |all| - 1 - i > 0 && (|all| - 1 - i) % 3 == 0)
      ensures all[i] != ',' ==> IsDigit(all[i])
    {
      if i < |g| {
        assert all[i] == g[i] && |all| - 1 - i == (|g| - 1 - i) + 4;
        ThirdPlace(|g| - 1 - i);
      } else if i > |g| {
        assert all[i] == last[i - |g| - 1];
      }
    }
  }

  lemma {:induction false} PairsStart(s: string)
    requires s != ""
    ensures var g := Join(Pairs(s)); g != "" && g[0] == s[0]
  {
    if |s| > 2 {
      PairsStart(s[..|s| - 2]);
      var parts := Pairs(s);
      assert parts[..|parts| - 1] == Pairs(s[..|s| - 2]);
    }
  }

  lemma GroupedStart(s: string)
    requires s != ""
    ensures Grouped(s) != "" && Grouped(s)[0] == s[0]
  {
    if |s| > 3 {
      PairsStart(s[..|s| - 3]);
    }
  }

  lemma {:induction false} NoLeadingZero(n: nat)
    ensures Digits(n)[0] == '0' ==> Digits(n) == "0"
  {
    if n >= 10 {
      NoLeadingZero(n / 10);
      ZeroReads(n / 10);
    }
  }

  lemma ZeroReads(n: nat)
    ensures Digits(n) == "0" ==> n == 0
  {
    DigitsRead(n);
    hide Digits;
    assert "0"[..0] == "";
  }

  lemma HalfEvenNearest(num: nat, den: nat)
    requires den > 0
    ensures 0 - den <= 2 * (HalfEven(num, den) * den - num) <= den
  {
    var q, m := num / den, num % den;
    assert num == q * den + m;
    assert (q + 1) * den == q * den + den;
  }

  /** A point and the paise nearest to the fraction, in two digits, or three when they come to a hundred. */
  ghost predicate FractionText(tail: string, fraction: int, one: int) {
    && |tail| >= 3 && tail[0] == '.' && AllDigits(tail[1..])
    && var paise := ValueOf(tail[1..]);
       -one <= 2 * (paise * one - 100 * fraction) <= one
       && |tail| == (if paise < 100 then 3 else 4)
  }

  lemma FractionPrinted(fraction: nat, one: nat)
    requires fraction < one
    ensures FractionText("." + TwoDigits(Abs(HalfEven(100 * fraction, one))), fraction, one)
  {
    hide HalfEven;
    RoundsWithin(fraction, one);
    HalfEvenNearest(100 * fraction, one);
    var p := HalfEven(100 * fraction, one);
    ValueOfTwo("", p);
    assert "" + TwoDigits(p) == TwoDigits(p);
    assert ("." + TwoDigits(p))[1..] == TwoDigits(p);
    hide TwoDigits;
    assert ValueOf("") == 0;
  }

  /** The printed text: a minus for an amount below zero, the rupee sign, the whole rupees in Indian
      grouping without leading zeros, and the paise if asked for and the amount has decimals. */
  lemma PrintedText(v: Decimal, includePaise: bool) returns (whole: string, tail: string)
    ensures Format(v, includePaise) == (if v.units < 0 then "-" else "") + "₹" + whole + tail
    ensures IndianCommas(whole) && whole != "" && (whole[0] == '0' ==> whole == "0")
    ensures AllDigits(Clean(whole))
    ensures var rupees, one := ValueOf(Clean(whole)), Pow10(v.places);
            var amount := if v.units < 0 then -v.units else v.units;
            && rupees * one <= amount < rupees * one + one
            && (!includePaise || v.places == 0 ==> tail == "")
            && (includePaise && v.places > 0 ==> FractionText(tail, amount - rupees * one, one))
  {
    hide Digits, TwoDigits, Clean, ValueOf, Pow10, HalfEven, FractionText, Grouped, IndianCommas, AllDigits;
    var rupees, one, amount := WholePart(v), Pow10(v.places), Abs(v.units);
    WholeAndRest(amount, one);
    var digits := Digits(rupees);
    whole := Grouped(digits);
    tail := if includePaise && v.places > 0 then "." + TwoDigits(PaisePart(v)) else "";
    NoPlacesNoPaise(v);
    NoLeadingZero(rupees);
    DigitsRead(rupees);
    FractionPrinted(Mod(amount, one), one);
    GroupedCommas(digits);
    ShortIsUngrouped(digits);
    SignIs(v.units < 0);
    hide Prefix, Div, Mod, PaisePart;
  }

  lemma WholeAndRest(amount: nat, one: nat)
    requires one > 0
    ensures Div(amount, one) * one + Mod(amount, one) == amount
  {
  }

  lemma SignIs(negative: bool)
    ensures Prefix(negative) == (if negative then "-" else "") + "₹"
  {
    assert "-" + "₹" == "-₹" && "" + "₹" == "₹";
  }

  lemma ShortIsUngrouped(s: string)
    ensures |s| <= 3 ==> Grouped(s) == s
  {
  }

  lemma NoPlacesNoPaise(v: Decimal)
    ensures v.places == 0 ==> PaisePart(v) == 0
  {
    if v.places == 0 {
      assert Pow10(0) == 1;
      assert Mod(Abs(v.units), 1) == 0;
      assert HalfEven(0, 1) == 0;
    }
  }

  // ----- What is read as a number

  /** Digits, and possibly a point with digits after it, at least one digit in all. */
  ghost predicate Numeral(u: string, whole: string, fraction: string) {
    && AllDigits(whole) && AllDigits(fraction) && whole + fraction != ""
    && (u == whole + "." + fraction || (u == whole && fraction == ""))
  }

  lemma NumeralIsRead(u: string, whole: string, fraction: string)
    requires Numeral(u, whole, fraction)
    ensures AllDigits(whole + fraction)
    ensures ReadUnsigned(u) == Some(Decimal(ValueOf(whole + fraction), |fraction|))
    ensures u != "" && u[0] != '-'
  {
    hide PointAt, ValueOf;
    PointAfter(whole, fraction);
    var k := PointAt(u);
    assert k == |whole| && u[..k] == whole && (k < |u| ==> u[k + 1..] == fraction);
    if whole == "" {
      assert u[0] == '.';
    } else {
      assert IsDigit(whole[0]) && u[0] == whole[0];
    }
  }

  lemma OnlyNumerals(u: string) returns (whole: string, fraction: string)
    requires ReadUnsigned(u).Some?
    ensures Numeral(u, whole, fraction)
  {
    hide ValueOf;
    var k := PointAt(u);
    whole, fraction := u[..k], Decimals(u, k);
    assert AllDigits(whole) && AllDigits(fraction);
    if k < |u| {
      assert u == whole + "." + fraction;
    } else {
      assert u == whole;
    }
  }

  /** A text is read as a number exactly when it is one, after a minus or none. */
  lemma ReadsNumeralsExactly(s: string)
    ensures ReadDecimal(s).Some? <==>
              exists negative, u, whole, fraction :: s == Sign(negative) + u && Numeral(u, whole, fraction)
  {
    hide ReadUnsigned, Numeral;
    if ReadDecimal(s).Some? {
      var negative := s != "" && s[0] == '-';
      var u := if negative then s[1..] else s;
      var whole, fraction := OnlyNumerals(u);
      assert s == Sign(negative) + u;
    }
    if negative, u, whole, fraction :| s == Sign(negative) + u && Numeral(u, whole, fraction) {
      NumeralIsRead(u, whole, fraction);
      SignIsRead(negative, u);
    }
  }

  lemma SignIsRead(negative: bool, u: string)
    requires ReadUnsigned(u).Some? && u != "" && u[0] != '-'
    ensures ReadDecimal(Sign(negative) + u)
            == if negative then Some(ReadUnsigned(u).value.(units := -ReadUnsigned(u).value.units))
               else ReadUnsigned(u)
  {
    hide ReadUnsigned;
    assert (Sign(true) + u)[1..] == u;
    assert Sign(false) + u == u;
  }

  /** And then by its sign, its digits and how many of them are decimals. */
  lemma NumeralValue(negative: bool, u: string, whole: string, fraction: string)
    requires Numeral(u, whole, fraction)
    ensures AllDigits(whole + fraction)
    ensures ReadDecimal(Sign(negative) + u) == Some(Decimal(Signed(negative, ValueOf(whole + fraction)), |fraction|))
  {
    hide ReadUnsigned, ReadDecimal, ValueOf, Numeral, AllDigits, Sign;
    NumeralIsRead(u, whole, fraction);
    SignIsRead(negative, u);
  }

  /** Stripping a text goes character by character, and keeps digits, points and minus signs. */
  lemma CleanCharacter(c: char)
    ensures Clean([c]) == if ('0' <= c <= '9') || c == '.' || c == '-' then [c] else ""
  {
    assert [c][..0] == "";
  }

  lemma HalfEvenTie(num: nat, den: nat)
    requires den > 0
    ensures HalfEven(num, den) >= 0
    ensures 2 * (HalfEven(num, den) * den - num) == den || 2 * (HalfEven(num, den) * den - num) == 0 - den
            ==> HalfEven(num, den) % 2 == 0
  {
    var q, m := num / den, num % den;
    assert num == q * den + m;
    assert (q + 1) * den == q * den + den;
  }

  /** The amount read from a text that is a number once stripped: the paise nearest to it, the even ones
      of two, under its sign. */
  lemma ParsedAmount(text: string, negative: bool, u: string, whole: string, fraction: string)
    requires Clean(text) == Sign(negative) + u && Numeral(u, whole, fraction)
    ensures AllDigits(whole + fraction)
    ensures var one, n := Pow10(|fraction|), ValueOf(whole + fraction);
            var paise := if negative then -ParseCurrency(text) else ParseCurrency(text);
            && 0 <= paise && 0 - one <= 2 * (paise * one - 100 * n) <= one
            && (2 * (paise * one - 100 * n) == one || 2 * (paise * one - 100 * n) == 0 - one ==> paise % 2 == 0)
  {
    hide Clean, ReadDecimal, Numeral, ValueOf, Pow10, HalfEven, AllDigits, Sign;
    NumeralValue(negative, u, whole, fraction);
    var one, n := Pow10(|fraction|), ValueOf(whole + fraction);
    HalfEvenNearest(100 * n, one);
    HalfEvenTie(100 * n, one);
    HalfEvenSign(100 * n, one);
    assert ParseCurrency(text) == HalfEven(100 * Signed(negative, n), one);
  }

  /** Any other text reads as nothing. */
  lemma OtherTextIsNothing(text: string)
    requires forall negative, u, whole, fraction :: Numeral(u, whole, fraction) ==> Clean(text) != Sign(negative) + u
    ensures ParseCurrency(text) == 0
  {
    ReadsNumeralsExactly(Clean(text));
    hide Clean, ReadDecimal, Numeral, Sign;
  }
}
