/** Numerals, rounding and limits of a price cell, from the text. */
module PriceRules {
  import opened Text
  import opened Wrappers
  import opened PriceParser

  // ---------------------------------------------------------------------------
  // Numerals
  // ---------------------------------------------------------------------------

  datatype Sign = Unsigned | Plus | Minus {
    function Text(): string { match this case Unsigned => "" case Plus => "+" case Minus => "-" }
  }

  /** A power of ten behind the digits: 12e3, 12E-3. */
  datatype Exponent = Exponent(mark: char, sign: Sign, digits: string) {
    predicate Valid() { (mark == 'e' || mark == 'E') && AllDigits(digits) && digits != "" }

    function Text(): string { [mark] + sign.Text() + digits }

    function Power(): int
      requires Valid()
    {
      if sign.Minus? then -(Value(digits) as int) else Value(digits)
    }
  }

  lemma {:induction false} StripNothing(s: string)
    requires s != "" && !IsSpace(s[0]) && !IsSpace(s[|s| - 1])
    ensures Strip(s) == s
  {
    assert StripLeft(s) == s && StripRight(s) == s;
  }

  lemma SignSplits(sign: Sign, rest: string)
    requires rest != "" && rest[0] != '+' && rest[0] != '-'
    ensures SplitSign(sign.Text() + rest) == (sign.Minus?, rest)
  {
    assert sign.Unsigned? ==> sign.Text() + rest == rest;
    assert !sign.Unsigned? ==> (sign.Text() + rest)[1..] == rest;
  }

  lemma PointRead(whole: string, fraction: string)
    requires AllDigits(whole) && AllDigits(fraction) && whole + fraction != ""
    ensures Mantissa(whole + "." + fraction) == Some(Number(false, Value(whole + fraction), -|fraction|))
  {
    var s := whole + "." + fraction;
    hide Value;
    DigitsOnly(whole, '.');
    Around(whole, '.', fraction);
    FindIs(s, '.', |whole|);
    DigitsJoin(whole, fraction);
  }

  lemma NoPointRead(whole: string)
    requires AllDigits(whole) && whole != ""
    ensures Mantissa(whole) == Some(Number(false, Value(whole), 0))
  {
    hide Value;
    DigitsOnly(whole, '.');
    FindIs(whole, '.', |whole|);
    assert whole[..|whole|] + "" == whole;
  }

  predicate IsMantissa(m: string) { m != "" && forall i :: 0 <= i < |m| ==> IsDigit(m[i]) || m[i] == '.' }

  lemma NoMark(m: string, c: char)
    requires IsMantissa(m) && (c == 'e' || c == 'E' || c == '_')
    ensures c !in m
  {}

  lemma ExponentSplits(m: string, x: Exponent)
    requires IsMantissa(m) && x.Valid()
    ensures ExponentMark(m + x.Text()) == |m| && (m + x.Text())[..|m|] == m
    ensures (m + x.Text())[|m| + 1..] == x.sign.Text() + x.digits && |m| < |m + x.Text()|
  {
    var s := m + x.Text();
    NoMark(m, 'e');
    NoMark(m, 'E');
    assert s == m + [x.mark] + (x.sign.Text() + x.digits);
    Around(m, x.mark, x.sign.Text() + x.digits);
    if x.mark == 'E' {
      DigitsOnly(x.digits, 'e');
      assert 'e' !in s;
    }
    FindIs(s, x.mark, |m|);
  }

  lemma ExponentReads(m: string, n: Number, x: Exponent)
    requires IsMantissa(m) && x.Valid() && Mantissa(m) == Some(n)
    ensures PriceParser.Unsigned(m + x.Text()) == Some(Number(false, n.coefficient, x.Power() + n.exponent))
  {
    hide Mantissa, Value, ExponentMark, SplitSign, Exponent.Text;
    ExponentSplits(m, x);
    assert IsDigit(x.digits[0]);
    SignSplits(x.sign, x.digits);
  }

  lemma NoExponentReads(m: string)
    requires IsMantissa(m)
    ensures PriceParser.Unsigned(m) == Mantissa(m)
  {
    NoMark(m, 'e');
    NoMark(m, 'E');
    FindIs(m, 'E', |m|);
    NoExponent(m);
  }

  lemma SignedReads(sign: Sign, body: string)
    requires body != "" && body[0] != '+' && body[0] != '-' && !IsSpace(body[0]) && !IsSpace(body[|body| - 1])
    requires '_' !in body
    ensures DecimalOf(sign.Text() + body) ==
            match PriceParser.Unsigned(body)
            case None => None
            case Some(n) => Some(Number(sign.Minus?, n.coefficient, n.exponent))
  {
    hide PriceParser.Unsigned, SplitSign, Strip, IsSpace;
    var s := sign.Text() + body;
    assert '_' !in s;
    WithoutAbsent(s, '_');
    assert s[|s| - 1] == body[|body| - 1];
    SignIsNoSpace(sign, body);
    StripNothing(s);
    SignSplits(sign, body);
  }

  lemma SignIsNoSpace(sign: Sign, body: string)
    requires body != "" && !IsSpace(body[0])
    ensures !IsSpace((sign.Text() + body)[0])
  {}

  /** Digits with an optional point, sign and power of ten stand for the number they denote. */
  lemma NumeralReads(sign: Sign, whole: string, point: bool, fraction: string, x: Option<Exponent>)
    requires AllDigits(whole) && AllDigits(fraction) && whole + fraction != "" && (!point ==> fraction == "")
    requires x.Some? ==> x.value.Valid()
    ensures AllDigits(whole + fraction)
    ensures var body := whole + (if point then "." + fraction else "") + (if x.Some? then x.value.Text() else "");
            DecimalOf(sign.Text() + body) ==
            Some(Number(sign.Minus?, Value(whole + fraction), (if x.Some? then x.value.Power() else 0) - |fraction|))
  {
    hide Mantissa, PriceParser.Unsigned, DecimalOf, Value, IsSpace;
    DigitsJoin(whole, fraction);
    var m := whole + (if point then "." + fraction else "");
    if point {
      assert m == whole + "." + fraction;
      PointRead(whole, fraction);
    } else {
      assert m == whole == whole + fraction;
      NoPointRead(whole);
    }
    MantissaShape(whole, point, fraction);
    var body := m + if x.Some? then x.value.Text() else "";
    if x.Some? {
      ExponentReads(m, Number(false, Value(whole + fraction), -|fraction|), x.value);
    } else {
      assert body == m;
      NoExponentReads(m);
    }
    BodyShape(m, x);
    SignedReads(sign, body);
  }

  lemma MantissaShape(whole: string, point: bool, fraction: string)
    requires AllDigits(whole) && AllDigits(fraction) && whole + fraction != "" && (!point ==> fraction == "")
    ensures IsMantissa(whole + (if point then "." + fraction else ""))
  {}

  lemma BodyShape(m: string, x: Option<Exponent>)
    requires IsMantissa(m) && (x.Some? ==> x.value.Valid())
    ensures var body := m + if x.Some? then x.value.Text() else "";
            && body != "" && body[0] != '+' && body[0] != '-' && !IsSpace(body[0]) && !IsSpace(body[|body| - 1])
            && '_' !in body
  {
    NoMark(m, '_');
    if x.Some? {
      DigitsOnly(x.value.digits, '_');
      var t := x.value.Text();
      assert t[|t| - 1] == x.value.digits[|x.value.digits| - 1];
      assert '_' !in t;
    }
  }

  // ---------------------------------------------------------------------------
  // Rounding
  // ---------------------------------------------------------------------------

  /** Ten-thousandths of the number that is read: exact while there are at most four decimals, and else the nearest,
      an even one when two are equally near. */
  lemma QuantizeIsNearest(n: Number)
    ensures Quantize(n.(negative := true)) == -Quantize(n.(negative := false)) <= 0
    ensures n.exponent >= -4 ==> Quantize(n.(negative := false)) == n.coefficient * Power10(n.exponent + 4)
    ensures n.exponent < -4 ==>
              var d, u := Power10(-4 - n.exponent), Quantize(n.(negative := false));
              && 2 * (u * d) - d <= 2 * n.coefficient <= 2 * (u * d) + d
              && (2 * n.coefficient == 2 * (u * d) - d || 2 * n.coefficient == 2 * (u * d) + d ==> u % 2 == 0)
  {
    if n.exponent < -4 {
      Nearest(n.coefficient, Power10(-4 - n.exponent));
    } else {
      assert n.coefficient * Power10(n.exponent + 4) >= 0;
    }
  }

  lemma Nearest(c: nat, d: nat)
    requires d > 0
    ensures var u := HalfEven(c, d);
            && 2 * (u * d) - d <= 2 * c <= 2 * (u * d) + d
            && (2 * c == 2 * (u * d) - d || 2 * c == 2 * (u * d) + d ==> u % 2 == 0)
  {
    var q, r := c / d, c % d;
    assert c == q * d + r;
    assert (q + 1) * d == q * d + d;
  }

  // ---------------------------------------------------------------------------
  // Limits
  // ---------------------------------------------------------------------------

  /** Units printed with all four decimals. */
  function PrintUnits(n: nat): string { Digits(n / 10_000) + "." + Padded(n % 10_000, 4) }

  lemma UnitsRead(n: nat)
    ensures IsPrinted(PrintUnits(n)) && DecimalOf(PrintUnits(n)) == Some(Number(false, n, -4))
  {
    hide DecimalOf, Digits, Padded, Value;
    var whole, fraction := Digits(n / 10_000), Padded(n % 10_000, 4);
    DigitsRead(n / 10_000);
    TenThousand();
    PaddedRead(whole, n % 10_000, 4);
    PaddedRead("", n % 10_000, 4);
    NumeralReads(Unsigned, whole, true, fraction, None);
    assert "" + (whole + ("." + fraction) + "") == PrintUnits(n);
  }

  lemma TenThousand()
    ensures Power10(4) == 10_000 && Power10(0) == 1
  {
    assert Power10(1) == 10 && Power10(2) == 100 && Power10(3) == 1000;
  }

  lemma PrintedPlainly(s: string)
    requires IsPrinted(s) && ',' !in s
    ensures Amount(s) == match DecimalOf(s) case None => None case Some(n) => InRange(n)
  {
    hide DecimalOf, InRange;
    WithoutAbsent(s, NBSP);
    WithoutAbsent(s, ' ');
    NoComma(s);
  }

  lemma UnitsInRange(n: nat)
    ensures InRange(Number(false, n, -4)) == if 1 <= n <= 999_990_000 then Some(n) else None
  {
    TenThousand();
    assert n * 1 == n;
  }

  lemma UnitsAmount(n: nat)
    ensures IsPrinted(PrintUnits(n)) && Amount(PrintUnits(n)) == if 1 <= n <= 999_990_000 then Some(n) else None
  {
    hide DecimalOf, InRange, Digits, Padded, Amount;
    UnitsRead(n);
    UnitsInRange(n);
    DigitsRead(n / 10_000);
    TenThousand();
    PaddedRead("", n % 10_000, 4);
    DigitsOnly(Digits(n / 10_000), ',');
    DigitsOnly(Padded(n % 10_000, 4), ',');
    PrintedPlainly(PrintUnits(n));
  }

  /** Every number of units from 0.0001 to 99,999.0000 is accepted, exactly, and nothing else: not zero and nothing
      larger. */
  lemma LimitsAreExact(n: nat, p: Placement, i: nat, codes: seq<string>)
    requires i < |SYMBOLS|
    ensures Parsed(p.Place(SYMBOLS[i].0, PrintUnits(n)), codes)
            == if 1 <= n <= 999_990_000 then Some(Quote(n, SYMBOLS[i].1)) else None
  {
    UnitsAmount(n);
    SymbolFound(i, p, PrintUnits(n), codes);
    hide *;
    ParsedOrNot(p.Place(SYMBOLS[i].0, PrintUnits(n)), codes, SYMBOLS[i].1, PrintUnits(n));
  }

  lemma ParsedOrNot(text: string, codes: seq<string>, code: string, rest: string)
    requires Marker(Strip(text), codes) == Some((code, rest))
    ensures Parsed(text, codes) == match Amount(rest) case None => None case Some(units) => Some(Quote(units, code))
  {}

  /** A negative amount, and one that is no numeral, are refused. */
  lemma NegativeRefused(whole: string, point: bool, fraction: string)
    requires AllDigits(whole) && AllDigits(fraction) && whole != "" && (!point ==> fraction == "")
    ensures var body := "-" + (whole + if point then "." + fraction else "");
            ',' !in body && ' ' !in body && NBSP !in body ==> Amount(body) == None
  {
    hide DecimalOf, InRange, Value, Amount;
    NumeralReads(Minus, whole, point, fraction, None);
    var m := whole + if point then "." + fraction else "";
    assert m + "" == m;
    var body := "-" + m;
    NegativeInRange(Number(true, Value(whole + fraction), -|fraction|));
    if ',' !in body && ' ' !in body && NBSP !in body { AmountOf(body); }
  }

  lemma NegativeInRange(n: Number)
    requires n.negative
    ensures InRange(n) == None
  {
    QuantizeIsNearest(n);
  }

  lemma AmountOf(s: string)
    requires s != "" && ',' !in s && ' ' !in s && NBSP !in s
    ensures Amount(s) == match DecimalOf(s) case None => None case Some(n) => InRange(n)
  {
    hide DecimalOf, InRange;
    WithoutAbsent(s, NBSP);
    WithoutAbsent(s, ' ');
    NoComma(s);
  }

  // ---------------------------------------------------------------------------
  // Blanks and letter case
  // ---------------------------------------------------------------------------

  /** Thousands may be grouped by blanks or no-break spaces. */
  lemma BlankGroups(n: nat, blank: char)
    requires 1000 <= n <= 99_999 && (blank == ' ' || blank == '\U{00A0}')
    ensures Amount(Grouped(n, blank)) == Some(10_000 * n)
  {
    hide Amount, Grouped, Digits, Padded, Without;
    GroupedReads(n, blank);
    OtherBlank(n, blank);
    DigitsRead(n);
    DigitsOnly(Digits(n), ' ');
    DigitsOnly(Digits(n), NBSP);
    WithoutAbsent(Digits(n), ' ');
    WholeAmountReads(n, false);
    SameAmount(Grouped(n, blank), Digits(n));
  }

  lemma OtherBlank(n: nat, blank: char)
    requires blank == ' ' || blank == NBSP
    ensures blank == ' ' ==> Without(Grouped(n, blank), NBSP) == Grouped(n, blank)
  {
    GroupedReads(n, blank);
    if blank == ' ' { WithoutAbsent(Grouped(n, blank), NBSP); }
  }

  lemma SameAmount(s: string, digits: string)
    requires Without(Without(s, NBSP), ' ') == digits && NBSP !in digits && ' ' !in digits
    ensures Amount(s) == Amount(digits)
  {
    hide DecimalOf, InRange, Normalised;
    WithoutAbsent(digits, NBSP);
    WithoutAbsent(digits, ' ');
  }

  lemma UpperTwice(s: string)
    ensures Upper(Upper(s)) == Upper(s)
  {}

  /** Markers are found whatever the case of their letters. */
  lemma {:induction false} CaseDoesNotMatter(text: string, other: string, table: seq<(string, string)>)
    requires Upper(text) == Upper(other)
    ensures Marked(text, table).Some? <==> Marked(other, table).Some?
    ensures Marked(text, table).Some? ==> Marked(text, table).value.0 == Marked(other, table).value.0
  {
    if table != [] { CaseDoesNotMatter(text, other, table[1..]); }
  }
}
