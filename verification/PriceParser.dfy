/** Price cells of a sales history: currency marker, separators, amount. */
module PriceParser {
  import opened Text
  import opened Wrappers

  /** A price in ten-thousandths of the currency unit. */
  datatype Quote = Quote(units: int, currency: string)

  const NBSP := '\U{00A0}'
  const MAX_UNITS := 99_999 * 10_000

  /** `_CURRENCY_SYMBOLS`, in the order in which they are tried. */
  const SYMBOLS: seq<(string, string)> := [
    ("AU$", "AUD"), ("NZ$", "NZD"), ("CA$", "CAD"), ("C$", "CAD"), ("A$", "AUD"),
    ("\U{20AC}", "EUR"), ("\U{00A3}", "GBP"), ("\U{00A5}", "JPY"), ("$", "USD")]

  const ISO_CODES: set<string> := {
    "EUR", "USD", "GBP", "JPY", "AUD", "CAD", "CHF", "SEK", "NOK", "DKK", "NZD", "HUF", "CZK", "PLN", "BRL"}

  // ---------------------------------------------------------------------------
  // Decimal(...).quantize(Decimal("0.0001"))
  // ---------------------------------------------------------------------------

  /** (-1)^negative * coefficient * 10^exponent. */
  datatype Number = Number(negative: bool, coefficient: nat, exponent: int)

  function Power10(k: nat): (p: nat)
    ensures p > 0
  {
    if k == 0 then 1 else 10 * Power10(k - 1)
  }

  function SplitSign(s: string): (bool, string) {
    if s != "" && s[0] in "+-" then (s[0] == '-', s[1..]) else (false, s)
  }

  /** Digits around an optional point. */
  function Mantissa(s: string): Option<Number> {
    var dot := Find(s, '.');
    var digits := s[..dot] + Fraction(s, dot);
    if AllDigits(digits) && digits != "" then Some(Number(false, Value(digits), -|Fraction(s, dot)|)) else None
  }

  function Fraction(s: string, dot: nat): string
    requires dot <= |s|
  {
    if dot < |s| then s[dot + 1..] else ""
  }

  /** Position of the exponent mark, or the length. */
  function ExponentMark(s: string): (e: nat)
    ensures e <= |s|
  {
    if 'e' in s then Find(s, 'e') else Find(s, 'E')
  }

  function Unsigned(s: string): Option<Number> {
    var e := ExponentMark(s);
    match Mantissa(s[..e])
    case None => None
    case Some(n) =>
      if e == |s| then Some(n)
      else
        var (negative, digits) := SplitSign(s[e + 1..]);
        if !AllDigits(digits) || digits == "" then None
        else
          var size: int := Value(digits);
          Some(Number(false, n.coefficient, (if negative then -size else size) + n.exponent))
  }

  function DecimalOf(s: string): Option<Number> {
    var (negative, rest) := SplitSign(Without(Strip(s), '_'));
    match Unsigned(rest)
    case None => None
    case Some(n) => Some(Number(negative, n.coefficient, n.exponent))
  }

  /** Nearest integer to n / d, ties to even. */
  function HalfEven(n: nat, d: nat): nat
    requires d > 0
  {
    var q, r := n / d, n % d;
    if 2 * r > d || (2 * r == d && q % 2 == 1) then q + 1 else q
  }

  function Quantize(n: Number): int {
    var units := if n.exponent + 4 >= 0 then n.coefficient * Power10(n.exponent + 4)
                 else HalfEven(n.coefficient, Power10(-(n.exponent + 4)));
    if n.negative then -units else units
  }

  // ---------------------------------------------------------------------------
  // The parser
  // ---------------------------------------------------------------------------

  predicate Begins(text: string, mark: string) { Upper(mark) <= Upper(text) }

  predicate Ends(text: string, mark: string) { EndsWith(Upper(text), Upper(mark)) }

  /** The text without the marker, which is looked for at the front first. */
  function Rest(text: string, mark: string): string
    requires Begins(text, mark) || Ends(text, mark)
  {
    Strip(if Begins(text, mark) then text[|mark|..] else text[..|text| - |mark|])
  }

  /** The first entry whose marker begins or ends the text: its currency and the remainder. */
  function Marked(text: string, table: seq<(string, string)>): Option<(string, string)> {
    if table == [] then None
    else
      var (mark, code) := table[0];
      if Begins(text, mark) || Ends(text, mark) then Some((code, Rest(text, mark))) else Marked(text, table[1..])
  }

  function CodeTable(codes: seq<string>): (table: seq<(string, string)>)
    ensures |table| == |codes| && forall i :: 0 <= i < |codes| ==> table[i] == (codes[i], codes[i])
  {
    seq(|codes|, i requires 0 <= i < |codes| => (codes[i], codes[i]))
  }

  /** Decimal separator normalisation. */
  function Normalised(s: string): string {
    if ',' in s && '.' in s then
      if RFind(s, '.') > RFind(s, ',') then Without(s, ',') else Replaced(Without(s, '.'), ',', '.')
    else if ',' in s then
      var after := s[RFind(s, ',') + 1..];
      if |after| == 2 && AllDigits(after) then Replaced(s, ',', '.') else Without(s, ',')
    else s
  }

  function Amount(rest: string): Option<int> {
    var s := Without(Without(rest, NBSP), ' ');
    if s == "" then None
    else
      match DecimalOf(Normalised(s))
      case None => None
      case Some(n) => InRange(n)
  }

  /** The price in ten-thousandths when it is positive and at most 99,999. */
  function InRange(n: Number): Option<int> {
    var units := Quantize(n);
    if units <= 0 || units > MAX_UNITS then None else Some(units)
  }

  function Marker(text: string, codes: seq<string>): Option<(string, string)> {
    match Marked(text, SYMBOLS)
    case Some(m) => Some(m)
    case None => Marked(text, CodeTable(codes))
  }

  /** `codes` is the order in which the set of ISO codes happens to be enumerated. */
  function Parsed(text: string, codes: seq<string>): Option<Quote> {
    match Marker(Strip(text), codes)
    case None => None
    case Some((code, rest)) =>
      match Amount(rest)
      case None => None
      case Some(units) => Some(Quote(units, code))
  }

  /** One pass over a marker table; the pair is the currency and the numeric part. */
  method FindMarker(text: string, table: seq<(string, string)>) returns (found: Option<(string, string)>)
    ensures found == Marked(text, table)
  {
    for i := 0 to |table|
      invariant Marked(text, table) == Marked(text, table[i..])
    {
      var (mark, code) := table[i];
      assert table[i..][1..] == table[i + 1..];
      if Begins(text, mark) { return Some((code, Strip(text[|mark|..]))); }
      if Ends(text, mark) { return Some((code, Strip(text[..|text| - |mark|]))); }
    }
    return None;
  }

  /** `_parse_price_and_currency`. */
  method ParsePriceAndCurrency(cell: string, codes: seq<string>) returns (quote: Option<Quote>)
    ensures quote == Parsed(cell, codes)
  {
    var text := Strip(cell);
    var found := FindMarker(text, SYMBOLS);
    if found.None? { found := FindMarker(text, CodeTable(codes)); }
    if found.None? { return None; }
    var (currency, numericPart) := found.value;
    numericPart := Without(Without(numericPart, NBSP), ' ');
    if numericPart == "" { return None; }
    var number := DecimalOf(Normalised(numericPart));
    if number.None? { return None; }
    var price := Quantize(number.value);
    if price <= 0 || price > MAX_UNITS { return None; }
    return Some(Quote(price, currency));
  }

  // ---------------------------------------------------------------------------
  // Printing
  // ---------------------------------------------------------------------------

  function Digit(d: nat): char
    requires d < 10
  {
    (('0' as int) + d) as char
  }

  function Digits(n: nat): string {
    (if n < 10 then "" else Digits(n / 10)) + [Digit(n % 10)]
  }

  /** The last k digits, with leading zeros. */
  function Padded(n: nat, k: nat): string {
    if k == 0 then "" else Padded(n / 10, k - 1) + [Digit(n % 10)]
  }

  /** Digits in groups of three. */
  function Grouped(n: nat, separator: char): string {
    if n < 1000 then Digits(n) else Grouped(n / 1000, separator) + [separator] + Padded(n % 1000, 3)
  }

  datatype Style = Us | UsPlain | European | EuropeanPlain {
    function DecimalMark(): char { if Us? || UsPlain? then '.' else ',' }

    function GroupMark(): char { if Us? || UsPlain? then ',' else '.' }

    function Whole(n: nat): string { if Us? || European? then Grouped(n, GroupMark()) else Digits(n) }

    /** 123456 cents: 1,234.56 or 1234.56 or 1.234,56 or 1234,56. */
    function Print(cents: nat): string { Whole(cents / 100) + [DecimalMark()] + Padded(cents % 100, 2) }
  }

  datatype Placement = Before | BeforeSpaced | After | AfterSpaced {
    function Place(mark: string, amount: string): string {
      match this
      case Before => mark + amount
      case BeforeSpaced => mark + " " + amount
      case After => amount + mark
      case AfterSpaced => amount + " " + mark
    }
  }

  // ---------------------------------------------------------------------------
  // Amounts read back
  // ---------------------------------------------------------------------------

  lemma {:induction false} DigitsRead(n: nat)
    ensures AllDigits(Digits(n)) && Digits(n) != "" && Value(Digits(n)) == n
  {
    if n >= 10 { DigitsRead(n / 10); }
    assert n >= 10 ==> Digits(n)[..|Digits(n)| - 1] == Digits(n / 10);
  }

  lemma ValueStep(s: string, d: nat)
    requires AllDigits(s) && d < 10
    ensures AllDigits(s + [Digit(d)]) && Value(s + [Digit(d)]) == 10 * Value(s) + d
  {
    assert (s + [Digit(d)])[..|s|] == s;
  }

  lemma ShiftIn(v: nat, p: nat, n: nat)
    ensures 10 * (v * p + n / 10) + n % 10 == v * (10 * p) + n
    ensures n < 10 * p ==> n / 10 < p
  {
    assert v * (10 * p) == 10 * (v * p);
  }

  lemma {:induction false} PaddedRead(s: string, n: nat, k: nat)
    requires AllDigits(s) && n < Power10(k)
    ensures |Padded(n, k)| == k && AllDigits(Padded(n, k))
    ensures Value(s + Padded(n, k)) == Value(s) * Power10(k) + n
  {
    if k == 0 {
      assert s + "" == s;
    } else {
      ShiftIn(Value(s), Power10(k - 1), n);
      PaddedRead(s, n / 10, k - 1);
      PaddedStep(s, n, k);
    }
  }

  lemma PaddedStep(s: string, n: nat, k: nat)
    requires k > 0 && AllDigits(s) && AllDigits(Padded(n / 10, k - 1))
    ensures AllDigits(Padded(n, k)) && |Padded(n, k)| == |Padded(n / 10, k - 1)| + 1
    ensures Value(s + Padded(n, k)) == 10 * Value(s + Padded(n / 10, k - 1)) + n % 10
  {
    ValueStep(s + Padded(n / 10, k - 1), n % 10);
    assert s + Padded(n, k) == s + Padded(n / 10, k - 1) + [Digit(n % 10)];
  }

  lemma TwoDigits(s: string, n: nat)
    requires AllDigits(s) && n < 100
    ensures |Padded(n, 2)| == 2 && AllDigits(Padded(n, 2)) && Value(s + Padded(n, 2)) == 100 * Value(s) + n
  {
    assert Power10(2) == 100;
    PaddedRead(s, n, 2);
  }

  lemma {:induction false} WithoutConcat(s: string, t: string, c: char)
    ensures Without(s + t, c) == Without(s, c) + Without(t, c)
  {
    if s == "" {
      assert s + t == t;
    } else {
      assert (s + t)[1..] == s[1..] + t;
      WithoutConcat(s[1..], t, c);
    }
  }

  lemma {:induction false} WithoutAbsent(s: string, c: char)
    requires c !in s
    ensures Without(s, c) == s
  {
    if s != "" {
      WithoutAbsent(s[1..], c);
      assert s == [s[0]] + s[1..];
    }
  }

  lemma DigitsStep(n: nat)
    requires n >= 10
    ensures Digits(n) == Digits(n / 10) + [Digit(n % 10)]
  {}

  lemma PaddedThree(m: nat)
    ensures Padded(m, 3) == [Digit(m / 10 / 10 % 10)] + [Digit(m / 10 % 10)] + [Digit(m % 10)]
  {
    assert Padded(m, 3) == Padded(m / 10, 2) + [Digit(m % 10)];
    assert Padded(m / 10, 2) == Padded(m / 10 / 10, 1) + [Digit(m / 10 % 10)];
    assert Padded(m / 10 / 10, 1) == [Digit(m / 10 / 10 % 10)];
  }

  lemma LastThree(n: nat)
    ensures var m := n % 1000;
            && n / 10 / 10 / 10 == n / 1000 && m % 10 == n % 10
            && m / 10 % 10 == n / 10 % 10 && m / 10 / 10 % 10 == n / 10 / 10 % 10
  {}

  lemma DigitsSplit(n: nat)
    requires n >= 1000
    ensures Digits(n) == Digits(n / 1000) + Padded(n % 1000, 3)
  {
    hide *;
    LastThree(n);
    PaddedThree(n % 1000);
    DigitsStep(n);
    DigitsStep(n / 10);
    DigitsStep(n / 10 / 10);
  }

  predicate IsGrouping(s: string, separator: char) {
    s != "" && IsDigit(s[0]) && forall i :: 0 <= i < |s| ==> IsDigit(s[i]) || s[i] == separator
  }

  lemma Basics(c: char)
    ensures !IsDigit('e') && !IsDigit('E') && !IsDigit('.') && !IsDigit(',') && AllDigits("")
    ensures Power10(3) == 1000 && Without([c], c) == ""
  {}

  lemma {:induction false} GroupedReads(n: nat, separator: char)
    requires !IsDigit(separator)
    ensures IsGrouping(Grouped(n, separator), separator)
    ensures Without(Grouped(n, separator), separator) == Digits(n)
  {
    hide *;
    Basics(separator);
    GroupedIs(n, separator);
    if n < 1000 {
      DigitsRead(n);
      DigitsOnly(Digits(n), separator);
      WithoutAbsent(Digits(n), separator);
      DigitsGroup("", separator, Digits(n));
    } else {
      var front, tail := Grouped(n / 1000, separator), Padded(n % 1000, 3);
      GroupedReads(n / 1000, separator);
      DigitsSplit(n);
      PaddedRead("", n % 1000, 3);
      DigitsOnly(tail, separator);
      WithoutAbsent(tail, separator);
      WithoutConcat(front + [separator], tail, separator);
      WithoutConcat(front, [separator], separator);
      DigitsGroup(front, separator, tail);
    }
  }

  lemma GroupedIs(n: nat, separator: char)
    ensures Grouped(n, separator) ==
            if n < 1000 then Digits(n) else Grouped(n / 1000, separator) + [separator] + Padded(n % 1000, 3)
  {}

  lemma DigitsGroup(front: string, separator: char, tail: string)
    requires AllDigits(tail)
    ensures tail != "" ==> IsGrouping(tail, separator)
    ensures IsGrouping(front, separator) ==> IsGrouping(front + [separator] + tail, separator)
  {}

  lemma WholeReads(style: Style, n: nat)
    ensures IsGrouping(style.Whole(n), style.GroupMark())
    ensures Without(style.Whole(n), style.GroupMark()) == Digits(n)
  {
    GroupedReads(n, style.GroupMark());
    DigitsRead(n);
    WithoutAbsent(Digits(n), style.GroupMark());
  }

  lemma Around<T>(p: seq<T>, x: T, q: seq<T>)
    ensures var s := p + [x] + q;
            && |s| == |p| + 1 + |q| && s[..|p|] == p && s[|p|] == x && s[|p| + 1..] == q
            && (forall i :: 0 <= i < |p| ==> s[i] in p) && forall i :: |p| < i < |s| ==> s[i] in q
  {
    var s := p + [x] + q;
    assert forall i :: 0 <= i < |p| ==> s[i] == p[i];
    assert forall i :: |p| < i < |s| ==> s[i] == q[i - |p| - 1];
  }

  lemma RFindIs(s: string, c: char, k: nat)
    requires k < |s| && forall i :: k < i < |s| ==> s[i] != c
    ensures RFind(s, c) <= k && (s[k] == c ==> RFind(s, c) == k)
  {
    hide *;
  }

  lemma FindIs(s: string, c: char, k: nat)
    requires k <= |s| && (k < |s| ==> s[k] == c) && forall i :: 0 <= i < k ==> s[i] != c
    ensures Find(s, c) == k
  {
    hide *;
  }

  lemma WithoutGroups(whole: string, mark: char, cents: string, group: char)
    requires group != mark && group !in cents
    ensures Without(whole + [mark] + cents, group) == Without(whole, group) + [mark] + cents
    ensures group in whole + [mark] + cents <==> group in whole
  {
    WithoutConcat(whole + [mark], cents, group);
    WithoutConcat(whole, [mark], group);
    WithoutAbsent(cents, group);
    WithoutAbsent([mark], group);
  }

  lemma CommaToPoint(whole: string, cents: string)
    requires AllDigits(whole) && AllDigits(cents)
    ensures Replaced(whole + "," + cents, ',', '.') == whole + "." + cents
  {}

  /** Either separator convention is brought to the same plain decimal. */
  lemma NormalisedPlain(style: Style, whole: string, cents: string)
    requires AllDigits(Without(whole, style.GroupMark())) && |cents| == 2 && AllDigits(cents)
    ensures Normalised(whole + [style.DecimalMark()] + cents) == Without(whole, style.GroupMark()) + "." + cents
  {
    hide *;
    var group, mark := style.GroupMark(), style.DecimalMark();
    var s := whole + [mark] + cents;
    MarksDiffer(style);
    DigitsOnly(cents, mark);
    DigitsOnly(cents, group);
    Around(whole, mark, cents);
    RFindIs(s, mark, |whole|);
    WithoutGroups(whole, mark, cents, group);
    CommaToPoint(Without(whole, group), cents);
    if group !in whole { WithoutAbsent(whole, group); }
    RFindIs(s, group, |whole|);
    assert mark in s;
    NormalisedCases(s, |whole|, mark, group, cents);
  }

  lemma MarksDiffer(style: Style)
    ensures var group, mark := style.GroupMark(), style.DecimalMark();
            ((mark == '.' && group == ',') || (mark == ',' && group == '.')) && !IsDigit(mark) && !IsDigit(group)
  {}

  lemma NormalisedCases(s: string, at: nat, mark: char, group: char, cents: string)
    requires (mark == '.' && group == ',') || (mark == ',' && group == '.')
    requires mark in s && RFind(s, mark) == at && RFind(s, group) <= at && s[at + 1..] == cents
    requires |cents| == 2 && AllDigits(cents)
    ensures Normalised(s) ==
            var t := if group in s then Without(s, group) else s;
            if mark == ',' then Replaced(t, ',', '.') else t
  {}

  lemma DigitsOnly(s: string, c: char)
    requires AllDigits(s) && !IsDigit(c)
    ensures c !in s
  {}

  lemma UnsignedReads(whole: string, fraction: string)
    requires AllDigits(whole) && AllDigits(fraction) && whole != ""
    ensures Unsigned(whole + "." + fraction) == Some(Number(false, Value(whole + fraction), -|fraction|))
  {
    hide *;
    var s := whole + "." + fraction;
    Basics('e');
    DigitsOnly(whole, 'e');
    DigitsOnly(fraction, 'e');
    DigitsOnly(whole, 'E');
    DigitsOnly(fraction, 'E');
    DigitsOnly(whole, '.');
    Around(whole, '.', fraction);
    FindIs(s, 'E', |s|);
    FindIs(s, '.', |whole|);
    DigitsJoin(whole, fraction);
    MantissaParts(s, whole, fraction);
    NoExponent(s);
  }

  lemma DigitsJoin(a: string, b: string)
    requires AllDigits(a) && AllDigits(b)
    ensures AllDigits(a + b)
  {}

  lemma MantissaParts(s: string, whole: string, fraction: string)
    requires Find(s, '.') == |whole| < |s|
    requires s[..|whole|] == whole && s[|whole| + 1..] == fraction && AllDigits(whole + fraction) && whole != ""
    ensures Mantissa(s) == Some(Number(false, Value(whole + fraction), -|fraction|))
  {
    hide Find, Value, AllDigits;
  }

  lemma NoExponent(s: string)
    requires 'e' !in s && Find(s, 'E') == |s|
    ensures Unsigned(s) == Mantissa(s)
  {
    hide Find, Value, AllDigits, SplitSign, Mantissa;
    assert s[..|s|] == s;
  }

  /** No blanks, no sign, no digit separators: only the number is left to read. */
  lemma Bare(s: string)
    requires s != "" && IsDigit(s[0]) && IsDigit(s[|s| - 1]) && '_' !in s
    ensures SplitSign(Without(Strip(s), '_')) == (false, s)
  {
    assert StripLeft(s) == s && StripRight(s) == s;
    WithoutAbsent(s, '_');
  }

  lemma DecimalReads(n: nat, cents: nat)
    requires cents < 100
    ensures DecimalOf(Digits(n) + "." + Padded(cents, 2)) == Some(Number(false, 100 * n + cents, -2))
  {
    hide Unsigned, Digits, Padded, Without, Strip, SplitSign, Value;
    DigitsRead(n);
    TwoDigits(Digits(n), cents);
    UnsignedReads(Digits(n), Padded(cents, 2));
    Bare(Digits(n) + "." + Padded(cents, 2));
  }

  predicate IsPrinted(s: string) {
    s != "" && IsDigit(s[0]) && IsDigit(s[|s| - 1]) && forall i :: 0 <= i < |s| ==> IsDigit(s[i]) || s[i] in ".,"
  }

  lemma PrintedShape(style: Style, cents: nat)
    ensures IsPrinted(style.Print(cents))
  {
    WholeReads(style, cents / 100);
    TwoDigits("", cents % 100);
  }

  lemma AmountReads(style: Style, cents: nat)
    requires 1 <= cents <= 9_999_900
    ensures Amount(style.Print(cents)) == Some(100 * cents)
  {
    hide *;
    var n, c := cents / 100, cents % 100;
    PrintIs(style, cents);
    WholeReads(style, n);
    DigitsRead(n);
    Basics('.');
    TwoDigits("", c);
    NormalisedPlain(style, style.Whole(n), Padded(c, 2));
    DecimalReads(n, c);
    PrintedShape(style, cents);
    PlainAmount(style.Print(cents), Number(false, cents, -2));
    CentsInRange(cents);
  }

  lemma PrintIs(style: Style, cents: nat)
    ensures style.Print(cents) == style.Whole(cents / 100) + [style.DecimalMark()] + Padded(cents % 100, 2)
  {}

  lemma PlainAmount(s: string, n: Number)
    requires IsPrinted(s)
    ensures DecimalOf(Normalised(s)) == Some(n) ==> Amount(s) == InRange(n)
  {
    hide DecimalOf, Normalised, InRange;
    WithoutAbsent(s, NBSP);
    WithoutAbsent(s, ' ');
  }

  lemma CentsInRange(cents: nat)
    requires 1 <= cents <= 9_999_900
    ensures InRange(Number(false, cents, -2)) == Some(100 * cents)
  {
    assert Power10(2) == 100;
  }

  // ---------------------------------------------------------------------------
  // Amounts without decimals
  // ---------------------------------------------------------------------------

  /** 12000 or 12,000. */
  function PrintWhole(n: nat, grouped: bool): string { if grouped then Grouped(n, ',') else Digits(n) }

  lemma OneGroup(n: nat, separator: char)
    requires 1000 <= n < 1_000_000 && !IsDigit(separator)
    ensures Grouped(n, separator) == Digits(n / 1000) + [separator] + Padded(n % 1000, 3)
    ensures AllDigits(Digits(n / 1000)) && AllDigits(Padded(n % 1000, 3)) && |Padded(n % 1000, 3)| == 3
    ensures Digits(n / 1000) != "" && Digits(n) == Digits(n / 1000) + Padded(n % 1000, 3)
  {
    hide *;
    Basics(separator);
    GroupedIs(n, separator);
    GroupedIs(n / 1000, separator);
    DigitsRead(n / 1000);
    PaddedRead("", n % 1000, 3);
    DigitsSplit(n);
  }

  lemma LoneComma(front: string, after: string)
    requires AllDigits(front) && AllDigits(after) && |after| == 3
    ensures Normalised(front + "," + after) == front + after
  {
    hide IsDigit, Without, Replaced, RFind, Find;
    var s := front + "," + after;
    Basics(',');
    DigitsOnly(front, ',');
    DigitsOnly(after, ',');
    DigitsOnly(front, '.');
    DigitsOnly(after, '.');
    Around(front, ',', after);
    RFindIs(s, ',', |front|);
    assert ',' in s && '.' !in s;
    WithoutConcat(front + ",", after, ',');
    WithoutConcat(front, ",", ',');
    WithoutAbsent(front, ',');
    WithoutAbsent(after, ',');
  }

  lemma NoSeparator(s: string)
    requires AllDigits(s)
    ensures Normalised(s) == s
  {
    DigitsOnly(s, ',');
    DigitsOnly(s, '.');
  }

  lemma WholeNormalised(n: nat, grouped: bool)
    requires n < 1_000_000
    ensures Normalised(PrintWhole(n, grouped)) == Digits(n) && IsPrinted(PrintWhole(n, grouped))
  {
    hide Normalised, Digits, Padded;
    DigitsRead(n);
    if grouped && n >= 1000 {
      OneGroup(n, ',');
      LoneComma(Digits(n / 1000), Padded(n % 1000, 3));
    } else {
      NoSeparator(Digits(n));
    }
  }

  lemma UnsignedWhole(whole: string)
    requires AllDigits(whole) && whole != ""
    ensures Unsigned(whole) == Some(Number(false, Value(whole), 0))
  {
    hide IsDigit, Value, AllDigits, Find;
    Basics('e');
    DigitsOnly(whole, 'e');
    DigitsOnly(whole, 'E');
    DigitsOnly(whole, '.');
    FindIs(whole, 'E', |whole|);
    FindIs(whole, '.', |whole|);
    NoExponent(whole);
    assert whole[..|whole|] + "" == whole;
  }

  lemma WholeDecimal(n: nat)
    ensures DecimalOf(Digits(n)) == Some(Number(false, n, 0))
  {
    hide Unsigned, Digits, Without, Strip, SplitSign, Value;
    DigitsRead(n);
    UnsignedWhole(Digits(n));
    DigitsOnly(Digits(n), '_');
    Bare(Digits(n));
  }

  lemma WholeInRange(n: nat)
    requires 1 <= n <= 99_999
    ensures InRange(Number(false, n, 0)) == Some(10_000 * n)
  {
    assert Power10(4) == 10 * (10 * (10 * (10 * Power10(0))));
  }

  lemma WholeAmountReads(n: nat, grouped: bool)
    requires 1 <= n <= 99_999
    ensures Amount(PrintWhole(n, grouped)) == Some(10_000 * n) && IsPrinted(PrintWhole(n, grouped))
  {
    hide *;
    WholeNormalised(n, grouped);
    WholeDecimal(n);
    PlainAmount(PrintWhole(n, grouped), Number(false, n, 0));
    WholeInRange(n);
  }

  lemma ThousandthsRead(whole: string, fraction: string, n: nat)
    requires AllDigits(whole) && whole != "" && AllDigits(fraction) && |fraction| == 3
    requires Value(whole + fraction) == n
    ensures DecimalOf(whole + "." + fraction) == Some(Number(false, n, -3))
  {
    hide Unsigned, Without, Strip, SplitSign, Value;
    UnsignedReads(whole, fraction);
    Bare(whole + "." + fraction);
  }

  lemma LonePoint(n: nat)
    requires 1000 <= n <= 99_999
    ensures Amount(Grouped(n, '.')) == Some(10 * n) && IsPrinted(Grouped(n, '.'))
  {
    hide Amount, Normalised, Digits, Padded, DecimalOf, InRange, Grouped, Value;
    var front, after := Digits(n / 1000), Padded(n % 1000, 3);
    OneGroup(n, '.');
    var s := front + "." + after;
    DigitsOnly(front, ',');
    DigitsOnly(after, ',');
    DigitsRead(n);
    ThousandthsRead(front, after, n);
    NoComma(s);
    PlainAmount(s, Number(false, n, -3));
    ThousandthsInRange(n);
  }

  lemma NoComma(s: string)
    requires ',' !in s
    ensures Normalised(s) == s
  {}

  lemma ThousandthsInRange(n: nat)
    requires 1 <= n <= 99_999
    ensures InRange(Number(false, n, -3)) == Some(10 * n)
  {
    assert Power10(1) == 10 * Power10(0);
  }

  // ---------------------------------------------------------------------------
  // Markers recognised
  // ---------------------------------------------------------------------------

  lemma StripDigits(s: string)
    requires s != "" && IsDigit(s[0]) && IsDigit(s[|s| - 1])
    ensures Strip(s) == s && Strip(" " + s) == s && Strip(s + " ") == s
  {
    assert StripLeft(s) == s && StripRight(s) == s;
    assert (" " + s)[1..] == s && (s + " ")[..|s|] == s;
    assert StripLeft(" " + s) == StripLeft(s);
    assert StripLeft(s + " ") == s + " " && StripRight(s + " ") == StripRight(s);
  }

  predicate IsCapital(c: char) { 'A' <= c <= 'Z' }

  predicate IsSign(c: char) { c in "$\U{20AC}\U{00A3}\U{00A5}" }

  /** Capitals, ended by a currency sign or not. */
  predicate IsMark(s: string) {
    s != "" && forall i :: 0 <= i < |s| ==> IsCapital(s[i]) || (i == |s| - 1 && IsSign(s[i]))
  }

  lemma UpperPlaced(p: Placement, mark: string, amount: string)
    requires IsMark(mark) && IsPrinted(amount)
    ensures var text := p.Place(mark, amount); Upper(text) == text && Upper(mark) == mark
  {}

  /** A marker in front of x, or behind it. */
  lemma FrontRest(mark: string, x: string)
    requires IsMark(mark) && x != "" && IsDigit(x[|x| - 1])
    requires Upper(mark + x) == mark + x && Upper(mark) == mark
    ensures Strip(mark + x) == mark + x && Begins(mark + x, mark) && Rest(mark + x, mark) == Strip(x)
  {
    var text := mark + x;
    assert text[0] == mark[0] && text[|text| - 1] == x[|x| - 1];
    assert StripLeft(text) == text && StripRight(text) == text;
    assert text[|mark|..] == x;
  }

  lemma BackRest(x: string, mark: string)
    requires IsMark(mark) && x != "" && IsDigit(x[0])
    requires Upper(x + mark) == x + mark && Upper(mark) == mark
    ensures Strip(x + mark) == x + mark && Ends(x + mark, mark) && Rest(x + mark, mark) == Strip(x)
  {
    var text := x + mark;
    assert text[0] == x[0] && text[|text| - 1] == mark[|mark| - 1];
    assert StripLeft(text) == text && StripRight(text) == text;
    assert text[|text| - |mark|..] == mark && text[..|text| - |mark|] == x;
    assert !IsDigit(mark[0]);
    assert !Begins(text, mark);
  }

  lemma PlacedShape(p: Placement, mark: string, amount: string) returns (x: string)
    requires IsPrinted(amount)
    ensures p.Place(mark, amount) == if p.Before? || p.BeforeSpaced? then mark + x else x + mark
    ensures x == amount || (x == " " + amount && p.BeforeSpaced?) || (x == amount + " " && p.AfterSpaced?)
    ensures x != "" && (p.Before? || p.BeforeSpaced? ==> IsDigit(x[|x| - 1]))
    ensures p.After? || p.AfterSpaced? ==> IsDigit(x[0])
    ensures forall i :: 0 <= i < |x| ==> !IsCapital(x[i]) && !IsSign(x[i])
  {
    x := match p
      case Before => amount
      case BeforeSpaced => " " + amount
      case After => amount
      case AfterSpaced => amount + " ";
    assert mark + " " + amount == mark + (" " + amount);
  }

  /** The stripped cell, and what is left of it once the marker is taken away. */
  lemma PlacedRest(p: Placement, mark: string, amount: string)
    requires IsMark(mark) && IsPrinted(amount)
    ensures var text := p.Place(mark, amount);
            Strip(text) == text && (Begins(text, mark) || Ends(text, mark)) && Rest(text, mark) == amount
  {
    hide Strip, Begins, Ends, Rest, IsMark, Upper, Placement.Place;
    var x := PlacedShape(p, mark, amount);
    UpperPlaced(p, mark, amount);
    StripDigits(amount);
    if p.Before? || p.BeforeSpaced? { FrontRest(mark, x); } else { BackRest(x, mark); }
  }

  /** The first entry whose marker is found decides. */
  lemma {:induction false} MarkedAt(text: string, table: seq<(string, string)>, i: nat)
    requires i < |table| && (Begins(text, table[i].0) || Ends(text, table[i].0))
    requires forall j :: 0 <= j < i && (Begins(text, table[j].0) || Ends(text, table[j].0)) ==> table[j] == table[i]
    ensures Marked(text, table) == Some((table[i].1, Rest(text, table[i].0)))
  {
    if i > 0 { MarkedAt(text, table[1..], i - 1); }
  }

  lemma {:induction false} Unmarked(text: string, table: seq<(string, string)>)
    requires forall j :: 0 <= j < |table| ==> !Begins(text, table[j].0) && !Ends(text, table[j].0)
    ensures Marked(text, table) == None
  {
    if table != [] { Unmarked(text, table[1..]); }
  }

  /** Neither marker begins the other, and the earlier one does not end the other. */
  predicate Distinct(earlier: string, mark: string) {
    IsMark(earlier) && IsMark(mark) && !(earlier <= mark) && !(mark <= earlier) && !EndsWith(mark, earlier)
  }

  lemma PrefixOfConcat(earlier: string, mark: string, x: string)
    ensures earlier <= mark + x ==> earlier <= mark || mark <= earlier
  {
    assert forall k :: 0 <= k < |mark| ==> (mark + x)[k] == mark[k];
  }

  lemma FrontUnseen(earlier: string, mark: string, x: string)
    requires Distinct(earlier, mark) && x != "" && IsDigit(x[|x| - 1])
    ensures !(earlier <= mark + x) && !EndsWith(mark + x, earlier)
  {
    var text := mark + x;
    PrefixOfConcat(earlier, mark, x);
    if |earlier| <= |text| {
      assert text[|text| - |earlier|..][|earlier| - 1] == x[|x| - 1];
    }
  }

  lemma BackUnseen(earlier: string, mark: string, x: string)
    requires Distinct(earlier, mark) && x != "" && IsDigit(x[0])
    requires forall i :: 0 <= i < |x| ==> !IsCapital(x[i]) && !IsSign(x[i])
    ensures !(earlier <= x + mark) && !EndsWith(x + mark, earlier)
  {
    var text := x + mark;
    assert text[0] == x[0];
    DifferAt(earlier, text, 0);
    if |earlier| <= |mark| {
      assert text[|text| - |earlier|..] == mark[|mark| - |earlier|..];
    } else if |earlier| <= |text| {
      assert text[|text| - |earlier|..][|earlier| - |mark| - 1] == x[|x| - 1];
    }
  }

  lemma DistinctUnseen(p: Placement, earlier: string, mark: string, amount: string)
    requires Distinct(earlier, mark) && IsPrinted(amount)
    ensures var text := p.Place(mark, amount); !Begins(text, earlier) && !Ends(text, earlier)
  {
    UpperPlaced(p, mark, amount);
    UpperPlaced(p, earlier, amount);
    hide Placement.Place, Distinct, EndsWith;
    var x := PlacedShape(p, mark, amount);
    if p.Before? || p.BeforeSpaced? { FrontUnseen(earlier, mark, x); } else { BackUnseen(earlier, mark, x); }
  }

  lemma DifferAt(a: string, b: string, k: nat)
    requires k < |a| && k < |b| && a[k] != b[k]
    ensures !(a <= b) && !(b <= a)
  {}

  /** No symbol is hidden by one that is tried before it. */
  lemma SymbolsDistinct(j: nat, i: nat)
    requires j < i < |SYMBOLS|
    ensures Distinct(SYMBOLS[j].0, SYMBOLS[i].0)
  {
    var a, b := SYMBOLS[j].0, SYMBOLS[i].0;
    if a[0] != b[0] { DifferAt(a, b, 0); } else { DifferAt(a, b, 1); }
    if |a| <= |b| { assert b[|b| - |a|..][0] == b[|b| - |a|] && b[|b| - |a|..][|a| - 1] == b[|b| - 1]; }
  }

  lemma CodesDistinct(code: string, j: nat)
    requires code in ISO_CODES && j < |SYMBOLS|
    ensures Distinct(SYMBOLS[j].0, code)
  {
    var a := SYMBOLS[j].0;
    DifferAt(a, code, |a| - 1);
    assert code[|code| - |a|..][|a| - 1] == code[|code| - 1];
  }

  lemma OtherCodes(code: string, other: string)
    requires code in ISO_CODES && other in ISO_CODES && code != other
    ensures Distinct(other, code)
  {}

  lemma SymbolFound(i: nat, p: Placement, amount: string, codes: seq<string>)
    requires i < |SYMBOLS| && IsPrinted(amount)
    ensures var text := p.Place(SYMBOLS[i].0, amount);
            IsMark(SYMBOLS[i].0) && Strip(text) == text && Marker(text, codes) == Some((SYMBOLS[i].1, amount))
  {
    var mark := SYMBOLS[i].0;
    var text := p.Place(mark, amount);
    PlacedRest(p, mark, amount);
    forall j | 0 <= j < i ensures !Begins(text, SYMBOLS[j].0) && !Ends(text, SYMBOLS[j].0) {
      SymbolsDistinct(j, i);
      DistinctUnseen(p, SYMBOLS[j].0, mark, amount);
    }
    MarkedAt(text, SYMBOLS, i);
  }

  lemma CodeFound(code: string, p: Placement, amount: string, codes: seq<string>)
    requires code in codes && (forall c :: c in codes ==> c in ISO_CODES) && IsPrinted(amount)
    ensures var text := p.Place(code, amount);
            IsMark(code) && Strip(text) == text && Marker(text, codes) == Some((code, amount))
  {
    var text := p.Place(code, amount);
    PlacedRest(p, code, amount);
    forall j | 0 <= j < |SYMBOLS| ensures !Begins(text, SYMBOLS[j].0) && !Ends(text, SYMBOLS[j].0) {
      CodesDistinct(code, j);
      DistinctUnseen(p, SYMBOLS[j].0, code, amount);
    }
    Unmarked(text, SYMBOLS);
    var i :| 0 <= i < |codes| && codes[i] == code;
    var table := CodeTable(codes);
    forall j | 0 <= j < i && (Begins(text, table[j].0) || Ends(text, table[j].0)) ensures table[j] == table[i] {
      if codes[j] != code {
        OtherCodes(code, codes[j]);
        DistinctUnseen(p, codes[j], code, amount);
      }
    }
    MarkedAt(text, table, i);
  }

  // ---------------------------------------------------------------------------
  // Main results
  // ---------------------------------------------------------------------------

  /** Every amount from 0.01 to 99,999.00, in either separator style and with or without grouping, marked by
      any listed symbol in front or behind, reads back as exactly that amount in that symbol's currency;
      in particular AU$, NZ$, CA$, C$ and A$ are never taken for $. */
  lemma SymbolRoundTrip(cents: nat, style: Style, p: Placement, i: nat, codes: seq<string>)
    requires 1 <= cents <= 9_999_900 && i < |SYMBOLS|
    ensures Parsed(p.Place(SYMBOLS[i].0, style.Print(cents)), codes) == Some(Quote(100 * cents, SYMBOLS[i].1))
  {
    PrintedShape(style, cents);
    SymbolFound(i, p, style.Print(cents), codes);
    hide *;
    AmountReads(style, cents);
    ParsedIs(p.Place(SYMBOLS[i].0, style.Print(cents)), codes, SYMBOLS[i].1, style.Print(cents));
  }

  /** The same for an ISO code, whatever the order in which the set of codes is enumerated. */
  lemma CodeRoundTrip(cents: nat, style: Style, p: Placement, code: string, codes: seq<string>)
    requires 1 <= cents <= 9_999_900 && code in ISO_CODES && forall c :: c in codes <==> c in ISO_CODES
    ensures Parsed(p.Place(code, style.Print(cents)), codes) == Some(Quote(100 * cents, code))
  {
    PrintedShape(style, cents);
    CodeFound(code, p, style.Print(cents), codes);
    hide *;
    AmountReads(style, cents);
    ParsedIs(p.Place(code, style.Print(cents)), codes, code, style.Print(cents));
  }

  /** Whole amounts from 1 to 99,999, plain or grouped by a comma: the lone comma is a thousands separator. */
  lemma WholeSymbolRoundTrip(n: nat, grouped: bool, p: Placement, i: nat, codes: seq<string>)
    requires 1 <= n <= 99_999 && i < |SYMBOLS|
    ensures Parsed(p.Place(SYMBOLS[i].0, PrintWhole(n, grouped)), codes) == Some(Quote(10_000 * n, SYMBOLS[i].1))
  {
    WholeAmountReads(n, grouped);
    SymbolFound(i, p, PrintWhole(n, grouped), codes);
    hide *;
    ParsedIs(p.Place(SYMBOLS[i].0, PrintWhole(n, grouped)), codes, SYMBOLS[i].1, PrintWhole(n, grouped));
  }

  lemma WholeCodeRoundTrip(n: nat, grouped: bool, p: Placement, code: string, codes: seq<string>)
    requires 1 <= n <= 99_999 && code in ISO_CODES && forall c :: c in codes <==> c in ISO_CODES
    ensures Parsed(p.Place(code, PrintWhole(n, grouped)), codes) == Some(Quote(10_000 * n, code))
  {
    WholeAmountReads(n, grouped);
    CodeFound(code, p, PrintWhole(n, grouped), codes);
    hide *;
    ParsedIs(p.Place(code, PrintWhole(n, grouped)), codes, code, PrintWhole(n, grouped));
  }

  /** A lone point is a decimal point, even in front of three digits: a whole amount grouped in the European way is
      read as a thousandth of it. */
  lemma PointGroupsShrink(n: nat, p: Placement, i: nat, codes: seq<string>)
    requires 1000 <= n <= 99_999 && i < |SYMBOLS|
    ensures Parsed(p.Place(SYMBOLS[i].0, Grouped(n, '.')), codes) == Some(Quote(10 * n, SYMBOLS[i].1))
  {
    LonePoint(n);
    SymbolFound(i, p, Grouped(n, '.'), codes);
    hide *;
    ParsedIs(p.Place(SYMBOLS[i].0, Grouped(n, '.')), codes, SYMBOLS[i].1, Grouped(n, '.'));
  }

  lemma ParsedIs(text: string, codes: seq<string>, code: string, rest: string)
    requires Marker(Strip(text), codes) == Some((code, rest)) && Amount(rest).Some?
    ensures Parsed(text, codes) == Some(Quote(Amount(rest).value, code))
  {}

  /** Whatever the cell holds, a quote is a positive amount of at most 99,999 in an allowed currency. */
  lemma QuotesAreBounded(text: string, codes: seq<string>)
    requires forall c :: c in codes ==> c in ISO_CODES
    ensures var q := Parsed(text, codes); q.Some? ==> 0 < q.value.units <= MAX_UNITS && q.value.currency in ISO_CODES
  {
    hide Amount, Strip;
    AmountIsBounded(text, codes);
    MarkedIsListed(Strip(text), SYMBOLS);
    MarkedIsListed(Strip(text), CodeTable(codes));
  }

  lemma AmountIsBounded(text: string, codes: seq<string>)
    ensures var m := Marker(Strip(text), codes);
            m.Some? && Amount(m.value.1).Some? ==> 0 < Amount(m.value.1).value <= MAX_UNITS
  {}

  lemma {:induction false} MarkedIsListed(text: string, table: seq<(string, string)>)
    requires forall j :: 0 <= j < |table| ==> table[j].1 in ISO_CODES
    ensures Marked(text, table).Some? ==> Marked(text, table).value.0 in ISO_CODES
  {
    if table != [] { MarkedIsListed(text, table[1..]); }
  }
}
