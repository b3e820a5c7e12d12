/** Strings of characters; letter case covers ASCII, blanks are Python's. */
module Text {
  predicate IsDigit(c: char) { '0' <= c <= '9' }

  predicate AllDigits(s: string) { forall i :: 0 <= i < |s| ==> IsDigit(s[i]) }

  predicate IsSpace(c: char) {
    var n := c as int;
    9 <= n <= 13 || 28 <= n <= 32 || n == 0x85 || n == 0xA0 || n == 0x1680 || 0x2000 <= n <= 0x200A
    || n == 0x2028 || n == 0x2029 || n == 0x202F || n == 0x205F || n == 0x3000
  }

  function StripLeft(s: string): string {
    if s != "" && IsSpace(s[0]) then StripLeft(s[1..]) else s
  }

  function StripRight(s: string): string {
    if s != "" && IsSpace(s[|s| - 1]) then StripRight(s[..|s| - 1]) else s
  }

  function Strip(s: string): string { StripRight(StripLeft(s)) }

  lemma {:induction false} StripLeftShrinks(s: string)
    ensures |StripLeft(s)| <= |s|
  {
    if s != "" && IsSpace(s[0]) { StripLeftShrinks(s[1..]); }
  }

  lemma {:induction false} StripRightShrinks(s: string)
    ensures |StripRight(s)| <= |s|
  {
    if s != "" && IsSpace(s[|s| - 1]) { StripRightShrinks(s[..|s| - 1]); }
  }

  function UpperChar(c: char): char { if 'a' <= c <= 'z' then c - 'a' + 'A' else c }

  function LowerChar(c: char): char { if 'A' <= c <= 'Z' then c - 'A' + 'a' else c }

  function Lower(s: string): (l: string)
    ensures |l| == |s| && forall i :: 0 <= i < |s| ==> l[i] == LowerChar(s[i])
  {
    seq(|s|, i requires 0 <= i < |s| => LowerChar(s[i]))
  }

  function Upper(s: string): (u: string)
    ensures |u| == |s| && forall i :: 0 <= i < |s| ==> u[i] == UpperChar(s[i])
  {
    seq(|s|, i requires 0 <= i < |s| => UpperChar(s[i]))
  }

  predicate EndsWith(s: string, tail: string) { |tail| <= |s| && s[|s| - |tail|..] == tail }

  function Without(s: string, c: char): string {
    if s == "" then "" else (if s[0] == c then "" else [s[0]]) + Without(s[1..], c)
  }

  function Replaced(s: string, c: char, d: char): (r: string)
    ensures |r| == |s| && forall i :: 0 <= i < |s| ==> r[i] == if s[i] == c then d else s[i]
  {
    seq(|s|, i requires 0 <= i < |s| => if s[i] == c then d else s[i])
  }

  /** Position of the first occurrence, or the length. */
  function Find(s: string, c: char): (k: nat)
    ensures k <= |s| && (k < |s| ==> s[k] == c) && forall i :: 0 <= i < k ==> s[i] != c
  {
    if s == "" || s[0] == c then 0 else 1 + Find(s[1..], c)
  }

  /** Position of the last occurrence, or -1. */
  function RFind(s: string, c: char): (k: int)
    ensures -1 <= k < |s| && (k >= 0 ==> s[k] == c) && forall i :: k < i < |s| ==> s[i] != c
  {
    if s == "" then -1 else if s[|s| - 1] == c then |s| - 1 else RFind(s[..|s| - 1], c)
  }

  /** The number a string of digits stands for. */
  function Value(s: string): nat
    requires AllDigits(s)
  {
    if s == "" then 0 else 10 * Value(s[..|s| - 1]) + (s[|s| - 1] as int - '0' as int)
  }

  predicate Contains(s: string, part: string) {
    part <= s || (s != "" && Contains(s[1..], part))
  }

  predicate LexLeq(a: string, b: string) {
    a == "" || (b != "" && (a[0] < b[0] || (a[0] == b[0] && LexLeq(a[1..], b[1..]))))
  }

  lemma {:induction false} LexTotal(a: string, b: string)
    ensures LexLeq(a, b) || LexLeq(b, a)
  {
    if a != "" && b != "" && a[0] == b[0] { LexTotal(a[1..], b[1..]); }
  }

  lemma {:induction false} LexTransitive(a: string, b: string, c: string)
    requires LexLeq(a, b) && LexLeq(b, c)
    ensures LexLeq(a, c)
  {
    if a != "" && a[0] == b[0] == c[0] { LexTransitive(a[1..], b[1..], c[1..]); }
  }

  // ---------------------------------------------------------------------------
  // Characters
  // ---------------------------------------------------------------------------

  /** Code points of Python's blanks. */
  const BLANKS: set<int> := {
    9, 10, 11, 12, 13, 28, 29, 30, 31, 32, 0x85, 0xA0, 0x1680,
    0x2000, 0x2001, 0x2002, 0x2003, 0x2004, 0x2005, 0x2006, 0x2007, 0x2008, 0x2009, 0x200A,
    0x2028, 0x2029, 0x202F, 0x205F, 0x3000}

  predicate IsBlank(c: char) { c as int in BLANKS }

  lemma BlanksAreSpaces(c: char)
    ensures IsSpace(c) <==> IsBlank(c)
  {}

  lemma {:induction false} StripLeftDrops(front: string, s: string)
    requires (forall i :: 0 <= i < |front| ==> IsSpace(front[i])) && (s == "" || !IsSpace(s[0]))
    ensures StripLeft(front + s) == s
  {
    if front == "" {
      assert front + s == s;
    } else {
      assert (front + s)[1..] == front[1..] + s;
      StripLeftDrops(front[1..], s);
    }
  }

  lemma {:induction false} StripRightDrops(s: string, back: string)
    requires (forall i :: 0 <= i < |back| ==> IsSpace(back[i])) && (s == "" || !IsSpace(s[|s| - 1]))
    ensures StripRight(s + back) == s
  {
    if back == "" {
      assert s + back == s;
    } else {
      assert (s + back)[..|s + back| - 1] == s + back[..|back| - 1];
      StripRightDrops(s, back[..|back| - 1]);
    }
  }

  /** Stripping takes away exactly the outer blanks. */
  lemma StripExactly(front: string, s: string, back: string)
    requires forall i :: 0 <= i < |front| ==> IsBlank(front[i])
    requires forall i :: 0 <= i < |back| ==> IsBlank(back[i])
    requires s != "" && !IsBlank(s[0]) && !IsBlank(s[|s| - 1])
    ensures Strip(front + s + back) == s
  {
    hide IsSpace, IsBlank;
    forall c ensures IsSpace(c) <==> IsBlank(c) { BlanksAreSpaces(c); }
    assert front + s + back == front + (s + back) && (s + back)[0] == s[0];
    StripLeftDrops(front, s + back);
    StripRightDrops(s, back);
  }

  /** The two cases of the letters from A to Z; every other character has one. */
  lemma CasesAre(i: nat, c: char)
    requires i < 26
    ensures var small, capital := ('a' as int + i) as char, ('A' as int + i) as char;
            UpperChar(small) == UpperChar(capital) == capital && LowerChar(small) == LowerChar(capital) == small
    ensures !('a' <= c <= 'z') ==> UpperChar(c) == c
    ensures !('A' <= c <= 'Z') ==> LowerChar(c) == c
  {}
}
