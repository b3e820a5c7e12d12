/** Biographies cut to size. */
module ArtistBio {
  import opened Text
  import opened Wrappers

  const ELLIPSIS := "\U{2026}"
  const PARAGRAPH := "\n\n"
  const MIN_ROOM := 200

  // ---------------------------------------------------------------------------
  // Cutting one paragraph
  // ---------------------------------------------------------------------------

  /** Position of the last c that is followed by a blank, or -1. */
  function LastStop(s: string, c: char): (k: int)
    ensures -1 <= k && (k >= 0 ==> k + 1 < |s| && s[k] == c && s[k + 1] == ' ')
    ensures forall i :: k < i && 0 <= i < |s| - 1 ==> s[i] != c || s[i + 1] != ' '
  {
    if |s| < 2 then -1
    else if s[|s| - 2] == c && s[|s| - 1] == ' ' then |s| - 2
    else LastStop(s[..|s| - 1], c)
  }

  function SentenceEnd(head: string): int {
    Max(LastStop(head, '.'), Max(LastStop(head, '!'), LastStop(head, '?')))
  }

  /** `head.rsplit(" ", 1)[0]`. */
  function BeforeLastBlank(head: string): string { if ' ' in head then head[..RFind(head, ' ')] else head }

  /** `_cut_at_sentence`. */
  function Cut(text: string, limit: nat): string {
    if |text| <= limit then text
    else
      var head := text[..limit];
      if SentenceEnd(head) > limit / 3 then head[..SentenceEnd(head) + 1] else BeforeLastBlank(head) + ELLIPSIS
  }

  predicate EndsInEllipsis(r: string) { r != "" && r[|r| - 1] == ELLIPSIS[0] }

  /** Part of the text, or that followed by an ellipsis. */
  predicate Abridges(r: string, text: string) {
    r <= text || (EndsInEllipsis(r) && r[..|r| - 1] <= text)
  }

  /** A cut text ends a sentence inside the limit or has an ellipsis; it is one character too long exactly
      when there is no blank to cut at. */
  lemma CutFits(text: string, limit: nat)
    ensures Abridges(Cut(text, limit), text) && |Cut(text, limit)| <= limit + 1
    ensures |Cut(text, limit)| == limit + 1 <==> |text| > limit && ' ' !in text[..limit]
    ensures |text| > limit && !EndsInEllipsis(Cut(text, limit)) ==>
              var r := Cut(text, limit); r != "" && r[|r| - 1] in ".!?" && text[|r|] == ' ' && |r| > limit / 3
  {
    if |text| > limit {
      var head := text[..limit];
      var cut := SentenceEnd(head);
      if cut > limit / 3 {
        assert head[cut + 1] == ' ' == text[cut + 1];
        assert ' ' in head;
      } else {
        var kept := BeforeLastBlank(head);
        assert (kept + ELLIPSIS)[..|kept|] == kept;
        assert kept <= head <= text;
      }
    }
  }

  /** A sentence ends at k: a full stop, exclamation or question mark in front of a blank. */
  predicate EndsSentence(text: string, k: int) {
    0 <= k && k + 1 < |text| && (text[k] == '.' || text[k] == '!' || text[k] == '?') && text[k + 1] == ' '
  }

  /** A text that fits is not cut.  Otherwise, when the last sentence that ends inside the limit ends beyond a third of
      it, the text is cut there; and if not, at the last blank inside the limit (or at the limit), with an ellipsis. */
  lemma CutExactly(text: string, limit: nat, k: int)
    requires |text| > limit ==>
               -1 <= k && (k >= 0 ==> k + 1 < limit && EndsSentence(text, k))
               && forall j :: k < j && j + 1 < limit ==> !EndsSentence(text, j)
    ensures |text| <= limit ==> Cut(text, limit) == text
    ensures |text| > limit && k > limit / 3 ==> Cut(text, limit) == text[..k + 1]
    ensures |text| > limit && k <= limit / 3 && ' ' !in text[..limit] ==> Cut(text, limit) == text[..limit] + "\U{2026}"
    ensures |text| > limit && k <= limit / 3 ==>
              forall b :: 0 <= b < limit && text[b] == ' ' && (forall j :: b < j < limit ==> text[j] != ' ')
                          ==> Cut(text, limit) == text[..b] + "\U{2026}"
  {
    hide *;
    CutIs(text, limit);
    if |text| > limit {
      LastSentence(text, limit, k);
      forall b | 0 <= b < limit && text[b] == ' ' && (forall j :: b < j < limit ==> text[j] != ' ')
        ensures BeforeLastBlank(text[..limit]) == text[..b]
      {
        LastBlank(text, limit, b);
      }
    }
  }

  lemma CutIs(text: string, limit: nat)
    ensures |text| <= limit ==> Cut(text, limit) == text
    ensures |text| > limit ==>
              var cut := SentenceEnd(text[..limit]);
              cut + 1 <= limit
              && Cut(text, limit) == if cut > limit / 3 then text[..cut + 1]
                                     else BeforeLastBlank(text[..limit]) + "\U{2026}"
    ensures |text| > limit && ' ' !in text[..limit] ==> BeforeLastBlank(text[..limit]) == text[..limit]
  {
    if |text| > limit {
      var head := text[..limit];
      assert SentenceEnd(head) >= 0 ==> head[..SentenceEnd(head) + 1] == text[..SentenceEnd(head) + 1];
    }
  }

  lemma LastSentence(text: string, limit: nat, k: int)
    requires limit <= |text| && -1 <= k && (k >= 0 ==> k + 1 < limit && EndsSentence(text, k))
    requires forall j :: k < j && j + 1 < limit ==> !EndsSentence(text, j)
    ensures SentenceEnd(text[..limit]) == k
  {
    var head := text[..limit];
    var cut := SentenceEnd(head);
    if cut >= 0 { assert EndsSentence(text, cut) && cut + 1 < limit; }
    if k >= 0 { assert head[k] == text[k] && head[k + 1] == ' '; }
  }

  lemma LastBlank(text: string, limit: nat, b: nat)
    requires b < limit <= |text| && text[b] == ' ' && forall j :: b < j < limit ==> text[j] != ' '
    ensures ' ' in text[..limit] && BeforeLastBlank(text[..limit]) == text[..b]
  {
    var head := text[..limit];
    assert head[b] == ' ' && head[..b] == text[..b];
  }

  // ---------------------------------------------------------------------------
  // Joining paragraphs
  // ---------------------------------------------------------------------------

  function Separator(k: nat): string { if k > 0 then PARAGRAPH else "" }

  /** The paragraphs with a blank line between them. */
  function Join(paragraphs: seq<string>): string {
    if paragraphs == [] then ""
    else
      var n := |paragraphs| - 1;
      Join(paragraphs[..n]) + Separator(n) + paragraphs[n]
  }

  lemma JoinSnoc(paragraphs: seq<string>, last: string)
    ensures Join(paragraphs + [last]) == Join(paragraphs) + Separator(|paragraphs|) + last
  {
    assert (paragraphs + [last])[..|paragraphs|] == paragraphs;
  }

  function Length(paragraphs: seq<string>, k: nat): nat
    requires k <= |paragraphs|
  {
    |Join(paragraphs[..k])|
  }

  lemma LengthStep(paragraphs: seq<string>, k: nat)
    requires k < |paragraphs|
    ensures Length(paragraphs, k + 1) == Length(paragraphs, k) + |Separator(k)| + |paragraphs[k]|
    ensures Join(paragraphs[..k + 1]) == Join(paragraphs[..k]) + Separator(k) + paragraphs[k]
  {
    assert paragraphs[..k + 1] == paragraphs[..k] + [paragraphs[k]];
    JoinSnoc(paragraphs[..k], paragraphs[k]);
  }

  /** The minimum is not reached yet (the first paragraph is always wanted). */
  predicate Wanted(paragraphs: seq<string>, min: int, k: nat) {
    k < |paragraphs| && (k == 0 || Length(paragraphs, k) < min)
  }

  /** How many paragraphs are taken whole: up to the minimum, and as long as they fit. */
  function Whole(paragraphs: seq<string>, min: int, max: int, k: nat): (n: nat)
    requires k <= |paragraphs|
    ensures k <= n <= |paragraphs|
    decreases |paragraphs| - k
  {
    if Wanted(paragraphs, min, k) && Length(paragraphs, k + 1) <= max
    then Whole(paragraphs, min, max, k + 1)
    else k
  }

  /** What is left for the paragraph after the first k. */
  function Room(paragraphs: seq<string>, max: int, k: nat): int
    requires k <= |paragraphs|
  {
    max - Length(paragraphs, k) - |Separator(k)|
  }

  /** The next paragraph is wanted and there is room for a part of it. */
  predicate IsCut(paragraphs: seq<string>, min: int, max: int, k: nat) {
    Wanted(paragraphs, min, k) && Room(paragraphs, max, k) > MIN_ROOM
  }

  function Trimmed(paragraphs: seq<string>, min: int, max: int): string {
    var k := Whole(paragraphs, min, max, 0);
    Join(paragraphs[..k])
    + if IsCut(paragraphs, min, max, k) then Separator(k) + Cut(paragraphs[k], Room(paragraphs, max, k)) else ""
  }

  /** `trim_bio`. */
  method TrimBio(paragraphs: seq<string>, min: int, max: int) returns (bio: string)
    ensures bio == Trimmed(paragraphs, min, max)
  {
    hide Join, Whole, Cut;
    var picked: seq<string> := [];
    var length, i := 0, 0;
    NothingPicked();
    while i < |paragraphs|
      invariant i <= |paragraphs| && picked == paragraphs[..i] && length == Length(paragraphs, i)
      invariant Whole(paragraphs, min, max, 0) == Whole(paragraphs, min, max, i)
    {
      var para := paragraphs[i];
      var sep := if picked != [] then 2 else 0;
      LengthStep(paragraphs, i);
      WholeStep(paragraphs, min, max, i);
      if picked != [] && length >= min { return Join(picked); }
      if length + sep + |para| <= max {
        picked := picked + [para];
        length := length + sep + |para|;
        i := i + 1;
      } else {
        var room := max - length - sep;
        if room > MIN_ROOM {
          JoinSnoc(picked, Cut(para, room));
          picked := picked + [Cut(para, room)];
        }
        return Join(picked);
      }
    }
    WholeStep(paragraphs, min, max, i);
    return Join(picked);
  }

  lemma NothingPicked()
    ensures Join([]) == ""
  {}

  lemma WholeStep(paragraphs: seq<string>, min: int, max: int, k: nat)
    requires k <= |paragraphs|
    ensures Whole(paragraphs, min, max, k) ==
            if Wanted(paragraphs, min, k) && Length(paragraphs, k + 1) <= max then Whole(paragraphs, min, max, k + 1)
            else k
    ensures Wanted(paragraphs, min, k) ==> k < |paragraphs|
  {}

  lemma {:induction false} JoinPrefix(paragraphs: seq<string>, k: nat)
    requires k <= |paragraphs|
    ensures Join(paragraphs[..k]) <= Join(paragraphs)
    ensures k < |paragraphs| ==> Join(paragraphs[..k]) + Separator(k) + paragraphs[k] <= Join(paragraphs)
    decreases |paragraphs|
  {
    var n := |paragraphs| - 1;
    if k == |paragraphs| {
      assert paragraphs[..k] == paragraphs;
    } else {
      assert paragraphs[..n][..k] == paragraphs[..k];
      JoinPrefix(paragraphs[..n], k);
    }
  }

  /** Paragraphs are taken whole while they fit and the minimum is not reached, and no longer. */
  lemma {:induction false} WholeStops(paragraphs: seq<string>, min: int, max: int, k: nat)
    requires k <= |paragraphs|
    ensures var n := Whole(paragraphs, min, max, k);
            && (forall j :: k < j <= n ==> Length(paragraphs, j) <= max)
            && (forall j :: k <= j < n ==> Wanted(paragraphs, min, j))
            && (Wanted(paragraphs, min, n) ==> Length(paragraphs, n + 1) > max)
    decreases |paragraphs| - k
  {
    hide Length, Wanted, Whole;
    WholeStep(paragraphs, min, max, k);
    if Wanted(paragraphs, min, k) && Length(paragraphs, k + 1) <= max { WholeStops(paragraphs, min, max, k + 1); }
  }

  /** When nothing is cut the result is the paragraphs taken whole. */
  lemma WholeFits(paragraphs: seq<string>, min: int, max: nat, k: nat)
    requires k == Whole(paragraphs, min, max, 0) && !IsCut(paragraphs, min, max, k)
    ensures var r := Join(paragraphs[..k]);
            && r <= Join(paragraphs) && |r| <= max
            && (|r| < min ==> r == Join(paragraphs) || |r| + |Separator(k)| + MIN_ROOM >= max)
  {
    WholeStops(paragraphs, min, max, 0);
    hide Whole, Join;
    JoinPrefix(paragraphs, k);
    NothingPicked();
    assert Length(paragraphs, k) == |Join(paragraphs[..k])|;
    assert paragraphs[..0] == [] && paragraphs[..|paragraphs|] == paragraphs;
  }

  /** When a paragraph is cut its part fills the room, or exceeds it by one. */
  lemma CutPartFits(paragraphs: seq<string>, min: int, max: nat, k: nat)
    requires k == Whole(paragraphs, min, max, 0) && IsCut(paragraphs, min, max, k)
    ensures var room := Room(paragraphs, max, k);
            var r := Join(paragraphs[..k]) + Separator(k) + Cut(paragraphs[k], room);
            && Abridges(r, Join(paragraphs)) && |r| <= max + 1
            && (|r| == max + 1 <==> HeadHasNoBlank(paragraphs[k], room))
  {
    hide Whole, Join, Cut, Abridges;
    JoinPrefix(paragraphs, k);
    var room := Room(paragraphs, max, k);
    CutFits(paragraphs[k], room);
    AbridgesAfter(Join(paragraphs[..k]) + Separator(k), Cut(paragraphs[k], room), paragraphs[k], Join(paragraphs));
  }

  /** The result, but for a trailing ellipsis, is a prefix of the joined paragraphs.  It has at most `max`
      characters, or `max + 1` exactly when the head of the paragraph that is cut contains no blank.  It falls
      short of `min` only when the text is used up, or a paragraph is cut, or too little room is left for one. */
  lemma TrimmedFits(paragraphs: seq<string>, min: int, max: nat)
    ensures var r := Trimmed(paragraphs, min, max);
            var k := Whole(paragraphs, min, max, 0);
            var cut := IsCut(paragraphs, min, max, k);
            && Abridges(r, Join(paragraphs)) && |r| <= max + 1
            && (|r| == max + 1 <==> cut && HeadHasNoBlank(paragraphs[k], Room(paragraphs, max, k)))
            && (|r| < min ==> r == Join(paragraphs) || cut || |r| + |Separator(k)| + MIN_ROOM >= max)
  {
    hide Whole, Join, Cut, Abridges, IsCut, Room, Separator;
    var k := Whole(paragraphs, min, max, 0);
    TrimmedCases(paragraphs, min, max, k);
    if IsCut(paragraphs, min, max, k) {
      CutPartFits(paragraphs, min, max, k);
    } else {
      WholeFits(paragraphs, min, max, k);
      PlainAbridges(Join(paragraphs[..k]), Join(paragraphs));
    }
  }

  lemma TrimmedCases(paragraphs: seq<string>, min: int, max: int, k: nat)
    requires k == Whole(paragraphs, min, max, 0)
    ensures k <= |paragraphs|
            && (IsCut(paragraphs, min, max, k) ==> k < |paragraphs| && Room(paragraphs, max, k) > MIN_ROOM)
    ensures Trimmed(paragraphs, min, max) ==
            if IsCut(paragraphs, min, max, k)
            then Join(paragraphs[..k]) + Separator(k) + Cut(paragraphs[k], Room(paragraphs, max, k))
            else Join(paragraphs[..k])
  {}

  predicate HeadHasNoBlank(text: string, limit: int) { 0 <= limit < |text| && ' ' !in text[..limit] }

  lemma PlainAbridges(r: string, text: string)
    requires r <= text
    ensures Abridges(r, text)
  {}

  lemma AbridgesAfter(front: string, part: string, para: string, all: string)
    requires Abridges(part, para) && front + para <= all
    ensures Abridges(front + part, all)
  {
    if EndsInEllipsis(part) && part[..|part| - 1] <= para {
      assert (front + part)[..|front + part| - 1] == front + part[..|part| - 1];
      assert front + part[..|part| - 1] <= front + para;
    } else {
      assert front + part <= front + para;
    }
  }

  /** A first paragraph with no blank in it, longer than the maximum, gives one character too many. */
  lemma UnbrokenParagraphOverruns(text: string, min: int, max: nat)
    requires |text| > max > MIN_ROOM && ' ' !in text
    ensures |Trimmed([text], min, max)| == max + 1
  {
    var one := [text];
    assert one[..0] == [] && one[..1] == one;
    NothingPicked();
    LengthStep(one, 0);
    WholeStep(one, min, max, 0);
    TrimmedFits(one, min, max);
  }

  /** With the default limits an unbroken paragraph of 2501 characters is cut to its first 2500 and an ellipsis. */
  lemma DefaultLimitOverruns()
    ensures |Trimmed([seq(2501, _ => 'a')], 1200, 2500)| == 2501
  {
    UnbrokenParagraphOverruns(seq(2501, _ => 'a'), 1200, 2500);
  }

  // ---------------------------------------------------------------------------
  // The whole rule
  // ---------------------------------------------------------------------------

  lemma {:induction false} WholeIs(paragraphs: seq<string>, min: int, max: int, j: nat, k: nat)
    requires j <= k <= |paragraphs|
    requires forall i :: 1 <= i < k ==> |Join(paragraphs[..i])| < min
    requires forall i :: 1 <= i <= k ==> |Join(paragraphs[..i])| <= max
    requires k == |paragraphs| || (k > 0 && |Join(paragraphs[..k])| >= min) || |Join(paragraphs[..k + 1])| > max
    ensures Whole(paragraphs, min, max, j) == k
    decreases k - j
  {
    hide Join, Whole;
    WholeStep(paragraphs, min, max, j);
    assert Length(paragraphs, j) == |Join(paragraphs[..j])|;
    if j < k {
      assert Length(paragraphs, j + 1) == |Join(paragraphs[..j + 1])|;
      WholeIs(paragraphs, min, max, j + 1, k);
    } else if k < |paragraphs| {
      assert Length(paragraphs, k + 1) == |Join(paragraphs[..k + 1])|;
    }
  }

  /** Paragraphs stand with a blank line between them. */
  lemma JoinedByBlankLine(paragraphs: seq<string>, next: string)
    ensures Join([]) == "" && Join([next]) == next
    ensures paragraphs != [] ==> Join(paragraphs + [next]) == Join(paragraphs) + "\n\n" + next
  {
    JoinSnoc(paragraphs, next);
    JoinSnoc([], next);
    assert [] + [next] == [next];
  }

  /** The first k paragraphs are taken when each but the last leaves the bio shorter than `min` and all of them fit into
      `max`.  When the text is used up or `min` is reached, that is the bio.  When the next one does not fit, its part
      that is cut to the room is added, if there is room for more than 200 characters. */
  lemma TrimmedExactly(paragraphs: seq<string>, min: int, max: int, k: nat)
    requires k <= |paragraphs|
    requires forall i :: 1 <= i < k ==> |Join(paragraphs[..i])| < min
    requires forall i :: 1 <= i <= k ==> |Join(paragraphs[..i])| <= max
    ensures k == |paragraphs| || (k > 0 && |Join(paragraphs[..k])| >= min)
            ==> Trimmed(paragraphs, min, max) == Join(paragraphs[..k])
    ensures k < |paragraphs| && (k == 0 || |Join(paragraphs[..k])| < min) && |Join(paragraphs[..k + 1])| > max ==>
              var front := Join(paragraphs[..k]) + if k == 0 then "" else "\n\n";
              Trimmed(paragraphs, min, max) ==
              if max - |front| > 200 then front + Cut(paragraphs[k], max - |front|) else Join(paragraphs[..k])
  {
    hide Join, Whole, Cut;
    assert Length(paragraphs, k) == |Join(paragraphs[..k])|;
    if k == |paragraphs| || (k > 0 && |Join(paragraphs[..k])| >= min) || |Join(paragraphs[..k + 1])| > max {
      WholeIs(paragraphs, min, max, 0, k);
      TrimmedCases(paragraphs, min, max, k);
    }
  }
}
