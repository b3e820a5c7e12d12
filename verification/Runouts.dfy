/** Matrix / runout identifiers of a release, grouped by variant, LP and side. */
module Runouts {
  import opened StableSort
  import opened Text
  import opened Wrappers

  datatype Identifier = Identifier(kind: string, value: string, description: string)

  /** What is read from a description; `variant` is a run of digits. */
  datatype Description = Description(side: Option<string>, variant: Option<string>, note: string)

  datatype Side = Side(side: string, lpSide: char, value: string, note: string)

  datatype Loose = Loose(value: string, note: string)

  datatype Lp = Lp(number: int, sides: seq<Side>)

  datatype Group = Group(variant: Option<string>, lps: seq<Lp>, unsided: seq<Loose>)

  const MATRIX_TYPE := "matrix / runout"

  // ---------------------------------------------------------------------------
  // Sides
  // ---------------------------------------------------------------------------

  function SideToLp(side: string): Option<(int, char)> {
    var s := Upper(Strip(side));
    if |s| == 1 && 'A' <= s[0] <= 'Z' then Some(Slot(s[0] as int - 'A' as int))
    else if s != "" && AllDigits(s) && Value(s) > 0 then Some(Slot(Value(s) - 1))
    else None
  }

  function Slot(index: nat): (int, char) { (index / 2 + 1, "AB"[index % 2]) }

  function LpLetters(lp: int): (char, char)
    requires 1 <= lp <= 13
  {
    var first := ('A' as int + (lp - 1) * 2) as char;
    (first, (first as int + 1) as char)
  }

  /** The two letters of an LP lead back to it. */
  lemma SidesRoundTrip(lp: int)
    requires 1 <= lp <= 13
    ensures var (a, b) := LpLetters(lp); SideToLp([a]) == Some((lp, 'A')) && SideToLp([b]) == Some((lp, 'B'))
  {
    var (a, b) := LpLetters(lp);
    assert Strip([a]) == [a] && Strip([b]) == [b];
  }

  // ---------------------------------------------------------------------------
  // Identifiers
  // ---------------------------------------------------------------------------

  function Clean(raw: seq<Identifier>): seq<Identifier> {
    if raw == [] then []
    else
      var last := raw[|raw| - 1];
      var kept := Identifier(Strip(last.kind), Strip(last.value), Strip(last.description));
      Clean(raw[..|raw| - 1]) + if kept.value == "" then [] else [kept]
  }

  predicate IsMatrix(i: Identifier) { Lower(i.kind) == MATRIX_TYPE }

  function Others(ids: seq<Identifier>): seq<Identifier> {
    if ids == [] then []
    else
      var last := ids[|ids| - 1];
      Others(ids[..|ids| - 1]) + if IsMatrix(last) then [] else [last]
  }

  /** Where a matrix identifier belongs: a side of an LP, or the variant's loose list. */
  datatype Item = Sided(lp: int, entry: Side) | Unsided(loose: Loose)

  datatype Entry = Entry(variant: Option<string>, item: Item)

  function EntryOf(parse: string -> Description, i: Identifier): Entry {
    var d := parse(i.description);
    var slot := if d.side.Some? && d.side.value != "" then SideToLp(d.side.value) else None;
    Entry(d.variant,
          match slot
          case None => Unsided(Loose(i.value, if d.note != "" then d.note else i.description))
          case Some((lp, lpSide)) => Sided(lp, Side(d.side.value, lpSide, i.value, d.note)))
  }

  function Entries(parse: string -> Description, ids: seq<Identifier>): seq<Entry> {
    if ids == [] then []
    else
      var last := ids[|ids| - 1];
      Entries(parse, ids[..|ids| - 1]) + if IsMatrix(last) then [EntryOf(parse, last)] else []
  }

  // ---------------------------------------------------------------------------
  // Grouping: the two nested dictionaries, in insertion order
  // ---------------------------------------------------------------------------

  function AddSide(lps: seq<Lp>, lp: int, s: Side): seq<Lp> {
    if lps == [] then [Lp(lp, [s])]
    else if lps[0].number == lp then [Lp(lp, lps[0].sides + [s])] + lps[1..]
    else [lps[0]] + AddSide(lps[1..], lp, s)
  }

  function AddItem(g: Group, item: Item): Group {
    match item
    case Sided(lp, s) => g.(lps := AddSide(g.lps, lp, s))
    case Unsided(l) => g.(unsided := g.unsided + [l])
  }

  function AddEntry(groups: seq<Group>, e: Entry): seq<Group> {
    if groups == [] then [AddItem(Group(e.variant, [], []), e.item)]
    else if groups[0].variant == e.variant then [AddItem(groups[0], e.item)] + groups[1..]
    else [groups[0]] + AddEntry(groups[1..], e)
  }

  function Grouping(es: seq<Entry>): seq<Group> {
    if es == [] then [] else AddEntry(Grouping(es[..|es| - 1]), es[|es| - 1])
  }

  lemma GroupingSnoc(es: seq<Entry>, e: Entry)
    ensures Grouping(es + [e]) == AddEntry(Grouping(es), e)
  {
    assert (es + [e])[..|es|] == es;
  }

  // ---------------------------------------------------------------------------
  // Output order
  // ---------------------------------------------------------------------------

  predicate SideLeq(a: Side, b: Side) {
    |a.side| < |b.side| || (|a.side| == |b.side| && LexLeq(a.side, b.side))
  }

  predicate LpLeq(a: Lp, b: Lp) { a.number <= b.number }

  function Rank(variant: Option<string>): (int, int) {
    if variant.Some? && AllDigits(variant.value) then (0, Value(variant.value)) else (1, 0)
  }

  predicate RankLeq(a: (int, int), b: (int, int)) { a.0 < b.0 || (a.0 == b.0 && a.1 <= b.1) }

  predicate GroupLeq(a: Group, b: Group) { RankLeq(Rank(a.variant), Rank(b.variant)) }

  function Notes(g: Group): seq<string> { LpNotes(g.lps) + LooseNotes(g.unsided) }

  function LpNotes(lps: seq<Lp>): seq<string> {
    if lps == [] then [] else SideNotes(lps[0].sides) + LpNotes(lps[1..])
  }

  function SideNotes(sides: seq<Side>): (notes: seq<string>)
    ensures |notes| == |sides| && forall i :: 0 <= i < |sides| ==> notes[i] == sides[i].note
  {
    seq(|sides|, i requires 0 <= i < |sides| => sides[i].note)
  }

  function LooseNotes(loose: seq<Loose>): (notes: seq<string>)
    ensures |notes| == |loose| && forall i :: 0 <= i < |loose| ==> notes[i] == loose[i].note
  {
    seq(|loose|, i requires 0 <= i < |loose| => loose[i].note)
  }

  function Label(g: Group): string {
    if g.variant.Some? then "Variant " + g.variant.value
    else if Notes(g) != [] && forall n :: n in Notes(g) ==> Contains(Lower(n), "label") then "Label"
    else "Unnumbered"
  }

  datatype Variant = Variant(group: Group, title: string)

  function SortSides(lps: seq<Lp>): (out: seq<Lp>)
    ensures |out| == |lps|
    ensures forall i :: 0 <= i < |lps| ==> out[i] == Lp(lps[i].number, SortBy(SideLeq, lps[i].sides))
  {
    seq(|lps|, i requires 0 <= i < |lps| => Lp(lps[i].number, SortBy(SideLeq, lps[i].sides)))
  }

  function Present(g: Group): Variant {
    Variant(g.(lps := SortSides(SortBy(LpLeq, g.lps))), Label(g))
  }

  function PresentAll(groups: seq<Group>): (out: seq<Variant>)
    ensures |out| == |groups| && forall i :: 0 <= i < |groups| ==> out[i] == Present(groups[i])
  {
    seq(|groups|, i requires 0 <= i < |groups| => Present(groups[i]))
  }

  /** The collecting loop of `group_runouts`. */
  method Collect(ids: seq<Identifier>, parse: string -> Description)
    returns (groups: seq<Group>, other: seq<Identifier>, runoutCount: nat)
    ensures groups == Grouping(Entries(parse, ids)) && other == Others(ids) && runoutCount == |Entries(parse, ids)|
  {
    groups, other, runoutCount := [], [], 0;
    for k := 0 to |ids|
      invariant groups == Grouping(Entries(parse, ids[..k]))
      invariant other == Others(ids[..k]) && runoutCount == |Entries(parse, ids[..k])|
    {
      hide Grouping, AddEntry, EntryOf;
      assert ids[..k + 1][..k] == ids[..k] && ids[..k + 1][k] == ids[k];
      ghost var before := Entries(parse, ids[..k]);
      if !IsMatrix(ids[k]) {
        other := other + [ids[k]];
        assert Entries(parse, ids[..k + 1]) == before;
      } else {
        runoutCount := runoutCount + 1;
        var e := EntryOf(parse, ids[k]);
        assert Entries(parse, ids[..k + 1]) == before + [e];
        GroupingSnoc(before, e);
        groups := AddEntry(groups, e);
      }
    }
    assert ids[..|ids|] == ids;
  }

  /** `group_runouts`; reading a description is a parameter. */
  method GroupRunouts(raw: seq<Identifier>, parse: string -> Description)
    returns (variants: seq<Variant>, other: seq<Identifier>, runoutCount: nat)
    ensures var ids := Clean(raw); var es := Entries(parse, ids);
            && variants == Result(es)
            && other == Others(ids) && runoutCount == |es|
  {
    var ids := CleanIdentifiers(raw);
    var groups;
    groups, other, runoutCount := Collect(ids, parse);
    groups := SortBy(GroupLeq, groups);
    variants := [];
    for k := 0 to |groups|
      invariant variants == PresentAll(groups)[..k]
    {
      variants := variants + [Present(groups[k])];
    }
  }

  method CleanIdentifiers(raw: seq<Identifier>) returns (ids: seq<Identifier>)
    ensures ids == Clean(raw)
  {
    ids := [];
    for k := 0 to |raw|
      invariant ids == Clean(raw[..k])
    {
      assert raw[..k + 1][..k] == raw[..k] && raw[..k + 1][k] == raw[k];
      var value := Strip(raw[k].value);
      if value != "" { ids := ids + [Identifier(Strip(raw[k].kind), value, Strip(raw[k].description))]; }
    }
    assert raw[..|raw|] == raw;
  }

  // ---------------------------------------------------------------------------
  // The reference: filters over the entries
  // ---------------------------------------------------------------------------

  /** Sides listed under a variant and an LP, in the order of the listing. */
  function SidesAt(es: seq<Entry>, variant: Option<string>, lp: int): seq<Side> {
    if es == [] then []
    else
      var e := es[|es| - 1];
      SidesAt(es[..|es| - 1], variant, lp)
      + if e.variant == variant && e.item.Sided? && e.item.lp == lp then [e.item.entry] else []
  }

  function LooseAt(es: seq<Entry>, variant: Option<string>): seq<Loose> {
    if es == [] then []
    else
      var e := es[|es| - 1];
      LooseAt(es[..|es| - 1], variant) + if e.variant == variant && e.item.Unsided? then [e.item.loose] else []
  }

  predicate UniqueLps(lps: seq<Lp>) { forall i, j :: 0 <= i < j < |lps| ==> lps[i].number != lps[j].number }

  predicate UniqueGroups(groups: seq<Group>) {
    forall i, j :: 0 <= i < j < |groups| ==> groups[i].variant != groups[j].variant
  }

  function LpNumbers(lps: seq<Lp>): set<int> { set l | l in lps :: l.number }

  function Variants(groups: seq<Group>): set<Option<string>> { set g | g in groups :: g.variant }

  /** The sides stored under an LP number; none when there is no such block. */
  function SidesOf(lps: seq<Lp>, lp: int): seq<Side> {
    if lps == [] then [] else if lps[0].number == lp then lps[0].sides else SidesOf(lps[1..], lp)
  }

  function GroupOf(groups: seq<Group>, variant: Option<string>): Group {
    if groups == [] then Group(variant, [], [])
    else if groups[0].variant == variant then groups[0] else GroupOf(groups[1..], variant)
  }

  lemma Nothing(variant: Option<string>, lp: int)
    ensures LpNumbers([]) == {} && UniqueLps([]) && Variants([]) == {} && UniqueGroups([]) && Total([]) == 0
    ensures Grouping([]) == [] && EntryVariants([]) == {} && Faithful(GroupOf([], variant), [], variant, lp)
  {}

  lemma LpsCons(l: Lp, rest: seq<Lp>)
    ensures LpNumbers([l] + rest) == {l.number} + LpNumbers(rest)
    ensures UniqueLps([l] + rest) <==> UniqueLps(rest) && l.number !in LpNumbers(rest)
    ensures forall lp :: SidesOf([l] + rest, lp) == if l.number == lp then l.sides else SidesOf(rest, lp)
  {
    var all := [l] + rest;
    assert all[1..] == rest;
    assert forall i :: 0 <= i < |rest| ==> all[i + 1] == rest[i] && rest[i].number in LpNumbers(rest);
    if UniqueLps(all) {
      forall i, j | 0 <= i < j < |rest| ensures rest[i].number != rest[j].number {
        assert all[i + 1].number != all[j + 1].number;
      }
    }
  }

  lemma {:induction false} AddSideIs(lps: seq<Lp>, lp: int, s: Side, at: int)
    ensures SidesOf(AddSide(lps, lp, s), at) == SidesOf(lps, at) + if at == lp then [s] else []
    ensures LpNumbers(AddSide(lps, lp, s)) == LpNumbers(lps) + {lp}
    ensures UniqueLps(lps) ==> UniqueLps(AddSide(lps, lp, s))
  {
    hide UniqueLps, LpNumbers;
    if lps == [] {
      Nothing(None, 0);
      LpsCons(Lp(lp, [s]), []);
      assert [Lp(lp, [s])] + [] == [Lp(lp, [s])];
    } else {
      assert lps == [lps[0]] + lps[1..];
      LpsCons(lps[0], lps[1..]);
      if lps[0].number == lp {
        LpsCons(Lp(lp, lps[0].sides + [s]), lps[1..]);
      } else {
        AddSideIs(lps[1..], lp, s, at);
        LpsCons(lps[0], AddSide(lps[1..], lp, s));
      }
    }
  }

  lemma GroupsCons(g: Group, rest: seq<Group>)
    ensures Variants([g] + rest) == {g.variant} + Variants(rest)
    ensures UniqueGroups([g] + rest) <==> UniqueGroups(rest) && g.variant !in Variants(rest)
    ensures forall v :: GroupOf([g] + rest, v) == if g.variant == v then g else GroupOf(rest, v)
  {
    var all := [g] + rest;
    assert all[1..] == rest;
    assert forall i :: 0 <= i < |rest| ==> all[i + 1] == rest[i] && rest[i].variant in Variants(rest);
    if UniqueGroups(all) {
      forall i, j | 0 <= i < j < |rest| ensures rest[i].variant != rest[j].variant {
        assert all[i + 1].variant != all[j + 1].variant;
      }
    }
  }

  lemma {:induction false} AddEntryIs(groups: seq<Group>, e: Entry, variant: Option<string>)
    ensures GroupOf(AddEntry(groups, e), variant) ==
            if variant == e.variant then AddItem(GroupOf(groups, variant), e.item) else GroupOf(groups, variant)
    ensures Variants(AddEntry(groups, e)) == Variants(groups) + {e.variant}
    ensures UniqueGroups(groups) ==> UniqueGroups(AddEntry(groups, e))
  {
    hide UniqueGroups, Variants, AddSide;
    if groups == [] {
      var g := AddItem(Group(e.variant, [], []), e.item);
      Nothing(None, 0);
      GroupsCons(g, []);
      assert [g] + [] == [g];
    } else {
      assert groups == [groups[0]] + groups[1..];
      GroupsCons(groups[0], groups[1..]);
      if groups[0].variant == e.variant {
        GroupsCons(AddItem(groups[0], e.item), groups[1..]);
      } else {
        AddEntryIs(groups[1..], e, variant);
        GroupsCons(groups[0], AddEntry(groups[1..], e));
      }
    }
  }

  function EntryVariants(es: seq<Entry>): set<Option<string>> { set e | e in es :: e.variant }

  function EntryLps(es: seq<Entry>, variant: Option<string>): set<int> {
    set e | e in es && e.variant == variant && e.item.Sided? :: e.item.lp
  }

  lemma EntriesSnoc(es: seq<Entry>, e: Entry, variant: Option<string>, lp: int)
    ensures EntryVariants(es + [e]) == EntryVariants(es) + {e.variant}
    ensures EntryLps(es + [e], variant) ==
            EntryLps(es, variant) + if e.variant == variant && e.item.Sided? then {e.item.lp} else {}
    ensures SidesAt(es + [e], variant, lp) ==
            SidesAt(es, variant, lp)
            + if e.variant == variant && e.item.Sided? && e.item.lp == lp then [e.item.entry] else []
    ensures LooseAt(es + [e], variant) ==
            LooseAt(es, variant) + if e.variant == variant && e.item.Unsided? then [e.item.loose] else []
  {
    assert (es + [e])[..|es|] == es;
  }

  /** The group of a variant, as the filters say it should be. */
  predicate Faithful(g: Group, es: seq<Entry>, variant: Option<string>, lp: int) {
    && g.variant == variant && UniqueLps(g.lps) && LpNumbers(g.lps) == EntryLps(es, variant)
    && SidesOf(g.lps, lp) == SidesAt(es, variant, lp) && g.unsided == LooseAt(es, variant)
  }

  lemma AddItemFaithful(g: Group, es: seq<Entry>, e: Entry, lp: int)
    requires Faithful(g, es, e.variant, lp)
    ensures Faithful(AddItem(g, e.item), es + [e], e.variant, lp)
  {
    EntriesSnoc(es, e, e.variant, lp);
    hide UniqueLps, LpNumbers, AddSide, SidesOf, SidesAt, LooseAt, EntryLps;
    if e.item.Sided? { AddSideIs(g.lps, e.item.lp, e.item.entry, lp); }
  }

  lemma OtherFaithful(g: Group, es: seq<Entry>, e: Entry, variant: Option<string>, lp: int)
    requires Faithful(g, es, variant, lp) && e.variant != variant
    ensures Faithful(g, es + [e], variant, lp)
  {
    EntriesSnoc(es, e, variant, lp);
    hide UniqueLps, LpNumbers, SidesOf, SidesAt, LooseAt, EntryLps;
  }

  /** Every entry is stored exactly where it belongs, in the order of the listing. */
  lemma {:induction false} GroupingIs(es: seq<Entry>, variant: Option<string>, lp: int)
    ensures UniqueGroups(Grouping(es)) && Variants(Grouping(es)) == EntryVariants(es)
    ensures Faithful(GroupOf(Grouping(es), variant), es, variant, lp)
  {
    hide *;
    if es == [] {
      Nothing(variant, lp);
    } else {
      var e, front := es[|es| - 1], es[..|es| - 1];
      var before := Grouping(front);
      GroupingIs(front, variant, lp);
      assert es == front + [e];
      GroupingSnoc(front, e);
      AddEntryIs(before, e, variant);
      EntriesSnoc(front, e, variant, lp);
      if e.variant == variant { AddItemFaithful(GroupOf(before, variant), front, e, lp); }
      else { OtherFaithful(GroupOf(before, variant), front, e, variant, lp); }
    }
  }

  // ---------------------------------------------------------------------------
  // Sorting moves blocks without touching them
  // ---------------------------------------------------------------------------

  lemma {:induction false} InsertLp(x: Lp, q: seq<Lp>, at: int)
    requires UniqueLps([x] + q)
    ensures UniqueLps(InsertBy(LpLeq, x, q)) && LpNumbers(InsertBy(LpLeq, x, q)) == LpNumbers([x] + q)
    ensures SidesOf(InsertBy(LpLeq, x, q), at) == SidesOf([x] + q, at)
    ensures SideTotal(InsertBy(LpLeq, x, q)) == |x.sides| + SideTotal(q)
  {
    hide UniqueLps, LpNumbers, SidesOf;
    LpsCons(x, q);
    assert ([x] + q)[1..] == q;
    if q != [] && !LpLeq(x, q[0]) {
      assert q == [q[0]] + q[1..];
      LpsCons(q[0], q[1..]);
      LpsCons(x, q[1..]);
      InsertLp(x, q[1..], at);
      LpsCons(q[0], InsertBy(LpLeq, x, q[1..]));
      assert ([q[0]] + InsertBy(LpLeq, x, q[1..]))[1..] == InsertBy(LpLeq, x, q[1..]);
    }
  }

  lemma {:induction false} SortLps(q: seq<Lp>, at: int)
    requires UniqueLps(q)
    ensures UniqueLps(SortBy(LpLeq, q)) && LpNumbers(SortBy(LpLeq, q)) == LpNumbers(q)
    ensures SidesOf(SortBy(LpLeq, q), at) == SidesOf(q, at) && SideTotal(SortBy(LpLeq, q)) == SideTotal(q)
  {
    if q != [] {
      hide UniqueLps, LpNumbers, SidesOf;
      var rest := SortBy(LpLeq, q[1..]);
      assert q == [q[0]] + q[1..];
      LpsCons(q[0], q[1..]);
      SortLps(q[1..], at);
      LpsCons(q[0], rest);
      InsertLp(q[0], rest, at);
    }
  }

  function SideTotal(lps: seq<Lp>): nat { if lps == [] then 0 else |lps[0].sides| + SideTotal(lps[1..]) }

  /** Number of identifiers placed in the groups. */
  function Total(groups: seq<Group>): nat {
    if groups == [] then 0 else SideTotal(groups[0].lps) + |groups[0].unsided| + Total(groups[1..])
  }

  lemma {:induction false} InsertGroup(x: Group, q: seq<Group>, at: Option<string>)
    requires UniqueGroups([x] + q)
    ensures UniqueGroups(InsertBy(GroupLeq, x, q)) && Variants(InsertBy(GroupLeq, x, q)) == Variants([x] + q)
    ensures GroupOf(InsertBy(GroupLeq, x, q), at) == GroupOf([x] + q, at)
    ensures Total(InsertBy(GroupLeq, x, q)) == Total([x]) + Total(q)
  {
    hide UniqueGroups, Variants, GroupOf, GroupLeq;
    GroupsCons(x, q);
    assert ([x] + q)[1..] == q;
    if q != [] && !GroupLeq(x, q[0]) {
      assert q == [q[0]] + q[1..];
      GroupsCons(q[0], q[1..]);
      GroupsCons(x, q[1..]);
      InsertGroup(x, q[1..], at);
      GroupsCons(q[0], InsertBy(GroupLeq, x, q[1..]));
      assert ([q[0]] + InsertBy(GroupLeq, x, q[1..]))[1..] == InsertBy(GroupLeq, x, q[1..]);
    }
  }

  lemma {:induction false} SortGroups(q: seq<Group>, at: Option<string>)
    requires UniqueGroups(q)
    ensures UniqueGroups(SortBy(GroupLeq, q)) && Variants(SortBy(GroupLeq, q)) == Variants(q)
    ensures GroupOf(SortBy(GroupLeq, q), at) == GroupOf(q, at) && Total(SortBy(GroupLeq, q)) == Total(q)
  {
    if q != [] {
      hide UniqueGroups, Variants, GroupOf;
      var rest := SortBy(GroupLeq, q[1..]);
      assert q == [q[0]] + q[1..];
      GroupsCons(q[0], q[1..]);
      SortGroups(q[1..], at);
      GroupsCons(q[0], rest);
      InsertGroup(q[0], rest, at);
    }
  }

  // ---------------------------------------------------------------------------
  // Main results
  // ---------------------------------------------------------------------------

  lemma OrdersAreOrders()
    ensures IsOrder(SideLeq) && IsOrder(LpLeq) && IsOrder(GroupLeq)
  {
    forall a: Side, b: Side ensures SideLeq(a, b) || SideLeq(b, a) { LexTotal(a.side, b.side); }
    forall a: Side, b: Side, c: Side | SideLeq(a, b) && SideLeq(b, c) ensures SideLeq(a, c) {
      if |a.side| == |b.side| == |c.side| { LexTransitive(a.side, b.side, c.side); }
    }
  }

  function Groups(vs: seq<Variant>): (out: seq<Group>)
    ensures |out| == |vs| && forall i :: 0 <= i < |vs| ==> out[i] == vs[i].group
  {
    seq(|vs|, i requires 0 <= i < |vs| => vs[i].group)
  }

  function Shown(g: Group): Group { g.(lps := SortSides(SortBy(LpLeq, g.lps))) }

  lemma {:induction false} ShownGroups(groups: seq<Group>, variant: Option<string>)
    ensures GroupOf(Groups(PresentAll(groups)), variant) == Shown(GroupOf(groups, variant))
  {
    if groups != [] {
      ShownGroups(groups[1..], variant);
      assert Groups(PresentAll(groups))[1..] == Groups(PresentAll(groups[1..]));
    }
  }

  lemma {:induction false} SidesSorted(lps: seq<Lp>, lp: int)
    ensures SidesOf(SortSides(lps), lp) == SortBy(SideLeq, SidesOf(lps, lp))
    ensures LpNumbers(SortSides(lps)) == LpNumbers(lps) && SideTotal(SortSides(lps)) == SideTotal(lps)
  {
    if lps != [] {
      SidesSorted(lps[1..], lp);
      SortByKeeps(SideLeq, lps[0].sides);
      assert SortSides(lps) == [SortSides(lps)[0]] + SortSides(lps[1..]) && lps == [lps[0]] + lps[1..];
      LpsCons(SortSides(lps)[0], SortSides(lps[1..]));
      LpsCons(lps[0], lps[1..]);
    }
  }

  predicate Increasing(lps: seq<Lp>) { forall i, j :: 0 <= i < j < |lps| ==> lps[i].number < lps[j].number }

  lemma LpsIncrease(q: seq<Lp>)
    requires UniqueLps(q)
    ensures Increasing(SortSides(SortBy(LpLeq, q)))
  {
    OrdersAreOrders();
    SortLps(q, 0);
    if q != [] { SortByIsStable(LpLeq, q, q[0]); }
    var s := SortBy(LpLeq, q);
    assert IsSortedBy(LpLeq, s) && UniqueLps(s);
    forall i, j | 0 <= i < j < |s| ensures s[i].number < s[j].number { assert LpLeq(s[i], s[j]); }
  }

  lemma ShownIs(g: Group, es: seq<Entry>, variant: Option<string>, lp: int)
    requires Faithful(g, es, variant, lp)
    ensures var h := Shown(g);
            && h.variant == variant && Increasing(h.lps) && LpNumbers(h.lps) == EntryLps(es, variant)
            && SidesOf(h.lps, lp) == SortBy(SideLeq, SidesAt(es, variant, lp)) && h.unsided == LooseAt(es, variant)
  {
    hide UniqueLps, LpNumbers, SidesOf, Increasing, SidesAt, LooseAt, EntryLps;
    SortLps(g.lps, lp);
    SidesSorted(SortBy(LpLeq, g.lps), lp);
    LpsIncrease(g.lps);
  }

  /** The grouped variants that `GroupRunouts` returns for these entries. */
  function Result(es: seq<Entry>): seq<Variant> {
    PresentAll(SortBy(GroupLeq, Grouping(es)))
  }

  lemma {:induction false} AddSideTotal(lps: seq<Lp>, lp: int, s: Side)
    ensures SideTotal(AddSide(lps, lp, s)) == SideTotal(lps) + 1
  {
    if lps != [] && lps[0].number != lp { AddSideTotal(lps[1..], lp, s); }
  }

  lemma TotalCons(g: Group, rest: seq<Group>)
    ensures Total([g] + rest) == SideTotal(g.lps) + |g.unsided| + Total(rest)
  {
    assert ([g] + rest)[1..] == rest;
  }

  lemma AddItemTotal(g: Group, item: Item)
    ensures var h := AddItem(g, item); SideTotal(h.lps) + |h.unsided| == SideTotal(g.lps) + |g.unsided| + 1
  {
    if item.Sided? { AddSideTotal(g.lps, item.lp, item.entry); }
  }

  lemma {:induction false} AddEntryTotal(groups: seq<Group>, e: Entry)
    ensures Total(AddEntry(groups, e)) == Total(groups) + 1
  {
    hide Total, AddItem;
    if groups == [] {
      var g := AddItem(Group(e.variant, [], []), e.item);
      AddItemTotal(Group(e.variant, [], []), e.item);
      TotalCons(g, []);
      assert [g] + [] == [g];
      Nothing(None, 0);
    } else {
      assert groups == [groups[0]] + groups[1..];
      TotalCons(groups[0], groups[1..]);
      if groups[0].variant == e.variant {
        AddItemTotal(groups[0], e.item);
        TotalCons(AddItem(groups[0], e.item), groups[1..]);
      } else {
        AddEntryTotal(groups[1..], e);
        TotalCons(groups[0], AddEntry(groups[1..], e));
      }
    }
  }

  lemma {:induction false} GroupingTotal(es: seq<Entry>)
    ensures Total(Grouping(es)) == |es|
  {
    if es != [] {
      GroupingTotal(es[..|es| - 1]);
      AddEntryTotal(Grouping(es[..|es| - 1]), es[|es| - 1]);
    }
  }

  lemma ShownCons(g: Group, rest: seq<Group>)
    ensures Groups(PresentAll([g] + rest)) == [Shown(g)] + Groups(PresentAll(rest))
    ensures Groups(PresentAll([])) == [] && Shown(g).variant == g.variant
  {}

  lemma ShownSize(g: Group)
    requires UniqueLps(g.lps)
    ensures SideTotal(Shown(g).lps) == SideTotal(g.lps) && |Shown(g).unsided| == |g.unsided|
  {
    SortLps(g.lps, 0);
    SidesSorted(SortBy(LpLeq, g.lps), 0);
  }

  lemma {:induction false} ShownTotal(groups: seq<Group>)
    requires forall g :: g in groups ==> UniqueLps(g.lps)
    ensures Total(Groups(PresentAll(groups))) == Total(groups)
    ensures Variants(Groups(PresentAll(groups))) == Variants(groups)
  {
    hide *;
    if groups == [] {
      ShownCons(Group(None, [], []), []);
    } else {
      var g, rest := groups[0], groups[1..];
      ShownTotal(rest);
      ShownSize(g);
      ShownCons(g, rest);
      assert groups == [g] + rest;
      GroupsCons(g, rest);
      TotalCons(g, rest);
      GroupsCons(Shown(g), Groups(PresentAll(rest)));
      TotalCons(Shown(g), Groups(PresentAll(rest)));
    }
  }

  lemma {:induction false} MemberIsGroupOf(groups: seq<Group>, i: nat)
    requires UniqueGroups(groups) && i < |groups|
    ensures GroupOf(groups, groups[i].variant) == groups[i]
  {
    if i > 0 {
      assert groups[1..][i - 1] == groups[i];
      MemberIsGroupOf(groups[1..], i - 1);
    }
  }

  lemma GroupsAreUnique(es: seq<Entry>)
    ensures forall g :: g in SortBy(GroupLeq, Grouping(es)) ==> UniqueLps(g.lps)
  {
    var sorted := SortBy(GroupLeq, Grouping(es));
    forall i | 0 <= i < |sorted| ensures UniqueLps(sorted[i].lps) {
      var v := sorted[i].variant;
      GroupingIs(es, v, 0);
      SortGroups(Grouping(es), v);
      MemberIsGroupOf(sorted, i);
    }
  }

  /** Every matrix identifier stands exactly once under its variant and slot: for any variant and LP number the
      sides shown are those listed there, stably sorted by length and text; loose entries keep their order; the
      LPs of a variant increase strictly and are just those listed. */
  lemma SidesAreStablySorted(es: seq<Entry>, variant: Option<string>, lp: int, like: Side)
    ensures var g := GroupOf(Groups(Result(es)), variant);
            var sides := SidesOf(g.lps, lp);
            && multiset(sides) == multiset(SidesAt(es, variant, lp)) && IsSortedBy(SideLeq, sides)
            && Ties(SideLeq, like, sides) == Ties(SideLeq, like, SidesAt(es, variant, lp))
            && Increasing(g.lps) && LpNumbers(g.lps) == EntryLps(es, variant) && g.unsided == LooseAt(es, variant)
  {
    hide *;
    var groups := Grouping(es);
    ResultIs(es, variant);
    GroupingIs(es, variant, lp);
    SortGroups(groups, variant);
    ShownIs(GroupOf(groups, variant), es, variant, lp);
    OrdersAreOrders();
    SortByIsStable(SideLeq, SidesAt(es, variant, lp), like);
  }

  lemma BlocksAreListed(es: seq<Entry>)
    ensures var vs := Result(es); Variants(Groups(vs)) == EntryVariants(es) && Total(Groups(vs)) == |es|
  {
    hide *;
    GroupingIs(es, None, 0);
    SortGroups(Grouping(es), None);
    GroupingTotal(es);
    GroupsAreUnique(es);
    ShownTotal(SortBy(GroupLeq, Grouping(es)));
    ResultIs(es, None);
  }

  lemma ResultIs(es: seq<Entry>, variant: Option<string>)
    ensures var groups := SortBy(GroupLeq, Grouping(es));
            && Result(es) == PresentAll(groups) && |Result(es)| == |groups|
            && (forall i :: 0 <= i < |groups| ==> Result(es)[i].group.variant == groups[i].variant)
            && GroupOf(Groups(Result(es)), variant) == Shown(GroupOf(groups, variant))
  {
    ShownGroups(SortBy(GroupLeq, Grouping(es)), variant);
  }

  /** A numbered variant stands before a different one with no smaller number, or before the unnumbered one. */
  predicate Precedes(a: Option<string>, b: Option<string>) {
    a.Some? && a != b && (b.Some? ==> Rank(a).1 <= Rank(b).1)
  }

  predicate InOrder(vs: seq<Variant>) {
    forall i, j :: 0 <= i < j < |vs| ==> Precedes(vs[i].group.variant, vs[j].group.variant)
  }

  /** One block per listed variant, by number with the unnumbered block last, and the blocks hold as many
      identifiers as were counted. */
  lemma VariantsAreOrdered(es: seq<Entry>)
    requires forall e :: e in es && e.variant.Some? ==> AllDigits(e.variant.value)
    ensures var vs := Result(es);
            InOrder(vs) && Variants(Groups(vs)) == EntryVariants(es) && Total(Groups(vs)) == |es|
  {
    hide Result, Grouping, SortBy, Total, EntryVariants, Variants;
    BlocksAreListed(es);
    SortedGroups(es);
    ResultIs(es, None);
    var s, vs := SortBy(GroupLeq, Grouping(es)), Result(es);
    forall i, j | 0 <= i < j < |vs|
      ensures Precedes(vs[i].group.variant, vs[j].group.variant)
    {
      assert vs[i].group.variant == s[i].variant && vs[j].group.variant == s[j].variant;
      RankOf(es, s[i]);
      RankOf(es, s[j]);
    }
  }

  lemma SortedGroups(es: seq<Entry>)
    ensures var s := SortBy(GroupLeq, Grouping(es));
            && (forall i, j :: 0 <= i < j < |s| ==> RankLeq(Rank(s[i].variant), Rank(s[j].variant)))
            && (forall i :: 0 <= i < |s| ==> s[i].variant in EntryVariants(es)) && UniqueGroups(s)
  {
    OrdersAreOrders();
    var groups := Grouping(es);
    var s := SortBy(GroupLeq, groups);
    if groups != [] { SortByIsStable(GroupLeq, groups, groups[0]); }
    GroupingIs(es, None, 0);
    SortGroups(groups, None);
    assert forall i, j :: 0 <= i < j < |s| ==> GroupLeq(s[i], s[j]);
    assert forall i :: 0 <= i < |s| ==> s[i].variant in Variants(s);
  }

  lemma RankOf(es: seq<Entry>, g: Group)
    requires forall e :: e in es && e.variant.Some? ==> AllDigits(e.variant.value)
    requires g.variant in EntryVariants(es)
    ensures Rank(g.variant).0 == if g.variant.Some? then 0 else 1
  {}

  /** Every cleaned identifier is either placed or listed under "other". */
  lemma {:induction false} NothingDropped(parse: string -> Description, ids: seq<Identifier>)
    ensures |Entries(parse, ids)| + |Others(ids)| == |ids|
    ensures forall i :: i in Others(ids) <==> i in ids && Lower(i.kind) != "matrix / runout"
  {
    if ids != [] {
      NothingDropped(parse, ids[..|ids| - 1]);
      assert ids == ids[..|ids| - 1] + [ids[|ids| - 1]];
    }
  }

  // ---------------------------------------------------------------------------
  // Single identifiers
  // ---------------------------------------------------------------------------

  /** Cleaning strips every part, drops identifiers without a value and keeps the others in order. */
  lemma {:induction false} CleanedExactly(p: seq<Identifier>, q: seq<Identifier>, one: Identifier)
    ensures Clean([]) == [] && Clean(p + q) == Clean(p) + Clean(q)
    ensures Clean([one]) == if Strip(one.value) == "" then []
                            else [Identifier(Strip(one.kind), Strip(one.value), Strip(one.description))]
    decreases |q|
  {
    hide Strip;
    assert [one][..0] == [];
    if q == [] {
      assert p + q == p;
    } else {
      var n := |q| - 1;
      CleanedExactly(p, q[..n], one);
      assert (p + q)[..|p + q| - 1] == p + q[..n];
    }
  }

  lemma DigitsStay(s: string)
    requires s != "" && AllDigits(s)
    ensures Strip(s) == s && Upper(s) == s && !('A' <= s[0] <= 'Z')
  {
    assert IsDigit(s[0]) && IsDigit(s[|s| - 1]);
    assert StripLeft(s) == s && StripRight(s) == s;
  }

  /** Sides that are numbers: odd ones are the front of an LP, even ones its back; zero is no side. */
  lemma SidesByNumber(s: string)
    requires s != "" && AllDigits(s)
    ensures SideToLp(s) ==
            if Value(s) == 0 then None else Some(((Value(s) + 1) / 2, if Value(s) % 2 == 1 then 'A' else 'B'))
  {
    DigitsStay(s);
    hide Strip, Upper, Value, AllDigits;
    Halves(Value(s));
  }

  lemma Halves(n: nat)
    ensures n > 0 ==> Slot(n - 1) == ((n + 1) / 2, if n % 2 == 1 then 'A' else 'B')
  {}

  lemma UpperStays(s: string)
    ensures Upper(Upper(s)) == Upper(s)
    ensures AllDigits(Upper(s)) ==> Upper(s) == s
  {
    if AllDigits(Upper(s)) {
      assert forall i :: 0 <= i < |s| ==> IsDigit(Upper(s)[i]);
    }
  }

  /** Nothing else is a side: neither several letters nor none, nor another sign; small letters are as capital ones. */
  lemma OtherSides(s: string)
    requires Strip(s) == s && !AllDigits(s)
    ensures |s| != 1 ==> SideToLp(s) == None
    ensures |s| == 1 && !('A' <= s[0] <= 'Z') && !('a' <= s[0] <= 'z') ==> SideToLp(s) == None
    ensures |s| == 1 && Strip(Upper(s)) == Upper(s) ==> SideToLp(s) == SideToLp(Upper(s))
  {
    UpperStays(s);
    hide Strip, AllDigits, Value;
  }

  /** A matrix identifier whose description names a side of LP `lp` stands there; one that names none is loose, with its
      note or else its description. */
  lemma PlacedBySide(parse: string -> Description, i: Identifier, lp: int)
    requires 1 <= lp <= 13
    ensures var d, (a, b) := parse(i.description), LpLetters(lp);
            && EntryOf(parse, i).variant == d.variant
            && (d.side == Some([a]) ==> EntryOf(parse, i).item == Sided(lp, Side([a], 'A', i.value, d.note)))
            && (d.side == Some([b]) ==> EntryOf(parse, i).item == Sided(lp, Side([b], 'B', i.value, d.note)))
            && (d.side == None || d.side == Some("") ==>
                  EntryOf(parse, i).item == Unsided(Loose(i.value, if d.note == "" then i.description else d.note)))
  {
    SidesRoundTrip(lp);
    hide SideToLp;
  }

  predicate SaysLabel(note: string) { Contains(Lower(note), "label") }

  /** All entries of the group are described as label matrices. */
  predicate LabelsOnly(g: Group) {
    && (forall i, j :: 0 <= i < |g.lps| && 0 <= j < |g.lps[i].sides| ==> SaysLabel(g.lps[i].sides[j].note))
    && (forall i :: 0 <= i < |g.unsided| ==> SaysLabel(g.unsided[i].note))
  }

  predicate HasEntries(g: Group) {
    g.unsided != [] || exists i :: 0 <= i < |g.lps| && g.lps[i].sides != []
  }

  lemma {:induction false} NotesOfLps(lps: seq<Lp>, n: string)
    ensures n in LpNotes(lps) <==> exists i, j :: 0 <= i < |lps| && 0 <= j < |lps[i].sides| && lps[i].sides[j].note == n
    ensures LpNotes(lps) != [] <==> exists i :: 0 <= i < |lps| && lps[i].sides != []
  {
    if lps != [] {
      NotesOfLps(lps[1..], n);
      var first := SideNotes(lps[0].sides);
      if n in first {
        var j :| 0 <= j < |first| && first[j] == n;
        assert lps[0].sides[j].note == n;
      }
      if i, j :| 0 <= i < |lps[1..]| && 0 <= j < |lps[1..][i].sides| && lps[1..][i].sides[j].note == n {
        assert lps[i + 1].sides[j].note == n;
      }
      if i, j :| 0 <= i < |lps| && 0 <= j < |lps[i].sides| && lps[i].sides[j].note == n {
        if i == 0 { assert first[j] == n; } else { assert lps[1..][i - 1].sides[j].note == n; }
      }
      if i :| 0 <= i < |lps[1..]| && lps[1..][i].sides != [] { assert lps[i + 1].sides != []; }
      if i :| 0 <= i < |lps| && lps[i].sides != [] {
        if i > 0 { assert lps[1..][i - 1].sides != []; } else { assert first != []; }
      }
    }
  }

  /** The title of a variant: its number, or whether it holds label matrices only. */
  lemma LabelExactly(g: Group)
    ensures g.variant.Some? ==> Label(g) == "Variant " + g.variant.value
    ensures g.variant.None? ==> Label(g) == if HasEntries(g) && LabelsOnly(g) then "Label" else "Unnumbered"
  {
    hide Contains, Lower, LpNotes;
    NotesOfLps(g.lps, "");
    forall n ensures n in LpNotes(g.lps)
                     <==> exists i, j :: 0 <= i < |g.lps| && 0 <= j < |g.lps[i].sides| && g.lps[i].sides[j].note == n
    {
      NotesOfLps(g.lps, n);
    }
    var loose := LooseNotes(g.unsided);
    if LabelsOnly(g) {
      forall n | n in Notes(g) ensures SaysLabel(n) {
        if n in loose { var i :| 0 <= i < |loose| && loose[i] == n; }
      }
    }
    if forall n :: n in Notes(g) ==> SaysLabel(n) {
      forall i, j | 0 <= i < |g.lps| && 0 <= j < |g.lps[i].sides| ensures SaysLabel(g.lps[i].sides[j].note) {
        assert g.lps[i].sides[j].note in Notes(g);
      }
      forall i | 0 <= i < |g.unsided| ensures SaysLabel(g.unsided[i].note) { assert loose[i] in Notes(g); }
    }
  }
}
