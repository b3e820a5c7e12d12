/** Walking the elements of a WebM file: EBML variable-size integers and element headers
    (RFC 8794 sections 4, 5, 6.1 and 6.2). */
module Ebml {
  import opened Wrappers
  import opened Bytes

  const CLUSTER := 0x1F43B675

  /** 0x80 >> (length - 1): the marker bit of a `length`-byte integer. */
  function Marker(length: nat): (m: nat)
    requires 1 <= length <= 8
    ensures 1 <= m <= 128
  {
    match length
    case 1 => 128 case 2 => 64 case 3 => 32 case 4 => 16 case 5 => 8 case 6 => 4 case 7 => 2 case 8 => 1
  }

  /** Length announced by a first byte: the position of its highest set bit; 9 for a zero byte. */
  function LengthOf(first: byte): (n: nat)
    ensures 1 <= n <= 9
    ensures n <= 8 ==> Marker(n) <= first < 2 * Marker(n)
    ensures n == 9 ==> first == 0
  {
    if first >= 128 then 1 else if first >= 64 then 2 else if first >= 32 then 3 else if first >= 16 then 4
    else if first >= 8 then 5 else if first >= 4 then 6 else if first >= 2 then 7 else if first >= 1 then 8 else 9
  }

  function VintLength(data: seq<byte>, pos: nat): (r: Option<nat>)
    ensures r.Some? ==> 1 <= r.value <= 8 && pos + r.value <= |data|
  {
    if pos >= |data| then None
    else
      var n := LengthOf(data[pos]);
      if n > 8 || pos + n > |data| then None else Some(n)
  }

  /** The loop of `_vint_length`: test the marker bits from the highest down. */
  method ReadVintLength(data: seq<byte>, pos: nat) returns (r: Option<nat>)
    ensures r == VintLength(data, pos)
  {
    if pos >= |data| { return None; }
    var first := data[pos];
    var length := 1;
    while length <= 8 && (first / Marker(length)) % 2 == 0
      invariant 1 <= length <= 9
      invariant length <= 8 ==> first < 2 * Marker(length)
      invariant length == 9 ==> first == 0
      invariant forall k :: 1 <= k < length ==> first < Marker(k)
    {
      length := length + 1;
    }
    if length <= 8 { assert first >= Marker(length); }
    assert length == LengthOf(first);
    if length > 8 || pos + length > |data| { return None; }
    r := Some(length);
  }

  function Pow128(n: nat): (p: nat)
    ensures p >= 1
  {
    if n == 0 then 1 else 128 * Pow128(n - 1)
  }

  /** Element id with its marker bit, and the position after it. */
  function ElementId(data: seq<byte>, pos: nat): (r: Option<(nat, nat)>)
    ensures r.Some? ==> pos + 1 <= r.value.1 <= pos + 8 && r.value.1 <= |data|
  {
    match VintLength(data, pos)
    case None => None
    case Some(n) => Some((FromBE(data[pos..pos + n]), pos + n))
  }

  /** Element size (None: unknown) without its marker bit, and the position after it. */
  function ElementSize(data: seq<byte>, pos: nat): (r: Option<(Option<nat>, nat)>)
    ensures r.Some? ==> pos + 1 <= r.value.1 <= pos + 8 && r.value.1 <= |data|
  {
    match VintLength(data, pos)
    case None => None
    case Some(n) =>
      var value := FromBE(data[pos..pos + n]) % Pow128(n);
      Some((if value == Pow128(n) - 1 then None else Some(value), pos + n))
  }

  /** What the walker yields: id, start and end of the payload. */
  datatype Element = Element(id: nat, payload: nat, end: nat)

  datatype Walk = Walk(elements: seq<Element>, ok: bool)

  /** The element whose header is at `pos`: the element itself and whether its size is unknown; None
      when the header cannot be read or a known payload passes `end`. */
  function ElementAt(data: seq<byte>, pos: nat, end: nat): (r: Option<(Element, bool)>)
    requires pos < end <= |data|
    ensures r.Some? ==> var (x, unknown) := r.value;
              && pos + 2 <= x.payload <= pos + 16 && x.payload <= |data| && pos < x.end <= end
              && (unknown ==> x.end == end) && (!unknown ==> x.payload <= x.end)
  {
    match ElementId(data, pos)
    case None => None
    case Some((id, afterId)) =>
      match ElementSize(data, afterId)
      case None => None
      case Some((size, payload)) =>
        if size.Some? && payload + size.value > end then None
        else Some((Element(id, payload, if size.None? then end else payload + size.value), size.None?))
  }

  /** The header at `pos` is readable and is that of a cluster. */
  predicate ClusterAt(data: seq<byte>, pos: nat) {
    var id := ElementId(data, pos);
    id.Some? && id.value.0 == CLUSTER && ElementSize(data, id.value.1).Some?
  }

  function Elements(data: seq<byte>, pos: nat, end: nat): Walk
    requires end <= |data|
    decreases end - pos
  {
    if pos >= end || ClusterAt(data, pos) then Walk([], true)
    else match ElementAt(data, pos, end)
      case None => Walk([], false)
      case Some((x, _)) =>
        var rest := Elements(data, x.end, end);
        Walk([x] + rest.elements, rest.ok)
  }

  /** The loop of `_elements`; what it yielded before raising is returned with `ok` false. */
  method WalkElements(data: seq<byte>, start: nat, end: nat) returns (elements: seq<Element>, ok: bool)
    requires end <= |data|
    ensures Walk(elements, ok) == Elements(data, start, end)
  {
    hide FromBE;
    hide VintLength;
    elements := [];
    var pos := start;
    while pos < end
      invariant Elements(data, start, end) == var r := Elements(data, pos, end); Walk(elements + r.elements, r.ok)
      decreases end - pos
    {
      var id := ElementId(data, pos);
      if id.None? { return elements, false; }
      var size := ElementSize(data, id.value.1);
      if size.None? { return elements, false; }
      if id.value.0 == CLUSTER { return elements, true; }
      var payload := size.value.1;
      var payloadEnd := if size.value.0.None? then end else payload + size.value.0.value;
      if payloadEnd > end { return elements, false; }
      ghost var before, rest := elements, Elements(data, payloadEnd, end).elements;
      elements := elements + [Element(id.value.0, payload, payloadEnd)];
      assert before + ([Element(id.value.0, payload, payloadEnd)] + rest) == elements + rest;
      pos := payloadEnd;
    }
    ok := true;
  }

  // ---------------------------------------------------------------------------
  // Arbitrary bytes
  // ---------------------------------------------------------------------------

  function LastEnd(xs: seq<Element>, start: nat): nat {
    if xs == [] then start else xs[|xs| - 1].end
  }

  /** Element i begins where element i - 1 ended, makes strict progress, keeps its end within `end` and
      its header within the data, is no cluster, and has its payload in order unless it is the last
      one, of unknown size, whose header overran `end`. */
  predicate Chain(data: seq<byte>, xs: seq<Element>, start: nat, end: nat)
    requires end <= |data|
  {
    forall i :: 0 <= i < |xs| ==>
      var begin := LastEnd(xs[..i], start);
      && begin + 2 <= xs[i].payload <= begin + 16 && xs[i].payload <= |data|
      && begin < xs[i].end <= end && !ClusterAt(data, begin)
      && (xs[i].payload <= xs[i].end || (i == |xs| - 1 && xs[i].end == end))
  }

  lemma PrependElement(data: seq<byte>, x: Element, rest: seq<Element>, start: nat, end: nat)
    requires end <= |data| && Chain(data, rest, x.end, end) && !ClusterAt(data, start)
    requires start + 2 <= x.payload <= start + 16 && x.payload <= |data| && start < x.end <= end
    requires x.payload <= x.end || (rest == [] && x.end == end)
    ensures Chain(data, [x] + rest, start, end) && LastEnd([x] + rest, start) == LastEnd(rest, x.end)
  {
    hide ClusterAt;
    var all := [x] + rest;
    forall i | 0 <= i < |all|
      ensures var begin := LastEnd(all[..i], start);
              && begin + 2 <= all[i].payload <= begin + 16 && all[i].payload <= |data|
              && begin < all[i].end <= end && !ClusterAt(data, begin)
              && (all[i].payload <= all[i].end || (i == |all| - 1 && all[i].end == end))
    {
      if i > 0 {
        assert all[i] == rest[i - 1] && all[..i] == [x] + rest[..i - 1];
      }
    }
  }

  /** On any bytes the walk makes strict progress, stays within `end` and the data, and stops at the
      first cluster: it ends normally exactly when it has used everything up to `end` or stands at a
      cluster, and raises exactly at an unreadable or overlong element. */
  lemma {:induction false} ElementsChain(data: seq<byte>, start: nat, end: nat)
    requires start <= end <= |data|
    ensures var w := Elements(data, start, end);
            var stop := LastEnd(w.elements, start);
            && Chain(data, w.elements, start, end) && start <= stop <= end
            && (w.ok <==> stop == end || ClusterAt(data, stop))
            && (!w.ok ==> stop < end && ElementAt(data, stop, end) == None)
    decreases end - start
  {
    hide ClusterAt;
    hide ElementId;
    hide ElementSize;
    if start < end && !ClusterAt(data, start) && ElementAt(data, start, end).Some? {
      var x := ElementAt(data, start, end).value.0;
      var r := Elements(data, x.end, end);
      assert Elements(data, start, end) == Walk([x] + r.elements, r.ok);
      ElementsChain(data, x.end, end);
      PrependElement(data, x, r.elements, start, end);
    }
  }

  // ---------------------------------------------------------------------------
  // Round trip
  // ---------------------------------------------------------------------------

  /** `v` written on `n` bytes: the marker bit followed by 7n bits. */
  function Vint(v: nat, n: nat): (s: seq<byte>)
    ensures |s| == n
  {
    ToBE(Pow128(n) + v, n)
  }

  lemma Powers(n: nat)
    requires 1 <= n <= 8
    ensures Pow128(n) == Marker(n) * Pow256(n - 1) && 2 * Pow128(n) <= Pow256(n)
  {
    assert Pow128(1) == 128 && Pow128(2) == 0x4000 && Pow128(3) == 0x20_0000 && Pow128(4) == 0x1000_0000;
    assert Pow128(5) == 0x8_0000_0000 && Pow128(6) == 0x400_0000_0000 && Pow128(7) == 0x2_0000_0000_0000
           && Pow128(8) == 0x100_0000_0000_0000;
    assert Pow256(1) == 256 && Pow256(2) == 0x1_0000 && Pow256(3) == 0x100_0000 && Pow256(4) == 0x1_0000_0000;
    assert Pow256(5) == 0x100_0000_0000 && Pow256(6) == 0x1_0000_0000_0000 && Pow256(7) == 0x100_0000_0000_0000
           && Pow256(8) == 0x1_0000_0000_0000_0000;
  }

  /** The first byte of a written integer announces its length. */
  lemma VintAnnouncesLength(v: nat, n: nat)
    requires 1 <= n <= 8 && v < Pow128(n)
    ensures LengthOf(Vint(v, n)[0]) == n && FromBE(Vint(v, n)) == Pow128(n) + v
  {
    hide *;
    var x := Pow128(n) + v;
    Powers(n);
    VintIs(v, n);
    LeadingByte(x, n);
    FromToBE(x, n);
    var first: int, p := ToBE(x, n)[0], Pow256(n - 1);
    assert 2 * (Marker(n) * p) == (2 * Marker(n)) * p;
    Cancel(Marker(n), first + 1, p);
    Cancel(first, 2 * Marker(n), p);
    LengthIsUnique(first, n);
  }

  lemma VintIs(v: nat, n: nat)
    ensures Vint(v, n) == ToBE(Pow128(n) + v, n) && |Vint(v, n)| == n
  {}

  lemma LengthIsUnique(first: byte, n: nat)
    requires 1 <= n <= 8 && Marker(n) <= first < 2 * Marker(n)
    ensures LengthOf(first) == n
  {}

  lemma VintReadsBack(data: seq<byte>, pos: nat, v: nat, n: nat)
    requires 1 <= n <= 8 && v < Pow128(n) && pos + n <= |data| && data[pos..pos + n] == Vint(v, n)
    ensures VintLength(data, pos) == Some(n) && FromBE(data[pos..pos + n]) == Pow128(n) + v
  {
    VintAnnouncesLength(v, n);
    assert data[pos] == data[pos..pos + n][0];
  }

  /** Every size below 2^(7n) - 1 written on n bytes (1 to 8) decodes to itself, all ones decodes to
      "unknown", and exactly n bytes are consumed, wherever it stands. */
  lemma SizeRoundTrip(data: seq<byte>, pos: nat, v: nat, n: nat)
    requires 1 <= n <= 8 && v < Pow128(n) && pos + n <= |data| && data[pos..pos + n] == Vint(v, n)
    ensures ElementSize(data, pos) == Some((if v == Pow128(n) - 1 then None else Some(v), pos + n))
  {
    hide Pow128, Vint, VintLength, FromBE;
    VintReadsBack(data, pos, v, n);
    SmallMod(v, Pow128(n));
  }

  lemma SmallMod(v: nat, p: nat)
    requires v < p
    ensures (p + v) % p == v
  {}

  lemma IdRoundTrip(data: seq<byte>, pos: nat, v: nat, n: nat)
    requires 1 <= n <= 8 && v < Pow128(n) && pos + n <= |data| && data[pos..pos + n] == Vint(v, n)
    ensures ElementId(data, pos) == Some((Pow128(n) + v, pos + n))
  {
    VintReadsBack(data, pos, v, n);
  }

  /** An element to write: id number and width, size width, unknown size or not, content. */
  datatype Node = Node(id: nat, idWidth: nat, sizeWidth: nat, unknown: bool, content: seq<byte>) {
    /** The id as it is read, with the marker bit. */
    function Id(): nat { Pow128(idWidth) + id }

    predicate Encodable() {
      && 1 <= idWidth <= 8 && id < Pow128(idWidth) && 1 <= sizeWidth <= 8
      && (!unknown ==> |content| < Pow128(sizeWidth) - 1)
    }

    function SizeField(): seq<byte> {
      Vint(if unknown then Pow128(sizeWidth) - 1 else |content|, sizeWidth)
    }

    function Bytes(): seq<byte> { Vint(id, idWidth) + SizeField() + content }
  }

  function Serialize(ns: seq<Node>): seq<byte> {
    if ns == [] then [] else ns[0].Bytes() + Serialize(ns[1..])
  }

  /** Every element is encodable, and only the last one may leave its size unknown. */
  predicate EncodableAll(ns: seq<Node>) {
    ns == [] || (ns[0].Encodable() && (ns[0].unknown ==> |ns| == 1) && EncodableAll(ns[1..]))
  }

  /** The elements a reader should see when `ns` is written at offset `at`: those before a cluster. */
  function Layout(ns: seq<Node>, at: nat): seq<Element> {
    if ns == [] || ns[0].Id() == CLUSTER then []
    else
      var n := ns[0];
      var end := at + n.idWidth + n.sizeWidth + |n.content|;
      [Element(n.Id(), at + n.idWidth + n.sizeWidth, end)] + Layout(ns[1..], end)
  }

  /** The first of the written elements is read back, with its content and what follows. */
  lemma ElementReadsBack(data: seq<byte>, at: nat, end: nat, n: Node, rest: seq<byte>)
    requires at <= end <= |data| && data[at..end] == n.Bytes() + rest && n.Encodable() && (n.unknown ==> rest == [])
    ensures var payload := at + n.idWidth + n.sizeWidth;
            var next := payload + |n.content|;
            && at < next <= end && data[payload..next] == n.content && data[next..end] == rest
            && (ClusterAt(data, at) <==> n.Id() == CLUSTER)
            && ElementAt(data, at, end) == Some((Element(n.Id(), payload, next), n.unknown))
  {
    hide *;
    var v := if n.unknown then Pow128(n.sizeWidth) - 1 else |n.content|;
    var payload := at + n.idWidth + n.sizeWidth;
    ElementParts(n, rest);
    VintIs(n.id, n.idWidth);
    VintIs(v, n.sizeWidth);
    Parts(data, at, end, Vint(n.id, n.idWidth), Vint(v, n.sizeWidth), n.content, rest);
    IdRoundTrip(data, at, n.id, n.idWidth);
    SizeRoundTrip(data, at + n.idWidth, v, n.sizeWidth);
    HeaderFrom(data, at, end, n.Id(), at + n.idWidth, if n.unknown then None else Some(|n.content|), payload);
  }

  lemma ElementParts(n: Node, rest: seq<byte>)
    requires n.Encodable()
    ensures var v := if n.unknown then Pow128(n.sizeWidth) - 1 else |n.content|;
            && n.Bytes() + rest == Vint(n.id, n.idWidth) + Vint(v, n.sizeWidth) + n.content + rest
            && v < Pow128(n.sizeWidth) && (v == Pow128(n.sizeWidth) - 1 <==> n.unknown)
    ensures n.Id() == Pow128(n.idWidth) + n.id
    ensures 1 <= n.idWidth <= 8 && n.id < Pow128(n.idWidth) && 1 <= n.sizeWidth <= 8
  {
    hide Vint;
    hide Pow128;
  }

  /** Id and size read at `pos` determine the element. */
  lemma HeaderFrom(data: seq<byte>, pos: nat, end: nat, id: nat, afterId: nat, size: Option<nat>, payload: nat)
    requires pos < end <= |data|
    requires ElementId(data, pos) == Some((id, afterId)) && ElementSize(data, afterId) == Some((size, payload))
    requires size.Some? ==> payload + size.value <= end
    ensures ClusterAt(data, pos) <==> id == CLUSTER
    ensures ElementAt(data, pos, end)
            == Some((Element(id, payload, if size.None? then end else payload + size.value), size.None?))
  {
    hide ElementId;
    hide ElementSize;
  }

  /** Reading written elements yields exactly the elements written up to the first cluster, for every
      mix of id and size widths, wherever in the file they are. */
  lemma {:induction false} ElementsRoundTrip(data: seq<byte>, at: nat, end: nat, ns: seq<Node>)
    requires at <= end <= |data| && data[at..end] == Serialize(ns) && EncodableAll(ns)
    ensures Elements(data, at, end) == Walk(Layout(ns, at), true)
    decreases |ns|
  {
    hide ElementAt;
    hide ClusterAt;
    hide Node.Encodable;
    hide Node.Id;
    if ns != [] {
      assert ns[0].unknown ==> Serialize(ns[1..]) == [];
      ElementReadsBack(data, at, end, ns[0], Serialize(ns[1..]));
      var next := at + ns[0].idWidth + ns[0].sizeWidth + |ns[0].content|;
      if ns[0].Id() != CLUSTER { ElementsRoundTrip(data, next, end, ns[1..]); }
    }
  }
}
