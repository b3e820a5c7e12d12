/** Walking the boxes of an MP4 file (ISO/IEC 14496-12 section 4.2). */
module Mp4 {
  import opened Wrappers
  import opened Bytes

  /** What the walker yields: type, start of the payload, end of the box. */
  datatype Box = Box(kind: seq<byte>, payload: nat, end: nat)

  /** All boxes yielded, and whether the walk ended without raising "corrupt". */
  datatype Walk = Walk(boxes: seq<Box>, ok: bool)

  /** Header of the box at `pos`: its total size and the header length; None when it is corrupt. */
  function HeaderAt(data: seq<byte>, pos: nat, end: nat): Option<(nat, nat)>
    requires pos + 8 <= end <= |data|
  {
    var size := FromBE(data[pos..pos + 4]);
    if size == 1 && pos + 16 > end then None
    else
      var total := if size == 1 then FromBE(data[pos + 8..pos + 16]) else if size == 0 then end - pos else size;
      var header := if size == 1 then 16 else 8;
      if total < header || pos + total > end then None else Some((total, header))
  }

  function Boxes(data: seq<byte>, pos: nat, end: nat): Walk
    requires end <= |data|
    decreases end - pos
  {
    if pos + 8 > end then Walk([], true)
    else match HeaderAt(data, pos, end)
      case None => Walk([], false)
      case Some((total, header)) =>
        var rest := Boxes(data, pos + total, end);
        Walk([Box(data[pos + 4..pos + 8], pos + header, pos + total)] + rest.boxes, rest.ok)
  }

  lemma BoxesStep(data: seq<byte>, pos: nat, end: nat)
    requires pos + 8 <= end <= |data|
    ensures var h := HeaderAt(data, pos, end);
            && (h.None? ==> Boxes(data, pos, end) == Walk([], false))
            && (h.Some? ==>
                  var (total, header) := h.value;
                  var rest := Boxes(data, pos + total, end);
                  Boxes(data, pos, end)
                  == Walk([Box(data[pos + 4..pos + 8], pos + header, pos + total)] + rest.boxes, rest.ok))
  {
    hide HeaderAt;
  }

  /** The loop of `_boxes`; the boxes it yielded before raising are returned with `ok` false. */
  method WalkBoxes(data: seq<byte>, start: nat, end: nat) returns (boxes: seq<Box>, ok: bool)
    requires end <= |data|
    ensures Walk(boxes, ok) == Boxes(data, start, end)
  {
    hide FromBE;
    boxes := [];
    var pos := start;
    while pos + 8 <= end
      invariant Boxes(data, start, end) == var r := Boxes(data, pos, end); Walk(boxes + r.boxes, r.ok)
      decreases end - pos
    {
      var size, kind, header := FromBE(data[pos..pos + 4]), data[pos + 4..pos + 8], 8;
      if size == 1 {
        if pos + 16 > end {
          BoxesStep(data, pos, end);
          return boxes, false;
        }
        size := FromBE(data[pos + 8..pos + 16]);
        header := 16;
      } else if size == 0 {
        size := end - pos;
      }
      assert HeaderAt(data, pos, end) == if size < header || pos + size > end then None else Some((size, header));
      hide HeaderAt, Boxes;
      BoxesStep(data, pos, end);
      if size < header || pos + size > end { return boxes, false; }
      ghost var before, rest := boxes, Boxes(data, pos + size, end);
      boxes := boxes + [Box(kind, pos + header, pos + size)];
      assert before + ([Box(kind, pos + header, pos + size)] + rest.boxes) == boxes + rest.boxes;
      pos := pos + size;
    }
    ok := true;
  }

  // ---------------------------------------------------------------------------
  // Arbitrary bytes
  // ---------------------------------------------------------------------------

  /** Where the last box of a sequence that starts at `start` ends. */
  function LastEnd(boxes: seq<Box>, start: nat): nat {
    if boxes == [] then start else boxes[|boxes| - 1].end
  }

  /** Box i begins where box i - 1 ended, with a header of 8 or 16 bytes, and stays within `end`. */
  predicate Tiles(boxes: seq<Box>, start: nat, end: nat) {
    forall i :: 0 <= i < |boxes| ==>
      var begin := LastEnd(boxes[..i], start);
      (boxes[i].payload == begin + 8 || boxes[i].payload == begin + 16) && boxes[i].payload <= boxes[i].end <= end
  }

  /** On any bytes the yielded boxes tile a prefix of [start, end) without gap or overlap; the walk ends
      normally exactly when fewer than 8 bytes are left, and raises exactly when the 8 bytes that follow
      the last box are not the header of a box that fits. */
  lemma {:induction false} BoxesTile(data: seq<byte>, start: nat, end: nat)
    requires start <= end <= |data|
    ensures var w := Boxes(data, start, end);
            var stop := LastEnd(w.boxes, start);
            && Tiles(w.boxes, start, end) && start <= stop <= end
            && (w.ok <==> end - stop < 8)
            && (!w.ok ==> HeaderAt(data, stop, end) == None)
    decreases end - start
  {
    if start + 8 <= end && HeaderAt(data, start, end).Some? {
      var (total, header) := HeaderAt(data, start, end).value;
      HeaderFits(data, start, end);
      var b := Box(data[start + 4..start + 8], start + header, start + total);
      var r := Boxes(data, b.end, end);
      assert Boxes(data, start, end) == Walk([b] + r.boxes, r.ok);
      hide HeaderAt;
      hide Boxes;
      BoxesTile(data, b.end, end);
      PrependTile(b, r.boxes, start, end);
    }
  }

  lemma HeaderFits(data: seq<byte>, pos: nat, end: nat)
    requires pos + 8 <= end <= |data| && HeaderAt(data, pos, end).Some?
    ensures var (total, header) := HeaderAt(data, pos, end).value;
            (header == 8 || header == 16) && header <= total <= end - pos
  {
    hide FromBE;
  }

  lemma PrependTile(b: Box, rest: seq<Box>, start: nat, end: nat)
    requires (b.payload == start + 8 || b.payload == start + 16) && b.payload <= b.end <= end && Tiles(rest, b.end, end)
    ensures Tiles([b] + rest, start, end) && LastEnd([b] + rest, start) == LastEnd(rest, b.end)
  {
    var all := [b] + rest;
    forall i | 0 <= i < |all|
      ensures var begin := LastEnd(all[..i], start);
              (all[i].payload == begin + 8 || all[i].payload == begin + 16) && all[i].payload <= all[i].end <= end
    {
      if i > 0 {
        assert all[i] == rest[i - 1] && all[..i] == [b] + rest[..i - 1];
      }
    }
  }

  /** Nothing outside [start, end) is looked at: equal windows give equal walks, up to the shift. */
  lemma {:induction false} BoxesLocal(d: seq<byte>, s: nat, e: nat, d': seq<byte>, s': nat, e': nat)
    requires s <= e <= |d| && s' <= e' <= |d'| && d[s..e] == d'[s'..e']
    ensures var w, w' := Boxes(d, s, e), Boxes(d', s', e');
            && w.ok == w'.ok && |w.boxes| == |w'.boxes|
            && forall i :: 0 <= i < |w.boxes| ==>
                 && w.boxes[i].kind == w'.boxes[i].kind
                 && w.boxes[i].payload - s == w'.boxes[i].payload - s'
                 && w.boxes[i].end - s == w'.boxes[i].end - s'
    decreases e - s
  {
    if s + 8 <= e {
      HeaderLocal(d, s, e, d', s', e');
      var h := HeaderAt(d, s, e);
      if h.Some? {
        var n := h.value.0;
        HeaderFits(d, s, e);
        SubSlice(d, s, e, n, e - s);
        SubSlice(d', s', e', n, e - s);
        SubSlice(d, s, e, 4, 8);
        SubSlice(d', s', e', 4, 8);
        BoxesLocal(d, s + n, e, d', s' + n, e');
      }
    }
  }

  lemma HeaderLocal(d: seq<byte>, s: nat, e: nat, d': seq<byte>, s': nat, e': nat)
    requires s + 8 <= e <= |d| && s' <= e' <= |d'| && d[s..e] == d'[s'..e']
    ensures HeaderAt(d, s, e) == HeaderAt(d', s', e')
  {
    assert e - s == e' - s';
    SubSlice(d, s, e, 0, 4);
    SubSlice(d', s', e', 0, 4);
    if s + 16 <= e {
      SubSlice(d, s, e, 8, 16);
      SubSlice(d', s', e', 8, 16);
    }
  }

  // ---------------------------------------------------------------------------
  // Round trip
  // ---------------------------------------------------------------------------

  /** Size written in 32 bits, in 64 bits after a 1, or as 0 ("up to the end"). */
  datatype Form = Short | Long | ToEnd

  /** A tree of boxes: a leaf holds bytes, a group holds boxes. */
  datatype Node =
    | Leaf(kind: seq<byte>, form: Form, bytes: seq<byte>)
    | Group(kind: seq<byte>, form: Form, children: seq<Node>)

  function Content(n: Node): seq<byte>
    decreases n, 0
  {
    match n
    case Leaf(_, _, bytes) => bytes
    case Group(_, _, children) => Serialize(children)
  }

  function Header(kind: seq<byte>, form: Form, length: nat): seq<byte> {
    match form
    case Short => ToBE(8 + length, 4) + kind
    case Long => ToBE(1, 4) + kind + ToBE(16 + length, 8)
    case ToEnd => ToBE(0, 4) + kind
  }

  function SerializeNode(n: Node): seq<byte>
    decreases n, 1
  {
    Header(n.kind, n.form, |Content(n)|) + Content(n)
  }

  function Serialize(ns: seq<Node>): seq<byte>
    decreases ns
  {
    if ns == [] then [] else SerializeNode(ns[0]) + Serialize(ns[1..])
  }

  predicate Encodable(n: Node)
    decreases n, 0
  {
    && |n.kind| == 4
    && (n.form.Short? ==> 8 + |Content(n)| < Pow256(4))
    && (n.form.Long? ==> 16 + |Content(n)| < Pow256(8))
    && (n.Group? ==> EncodableAll(n.children))
  }

  /** Every box is encodable, and only the last one may have the open-ended form. */
  predicate EncodableAll(ns: seq<Node>)
    decreases ns
  {
    ns == [] || (Encodable(ns[0]) && (ns[0].form.ToEnd? ==> |ns| == 1) && EncodableAll(ns[1..]))
  }

  function HeaderLength(f: Form): nat { if f.Long? then 16 else 8 }

  /** The boxes a reader should see when `ns` is written at offset `at`. */
  function Layout(ns: seq<Node>, at: nat): seq<Box>
    decreases ns
  {
    if ns == [] then []
    else
      var end := at + |SerializeNode(ns[0])|;
      [Box(ns[0].kind, at + HeaderLength(ns[0].form), end)] + Layout(ns[1..], end)
  }

  lemma SizesFit()
    ensures Pow256(4) == 0x1_0000_0000 && Pow256(8) == 0x1_0000_0000_0000_0000
  {
    assert Pow256(1) == 256 && Pow256(2) == 0x1_0000 && Pow256(3) == 0x100_0000 && Pow256(4) == 0x1_0000_0000;
    assert Pow256(5) == 0x100_0000_0000 && Pow256(6) == 0x1_0000_0000_0000 && Pow256(7) == 0x100_0000_0000_0000;
  }

  /** The first box of written bytes is read back: size, header, type, content and what follows. */
  lemma HeaderReadsBack(data: seq<byte>, at: nat, end: nat, n: Node, rest: seq<byte>)
    requires at <= end <= |data| && data[at..end] == SerializeNode(n) + rest
    requires Encodable(n) && (n.form.ToEnd? ==> rest == [])
    ensures at + 8 <= end && HeaderLength(n.form) <= |SerializeNode(n)| <= end - at
    ensures HeaderAt(data, at, end) == Some((|SerializeNode(n)|, HeaderLength(n.form)))
    ensures data[at + 4..at + 8] == n.kind
    ensures data[at + HeaderLength(n.form)..at + |SerializeNode(n)|] == Content(n)
    ensures data[at + |SerializeNode(n)|..end] == rest
  {
    hide *;
    var c := Content(n);
    NodeParts(n);
    HeaderFields(n.kind, n.form, |c|);
    var h := Header(n.kind, n.form, |c|);
    assert h + c + [] + rest == h + c + rest;
    Parts(data, at, end, h, c, [], rest);
    HeaderInPlace(data, at, end, n.kind, n.form, |c|);
  }

  lemma NodeParts(n: Node)
    requires Encodable(n)
    ensures SerializeNode(n) == Header(n.kind, n.form, |Content(n)|) + Content(n) && |n.kind| == 4
    ensures n.form.Short? ==> 8 + |Content(n)| < Pow256(4)
    ensures n.form.Long? ==> 16 + |Content(n)| < Pow256(8)
    ensures HeaderLength(n.form) >= 8 && (n.form.ToEnd? ==> HeaderLength(n.form) == 8)
  {}

  /** A written header, found at `at`, is read back. */
  lemma HeaderInPlace(data: seq<byte>, at: nat, end: nat, kind: seq<byte>, form: Form, length: nat)
    requires |kind| == 4 && (form.Short? ==> 8 + length < Pow256(4)) && (form.Long? ==> 16 + length < Pow256(8))
    requires at + HeaderLength(form) + length <= end <= |data| && (form.ToEnd? ==> at + 8 + length == end)
    requires data[at..at + HeaderLength(form)] == Header(kind, form, length)
    ensures HeaderAt(data, at, end) == Some((HeaderLength(form) + length, HeaderLength(form)))
    ensures data[at + 4..at + 8] == kind
  {
    HeaderFields(kind, form, length);
    var n := HeaderLength(form);
    SubSlice(data, at, at + n, 0, 4);
    SubSlice(data, at, at + n, 4, 8);
    if form.Long? { SubSlice(data, at, at + n, 8, 16); }
    hide Header;
    hide HeaderAt;
    HeaderFrom(data, at, end, n, n + length);
  }

  /** The header fields at `pos` determine what `HeaderAt` says. */
  lemma HeaderFrom(data: seq<byte>, pos: nat, end: nat, header: nat, total: nat)
    requires pos + 8 <= end <= |data| && header <= total <= end - pos
    requires var size := FromBE(data[pos..pos + 4]);
             || (header == 8 && (size == total || (size == 0 && total == end - pos)))
             || (header == 16 && size == 1 && FromBE(data[pos + 8..pos + 16]) == total)
    ensures HeaderAt(data, pos, end) == Some((total, header))
  {
    hide FromBE;
  }

  lemma HeaderFields(kind: seq<byte>, form: Form, length: nat)
    requires |kind| == 4 && (form.Short? ==> 8 + length < Pow256(4)) && (form.Long? ==> 16 + length < Pow256(8))
    ensures var h := Header(kind, form, length);
            && |h| == HeaderLength(form) && h[4..8] == kind
            && FromBE(h[0..4]) == (match form case Short => 8 + length case Long => 1 case ToEnd => 0)
            && (form.Long? ==> FromBE(h[8..16]) == 16 + length)
  {
    var h := Header(kind, form, length);
    SizesFit();
    hide FromBE;
    hide ToBE;
    match form {
      case Short =>
        FromToBE(8 + length, 4);
        assert h[0..4] == ToBE(8 + length, 4);
      case Long =>
        FromToBE(1, 4);
        FromToBE(16 + length, 8);
        assert h[0..4] == ToBE(1, 4) && h[8..16] == ToBE(16 + length, 8);
      case ToEnd =>
        FromToBE(0, 4);
        assert h[0..4] == ToBE(0, 4);
    }
  }

  /** Reading written boxes yields exactly the boxes written, for every mix of header forms and wherever
      in the file they are. */
  lemma {:induction false} BoxesRoundTrip(data: seq<byte>, at: nat, end: nat, ns: seq<Node>)
    requires at <= end <= |data| && data[at..end] == Serialize(ns) && EncodableAll(ns)
    ensures Boxes(data, at, end) == Walk(Layout(ns, at), true)
    decreases ns
  {
    hide HeaderAt;
    hide SerializeNode;
    hide Content;
    if ns != [] {
      assert ns[0].form.ToEnd? ==> Serialize(ns[1..]) == [];
      HeaderReadsBack(data, at, end, ns[0], Serialize(ns[1..]));
      BoxesRoundTrip(data, at + |SerializeNode(ns[0])|, end, ns[1..]);
    }
  }

  /** The payload of every box read back is the content written, so a group can be walked in turn. */
  lemma {:induction false} ContentReadsBack(data: seq<byte>, at: nat, end: nat, ns: seq<Node>, i: nat)
    requires at <= end <= |data| && data[at..end] == Serialize(ns) && EncodableAll(ns)
    ensures |Layout(ns, at)| == |ns|
    ensures i < |ns| ==>
              var b := Layout(ns, at)[i];
              b.kind == ns[i].kind && b.payload <= b.end <= end && data[b.payload..b.end] == Content(ns[i])
    decreases ns
  {
    hide HeaderAt;
    hide SerializeNode;
    hide Content;
    if ns != [] {
      assert ns[0].form.ToEnd? ==> Serialize(ns[1..]) == [];
      HeaderReadsBack(data, at, end, ns[0], Serialize(ns[1..]));
      var next := at + |SerializeNode(ns[0])|;
      ContentReadsBack(data, next, end, ns[1..], if i > 0 then i - 1 else 0);
      if 0 < i < |ns| { assert Layout(ns, at)[i] == Layout(ns[1..], next)[i - 1]; }
    }
  }
}
