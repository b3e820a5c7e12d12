/** The recursive walk over one `trak` box that finds codec, width and height of a video track. */
module Mp4Track {
  import opened Wrappers
  import opened Bytes
  import opened Mp4

  datatype Track = Track(width: nat, height: nat, handler: seq<byte>, fourcc: seq<byte>)

  const NO_TRACK := Track(0, 0, [], [])

  const TKHD: seq<byte> := [0x74, 0x6B, 0x68, 0x64]
  const HDLR: seq<byte> := [0x68, 0x64, 0x6C, 0x72]
  const STSD: seq<byte> := [0x73, 0x74, 0x73, 0x64]
  const TRAK: seq<byte> := [0x74, 0x72, 0x61, 0x6B]
  const MDIA: seq<byte> := [0x6D, 0x64, 0x69, 0x61]
  const MINF: seq<byte> := [0x6D, 0x69, 0x6E, 0x66]
  const STBL: seq<byte> := [0x73, 0x74, 0x62, 0x6C]
  const VIDE: seq<byte> := [0x76, 0x69, 0x64, 0x65]

  predicate IsContainer(kind: seq<byte>) { kind == TRAK || kind == MDIA || kind == MINF || kind == STBL }

  /** What a box with this content contributes. */
  function Note(kind: seq<byte>, content: seq<byte>, t: Track): Track {
    var n := |content|;
    if kind == TKHD && n >= 8 then
      t.(width := FromBE(content[n - 8..n - 4]) / 65536, height := FromBE(content[n - 4..n]) / 65536)
    else if kind == HDLR && n >= 12 then t.(handler := content[8..12])
    else if kind == STSD && n >= 16 then t.(fourcc := content[12..16])
    else t
  }

  /** The walk over [pos, end); None when some box is corrupt. */
  function WalkTrack(data: seq<byte>, pos: nat, end: nat, t: Track): Option<Track>
    requires pos <= end <= |data|
    decreases end - pos
  {
    if pos + 8 > end || HeaderAt(data, pos, end).None? then
      if pos + 8 > end then Some(t) else None
    else
      var (total, header) := HeaderAt(data, pos, end).value;
      HeaderFits(data, pos, end);
      var kind := data[pos + 4..pos + 8];
      var inner := if IsContainer(kind) then WalkTrack(data, pos + header, pos + total, t)
                   else Some(Note(kind, data[pos + header..pos + total], t));
      if inner.None? then None else WalkTrack(data, pos + total, end, inner.value)
  }

  class TrackReader {
    var width: nat
    var height: nat
    var handler: seq<byte>
    var fourcc: seq<byte>

    function State(): Track
      reads this
    {
      Track(width, height, handler, fourcc)
    }

    constructor ()
      ensures State() == NO_TRACK
    {
      width, height, handler, fourcc := 0, 0, [], [];
    }

    /** Keeps what a track header, handler or sample description says. */
    method Record(data: seq<byte>, kind: seq<byte>, p: nat, boxEnd: nat)
      requires p <= boxEnd <= |data|
      modifies this
      ensures State() == Note(kind, data[p..boxEnd], old(State()))
    {
      hide FromBE;
      if kind == TKHD && boxEnd - p >= 8 {
        SubSlice(data, p, boxEnd, boxEnd - p - 8, boxEnd - p - 4);
        SubSlice(data, p, boxEnd, boxEnd - p - 4, boxEnd - p);
        width, height := FromBE(data[boxEnd - 8..boxEnd - 4]) / 65536, FromBE(data[boxEnd - 4..boxEnd]) / 65536;
      } else if kind == HDLR && boxEnd - p >= 12 {
        SubSlice(data, p, boxEnd, 8, 12);
        handler := data[p + 8..p + 12];
      } else if kind == STSD && boxEnd - p >= 16 {
        SubSlice(data, p, boxEnd, 12, 16);
        fourcc := data[p + 12..p + 16];
      }
    }

    /** The nested function `walk`. */
    method Walk(data: seq<byte>, start: nat, end: nat) returns (ok: bool)
      requires start <= end <= |data|
      modifies this
      ensures WalkTrack(data, start, end, old(State())) == if ok then Some(State()) else None
      decreases end - start
    {
      var pos := start;
      while pos + 8 <= end
        invariant start <= pos <= end
        invariant WalkTrack(data, start, end, old(State())) == WalkTrack(data, pos, end, State())
        decreases end - pos
      {
        hide WalkTrack, HeaderAt, Note, IsContainer;
        var h := HeaderAt(data, pos, end);
        WalkNext(data, pos, end, State());
        if h.None? { return false; }
        var kind, p, boxEnd := data[pos + 4..pos + 8], pos + h.value.1, pos + h.value.0;
        HeaderFits(data, pos, end);
        if IsContainer(kind) {
          var inner := Walk(data, p, boxEnd);
          if !inner { return false; }
        } else {
          Record(data, kind, p, boxEnd);
        }
        pos := boxEnd;
      }
      WalkNext(data, pos, end, State());
      ok := true;
    }
  }

  /** Codec, width and height when the track is a video track; None when the walk raises. */
  function VideoTrack(data: seq<byte>, start: nat, end: nat): Option<Option<(seq<byte>, nat, nat)>>
    requires start <= end <= |data|
  {
    match WalkTrack(data, start, end, NO_TRACK)
    case None => None
    case Some(t) => Some(if t.handler != VIDE then None else Some((t.fourcc, t.width, t.height)))
  }

  method ReadVideoTrack(data: seq<byte>, start: nat, end: nat) returns (ok: bool, track: Option<(seq<byte>, nat, nat)>)
    requires start <= end <= |data|
    ensures VideoTrack(data, start, end) == if ok then Some(track) else None
  {
    var reader := new TrackReader();
    track := None;
    ok := reader.Walk(data, start, end);
    if ok && reader.handler == VIDE { track := Some((reader.fourcc, reader.width, reader.height)); }
  }

  // ---------------------------------------------------------------------------
  // The walk stays inside its box
  // ---------------------------------------------------------------------------

  /** The walk at `pos`: over, raising, or going on behind the first box. */
  lemma WalkNext(data: seq<byte>, pos: nat, end: nat, t: Track)
    requires pos <= end <= |data|
    ensures end < pos + 8 ==> WalkTrack(data, pos, end, t) == Some(t)
    ensures pos + 8 <= end ==>
            var h := HeaderAt(data, pos, end);
            && (h.None? ==> WalkTrack(data, pos, end, t) == None)
            && (h.Some? ==>
                  var (total, header) := h.value;
                  && header <= total <= end - pos
                  && var inner := if IsContainer(data[pos + 4..pos + 8])
                                  then WalkTrack(data, pos + header, pos + total, t)
                                  else Some(Note(data[pos + 4..pos + 8], data[pos + header..pos + total], t));
                  WalkTrack(data, pos, end, t)
                  == if inner.None? then None else WalkTrack(data, pos + total, end, inner.value))
  {
    if pos + 8 <= end && HeaderAt(data, pos, end).Some? { HeaderFits(data, pos, end); }
    hide HeaderAt, Note, IsContainer;
  }

  /** Equal windows: equal parts of them. */
  lemma SamePart(d: seq<byte>, s: nat, e: nat, d': seq<byte>, s': nat, e': nat, i: nat, j: nat)
    requires s <= e <= |d| && s' <= e' <= |d'| && d[s..e] == d'[s'..e'] && i <= j <= e - s
    ensures e - s == e' - s' && d[s + i..s + j] == d'[s' + i..s' + j]
  {
    assert |d[s..e]| == |d'[s'..e']|;
    SubSlice(d, s, e, i, j);
    SubSlice(d', s', e', i, j);
  }

  /** The walk depends on nothing but the bytes of its window: it never leaves its `trak` box. */
  lemma {:induction false} TrackLocal(d: seq<byte>, s: nat, e: nat, d': seq<byte>, s': nat, e': nat, t: Track)
    requires s <= e <= |d| && s' <= e' <= |d'| && d[s..e] == d'[s'..e']
    ensures WalkTrack(d, s, e, t) == WalkTrack(d', s', e', t)
    decreases e - s
  {
    hide *;
    SamePart(d, s, e, d', s', e', 0, 0);
    if s + 8 > e {
      WalkNext(d, s, e, t);
      WalkNext(d', s', e', t);
    } else {
      HeaderLocal(d, s, e, d', s', e');
      WalkNext(d, s, e, t);
      WalkNext(d', s', e', t);
      if HeaderAt(d, s, e).Some? {
        var (total, header) := HeaderAt(d, s, e).value;
        HeaderFits(d, s, e);
        SamePart(d, s, e, d', s', e', 4, 8);
        SamePart(d, s, e, d', s', e', header, total);
        SamePart(d, s, e, d', s', e', total, e - s);
        TrackLocal(d, s + header, s + total, d', s' + header, s' + total, t);
        var inner := if IsContainer(d[s + 4..s + 8]) then WalkTrack(d, s + header, s + total, t)
                     else Some(Note(d[s + 4..s + 8], d[s + header..s + total], t));
        if inner.Some? { TrackLocal(d, s + total, e, d', s' + total, e', inner.value); }
      }
    }
  }

  // ---------------------------------------------------------------------------
  // Round trip over box trees
  // ---------------------------------------------------------------------------

  /** Containers are groups of boxes, in the tree and in its children. */
  predicate WellTyped(ns: seq<Node>)
    decreases ns
  {
    ns == [] || ((IsContainer(ns[0].kind) ==> ns[0].Group? && WellTyped(ns[0].children)) && WellTyped(ns[1..]))
  }

  /** Reading the tree itself, in document order. */
  function Describe(ns: seq<Node>, t: Track): Track
    requires WellTyped(ns)
    decreases ns
  {
    if ns == [] then t
    else Describe(ns[1..], if IsContainer(ns[0].kind) then Describe(ns[0].children, t)
                           else Note(ns[0].kind, Content(ns[0]), t))
  }

  /** One box of the walk. */
  lemma WalkStep(data: seq<byte>, pos: nat, end: nat, total: nat, header: nat, t: Track, after: Track)
    requires pos + 8 <= end <= |data| && HeaderAt(data, pos, end) == Some((total, header))
    requires header <= total <= end - pos
    requires var kind := data[pos + 4..pos + 8];
             if IsContainer(kind) then WalkTrack(data, pos + header, pos + total, t) == Some(after)
             else after == Note(kind, data[pos + header..pos + total], t)
    ensures WalkTrack(data, pos, end, t) == WalkTrack(data, pos + total, end, after)
  {
    hide HeaderAt;
    hide Note;
    hide IsContainer;
  }

  function Noted(n: Node, t: Track): Track
    requires WellTyped([n])
  {
    if IsContainer(n.kind) then Describe(n.children, t) else Note(n.kind, Content(n), t)
  }

  lemma FirstNode(ns: seq<Node>, t: Track)
    requires ns != [] && EncodableAll(ns) && WellTyped(ns)
    ensures EncodableAll(ns[1..]) && WellTyped(ns[1..]) && Encodable(ns[0]) && WellTyped([ns[0]])
    ensures ns[0].form.ToEnd? ==> Serialize(ns[1..]) == []
    ensures IsContainer(ns[0].kind) ==> ns[0].Group? && Content(ns[0]) == Serialize(ns[0].children)
                                        && EncodableAll(ns[0].children) && WellTyped(ns[0].children)
    ensures Serialize(ns) == SerializeNode(ns[0]) + Serialize(ns[1..])
    ensures Describe(ns, t) == Describe(ns[1..], Noted(ns[0], t))
  {
    hide SerializeNode;
    hide Note;
    assert [ns[0]][1..] == [];
  }

  /** For every tree of boxes, written with any mix of header forms anywhere in a file, the recursive
      walk finds exactly what reading the tree itself finds. */
  lemma {:induction false} TrackRoundTrip(data: seq<byte>, at: nat, end: nat, ns: seq<Node>, t: Track)
    requires at <= end <= |data| && data[at..end] == Serialize(ns) && EncodableAll(ns) && WellTyped(ns)
    ensures WalkTrack(data, at, end, t) == Some(Describe(ns, t))
    decreases ns
  {
    if ns == [] {
      assert at == end;
    } else {
      NodesRoundTrip(data, at, end, ns, t);
    }
  }

  lemma {:induction false} NodesRoundTrip(data: seq<byte>, at: nat, end: nat, ns: seq<Node>, t: Track)
    requires at <= end <= |data| && data[at..end] == Serialize(ns) && EncodableAll(ns) && WellTyped(ns) && ns != []
    ensures WalkTrack(data, at, end, t) == Some(Describe(ns, t))
    decreases ns, 0
  {
    hide *;
    var n, rest := ns[0], ns[1..];
    FirstNode(ns, t);
    var after := Noted(n, t);
    HeaderReadsBack(data, at, end, n, Serialize(rest));
    var header, total := HeaderLength(n.form), |SerializeNode(n)|;
    NotedIs(n, t);
    if IsContainer(n.kind) { TrackRoundTrip(data, at + header, at + total, n.children, t); }
    TrackRoundTrip(data, at + total, end, rest, after);
    WalkStep(data, at, end, total, header, t, after);
  }

  lemma NotedIs(n: Node, t: Track)
    requires WellTyped([n])
    ensures Noted(n, t) == if IsContainer(n.kind) then Describe(n.children, t) else Note(n.kind, Content(n), t)
  {}

  /** No box of this kind anywhere in the containers. */
  predicate Lacks(ns: seq<Node>, kind: seq<byte>)
    decreases ns
  {
    ns == [] || (ns[0].kind != kind && (ns[0].Group? ==> Lacks(ns[0].children, kind)) && Lacks(ns[1..], kind))
  }

  lemma {:induction false} SizeStays(ns: seq<Node>, t: Track)
    requires WellTyped(ns) && Lacks(ns, TKHD)
    ensures Describe(ns, t).width == t.width && Describe(ns, t).height == t.height
    decreases ns
  {
    if ns != [] {
      if IsContainer(ns[0].kind) {
        SizeStays(ns[0].children, t);
        SizeStays(ns[1..], Describe(ns[0].children, t));
      } else {
        SizeStays(ns[1..], Note(ns[0].kind, Content(ns[0]), t));
      }
    }
  }

  /** A video track without a track header has no size: its width and height are zero. */
  lemma NoHeaderNoSize(data: seq<byte>, at: nat, end: nat, ns: seq<Node>)
    requires at <= end <= |data| && data[at..end] == Serialize(ns) && EncodableAll(ns) && WellTyped(ns)
    requires Lacks(ns, TKHD)
    ensures VideoTrack(data, at, end).Some?
    ensures VideoTrack(data, at, end).value.Some? ==>
              VideoTrack(data, at, end).value.value.1 == 0 && VideoTrack(data, at, end).value.value.2 == 0
  {
    TrackRoundTrip(data, at, end, ns, NO_TRACK);
    SizeStays(ns, NO_TRACK);
  }
}
