/** The check of an uploaded MP4 file: top-level boxes, the movie box, its first video track. */
module Mp4Check {
  import opened Wrappers
  import opened Bytes
  import opened Mp4
  import opened Mp4Track

  datatype Error = VideoSize | Corrupt | Codec | VideoDims | TooLong

  datatype Info = Info(width: nat, height: nat, codec: string, duration: Option<real>, faststart: bool)

  datatype Result = Ok(info: Info) | Err(error: Error)

  const MAX_VIDEO_BYTES := 50 * 1024 * 1024
  const MAX_VIDEO_SIDE := 3840
  const MAX_DURATION := 60.0

  const FTYP: seq<byte> := [0x66, 0x74, 0x79, 0x70]
  const MOOV: seq<byte> := [0x6D, 0x6F, 0x6F, 0x76]
  const MVHD: seq<byte> := [0x6D, 0x76, 0x68, 0x64]
  const MDAT: seq<byte> := [0x6D, 0x64, 0x61, 0x74]
  const AVC1: seq<byte> := [0x61, 0x76, 0x63, 0x31]
  const AVC3: seq<byte> := [0x61, 0x76, 0x63, 0x33]
  const AV01: seq<byte> := [0x61, 0x76, 0x30, 0x31]

  /** What the movie box has told so far. */
  datatype Movie = Movie(duration: Option<real>, track: Option<(seq<byte>, nat, nat)>)

  /** Duration in seconds from a movie header of version 0 or 1. */
  function DurationIn(content: seq<byte>): Option<real>
    requires |content| >= 32
  {
    var (timescale, length) := if content[0] == 1 then (FromBE(content[20..24]), FromBE(content[24..32]))
                               else (FromBE(content[12..16]), FromBE(content[16..20]));
    if timescale == 0 then None else Some(length as real / timescale as real)
  }

  function CodecName(fourcc: seq<byte>): Option<string> {
    if fourcc == AVC1 || fourcc == AVC3 then Some("H.264") else if fourcc == AV01 then Some("AV1") else None
  }

  function IndexOf(kinds: seq<seq<byte>>, kind: seq<byte>): (i: nat)
    ensures i <= |kinds| && (i < |kinds| ==> kinds[i] == kind) && (i == |kinds| <==> kind !in kinds)
  {
    if kinds == [] || kinds[0] == kind then 0 else 1 + IndexOf(kinds[1..], kind)
  }

  /** The top level must start with `ftyp` and hold a movie box. */
  predicate Acceptable(kinds: seq<seq<byte>>) { kinds != [] && kinds[0] == FTYP && MOOV in kinds }

  /** Playback can start before the whole file is there. */
  predicate Faststart(kinds: seq<seq<byte>>) {
    MDAT !in kinds || IndexOf(kinds, MOOV) < IndexOf(kinds, MDAT)
  }

  function Verdict(kinds: seq<seq<byte>>, m: Movie): Result {
    match m.track
    case None => Err(Corrupt)
    case Some((fourcc, width, height)) =>
      match CodecName(fourcc)
      case None => Err(Codec)
      case Some(codec) =>
        if !(640 <= width <= MAX_VIDEO_SIDE) || !(0 < height <= MAX_VIDEO_SIDE) then Err(VideoDims)
        else if m.duration.Some? && m.duration.value > MAX_DURATION then Err(TooLong)
        else Ok(Info(width, height, codec, m.duration, Faststart(kinds)))
  }

  // ---------------------------------------------------------------------------
  // Bytes
  // ---------------------------------------------------------------------------

  function Kinds(boxes: seq<Box>): (kinds: seq<seq<byte>>)
    ensures |kinds| == |boxes| && forall i :: 0 <= i < |kinds| ==> kinds[i] == boxes[i].kind
  {
    seq(|boxes|, i requires 0 <= i < |boxes| => boxes[i].kind)
  }

  predicate Inside(b: Box, end: nat) { b.payload <= b.end <= end }

  lemma BoxesInside(data: seq<byte>, start: nat, end: nat)
    requires start <= end <= |data|
    ensures forall b :: b in Boxes(data, start, end).boxes ==> Inside(b, |data|)
  {
    BoxesTile(data, start, end);
  }

  /** One box of the movie; None when its track walk raises. */
  function Heard(data: seq<byte>, b: Box, m: Movie): Option<Movie>
    requires Inside(b, |data|)
  {
    if b.kind == MVHD && b.end - b.payload >= 32 then Some(m.(duration := DurationIn(data[b.payload..b.end])))
    else if b.kind == TRAK && m.track.None? then
      match VideoTrack(data, b.payload, b.end)
      case None => None
      case Some(track) => Some(m.(track := track))
    else Some(m)
  }

  function HeardAll(data: seq<byte>, boxes: seq<Box>, m: Movie): Option<Movie>
    requires forall b :: b in boxes ==> Inside(b, |data|)
  {
    if boxes == [] then Some(m)
    else match Heard(data, boxes[0], m)
      case None => None
      case Some(next) => HeardAll(data, boxes[1..], next)
  }

  const NOTHING := Movie(None, None)

  function ReadMovie(data: seq<byte>, moov: Box): Option<Movie>
    requires Inside(moov, |data|)
  {
    BoxesInside(data, moov.payload, moov.end);
    var w := Boxes(data, moov.payload, moov.end);
    if w.ok then HeardAll(data, w.boxes, NOTHING) else None
  }

  function ReadMp4(data: seq<byte>): Result {
    BoxesInside(data, 0, |data|);
    var w := Boxes(data, 0, |data|);
    var kinds := Kinds(w.boxes);
    if |data| > MAX_VIDEO_BYTES then Err(VideoSize)
    else if !w.ok || !Acceptable(kinds) then Err(Corrupt)
    else match ReadMovie(data, w.boxes[IndexOf(kinds, MOOV)])
      case None => Err(Corrupt)
      case Some(m) => Verdict(kinds, m)
  }

  /** The loop over the boxes of the movie. */
  method HearMovie(data: seq<byte>, moov: Box) returns (ok: bool, m: Movie)
    requires Inside(moov, |data|)
    ensures ReadMovie(data, moov) == if ok then Some(m) else None
  {
    hide Boxes, VideoTrack;
    BoxesInside(data, moov.payload, moov.end);
    var boxes, whole := WalkBoxes(data, moov.payload, moov.end);
    m := NOTHING;
    for i := 0 to |boxes|
      invariant HeardAll(data, boxes, NOTHING) == HeardAll(data, boxes[i..], m)
    {
      var b := boxes[i];
      assert boxes[i..][0] == b && boxes[i..][1..] == boxes[i + 1..];
      assert b in boxes && Inside(b, |data|);
      if b.kind == MVHD && b.end - b.payload >= 32 {
        m := m.(duration := DurationIn(data[b.payload..b.end]));
      } else if b.kind == TRAK && m.track.None? {
        var fine, track := ReadVideoTrack(data, b.payload, b.end);
        if !fine { return false, NOTHING; }
        m := m.(track := track);
      }
    }
    ok := whole;
  }

  /** `_check_mp4`. */
  method CheckMp4(data: seq<byte>) returns (r: Result)
    ensures r == ReadMp4(data)
  {
    hide Boxes, ReadMovie;
    if |data| > MAX_VIDEO_BYTES { return Err(VideoSize); }
    BoxesInside(data, 0, |data|);
    var boxes, whole := WalkBoxes(data, 0, |data|);
    var kinds := Kinds(boxes);
    if !whole || !Acceptable(kinds) { return Err(Corrupt); }
    var ok, m := HearMovie(data, boxes[IndexOf(kinds, MOOV)]);
    if !ok { return Err(Corrupt); }
    r := Verdict(kinds, m);
  }

  // ---------------------------------------------------------------------------
  // Trees
  // ---------------------------------------------------------------------------

  function NodeKinds(ns: seq<Node>): (kinds: seq<seq<byte>>)
    ensures |kinds| == |ns| && forall i :: 0 <= i < |kinds| ==> kinds[i] == ns[i].kind
  {
    seq(|ns|, i requires 0 <= i < |ns| => ns[i].kind)
  }

  function TrackOf(t: Track): Option<(seq<byte>, nat, nat)> {
    if t.handler != VIDE then None else Some((t.fourcc, t.width, t.height))
  }

  /** What one node of the movie tells. */
  function Told(n: Node, m: Movie): Movie
    requires WellTyped([n])
  {
    if n.kind == MVHD && |Content(n)| >= 32 then m.(duration := DurationIn(Content(n)))
    else if n.kind == TRAK && m.track.None? then m.(track := TrackOf(Describe(n.children, NO_TRACK)))
    else m
  }

  function ToldAll(ns: seq<Node>, m: Movie): Movie
    requires WellTyped(ns)
  {
    if ns == [] then m else ToldAll(ns[1..], Told(ns[0], m))
  }

  /** The first movie box, when there is one, is a group of well-typed nodes. */
  predicate HasMovie(ns: seq<Node>) {
    var i := IndexOf(NodeKinds(ns), MOOV);
    i < |ns| ==> ns[i].Group? && WellTyped(ns[i].children)
  }

  /** The same report, read off the tree. */
  function Report(ns: seq<Node>): Result
    requires HasMovie(ns)
  {
    var kinds := NodeKinds(ns);
    if |Serialize(ns)| > MAX_VIDEO_BYTES then Err(VideoSize)
    else if !Acceptable(kinds) then Err(Corrupt)
    else Verdict(kinds, ToldAll(ns[IndexOf(kinds, MOOV)].children, NOTHING))
  }

  lemma {:induction false} LayoutKinds(ns: seq<Node>, at: nat)
    ensures |Layout(ns, at)| == |ns| && Kinds(Layout(ns, at)) == NodeKinds(ns)
    decreases |ns|
  {
    hide SerializeNode;
    if ns != [] {
      LayoutKinds(ns[1..], at + |SerializeNode(ns[0])|);
      var rest := Layout(ns[1..], at + |SerializeNode(ns[0])|);
      forall i | 0 <= i < |ns| ensures Layout(ns, at)[i].kind == ns[i].kind {
        if i > 0 { assert Layout(ns, at)[i] == rest[i - 1] && Kinds(rest)[i - 1] == NodeKinds(ns[1..])[i - 1]; }
      }
    }
  }

  /** A node whose content stands at [p, e) is heard as it is told. */
  lemma NodeIsHeard(data: seq<byte>, b: Box, n: Node, m: Movie)
    requires Inside(b, |data|) && b.kind == n.kind && data[b.payload..b.end] == Content(n)
    requires Encodable(n) && WellTyped([n])
    ensures Heard(data, b, m) == Some(Told(n, m))
  {
    if n.kind == TRAK && m.track.None? {
      TrackRoundTrip(data, b.payload, b.end, n.children, NO_TRACK);
    }
  }

  lemma {:induction false} NodesAreHeard(data: seq<byte>, at: nat, end: nat, ns: seq<Node>, m: Movie)
    requires at <= end <= |data| && data[at..end] == Serialize(ns) && EncodableAll(ns) && WellTyped(ns)
    ensures forall b :: b in Layout(ns, at) ==> Inside(b, |data|)
    ensures HeardAll(data, Layout(ns, at), m) == Some(ToldAll(ns, m))
    decreases |ns|
  {
    hide *;
    LayoutInside(data, at, end, ns);
    Unfolded(data, ns, at, m);
    if ns != [] {
      var n, rest := ns[0], ns[1..];
      HeaderReadsBack(data, at, end, n, Serialize(rest));
      var b := Box(n.kind, at + HeaderLength(n.form), at + |SerializeNode(n)|);
      InsideIs(b, |data|);
      NodeIsHeard(data, b, n, m);
      NodesAreHeard(data, at + |SerializeNode(n)|, end, rest, Told(n, m));
      HeardFirst(data, b, Layout(rest, at + |SerializeNode(n)|), m);
    }
  }

  lemma LayoutInside(data: seq<byte>, at: nat, end: nat, ns: seq<Node>)
    requires at <= end <= |data| && data[at..end] == Serialize(ns) && EncodableAll(ns)
    ensures forall b :: b in Layout(ns, at) ==> Inside(b, |data|)
  {
    hide Layout, Boxes;
    BoxesRoundTrip(data, at, end, ns);
    BoxesInside(data, at, end);
  }

  lemma InsideIs(b: Box, end: nat)
    ensures Inside(b, end) <==> b.payload <= b.end <= end
  {}

  lemma Unfolded(data: seq<byte>, ns: seq<Node>, at: nat, m: Movie)
    requires EncodableAll(ns) && WellTyped(ns)
    ensures ns == [] ==> Layout(ns, at) == [] && HeardAll(data, [], m) == Some(m) && ToldAll(ns, m) == m
    ensures ns != [] ==>
              var n, rest := ns[0], ns[1..];
              var end := at + |SerializeNode(n)|;
              && EncodableAll(rest) && WellTyped(rest) && Encodable(n) && WellTyped([n])
              && (n.form.ToEnd? ==> Serialize(rest) == []) && Serialize(ns) == SerializeNode(n) + Serialize(rest)
              && Layout(ns, at) == [Box(n.kind, at + HeaderLength(n.form), end)] + Layout(rest, end)
              && ToldAll(ns, m) == ToldAll(rest, Told(n, m))
  {
    hide SerializeNode, Told, Content, Describe, Header, Heard;
    if ns != [] { FirstNode(ns, NO_TRACK); }
  }

  lemma HeardFirst(data: seq<byte>, b: Box, rest: seq<Box>, m: Movie)
    requires Inside(b, |data|) && (forall x :: x in rest ==> Inside(x, |data|)) && Heard(data, b, m).Some?
    ensures forall x :: x in [b] + rest ==> Inside(x, |data|)
    ensures HeardAll(data, [b] + rest, m) == HeardAll(data, rest, Heard(data, b, m).value)
  {
    assert ([b] + rest)[1..] == rest;
  }

  lemma {:induction false} EncodableMember(ns: seq<Node>, i: nat)
    requires EncodableAll(ns) && i < |ns|
    ensures Encodable(ns[i])
    decreases |ns|
  {
    if i > 0 { EncodableMember(ns[1..], i - 1); }
  }

  lemma GroupParts(n: Node)
    requires n.Group? && Encodable(n)
    ensures EncodableAll(n.children) && Content(n) == Serialize(n.children)
  {}

  /** The movie box of a written file is read as its tree says. */
  lemma MovieIsRead(data: seq<byte>, moov: Box, n: Node)
    requires Inside(moov, |data|) && data[moov.payload..moov.end] == Content(n)
    requires n.Group? && Encodable(n) && WellTyped(n.children)
    ensures ReadMovie(data, moov) == Some(ToldAll(n.children, NOTHING))
  {
    hide Boxes, HeardAll, ToldAll, Layout;
    GroupParts(n);
    BoxesRoundTrip(data, moov.payload, moov.end, n.children);
    NodesAreHeard(data, moov.payload, moov.end, n.children, NOTHING);
  }

  /** For every tree of boxes, written with any mix of 32-bit, 64-bit and open-ended headers, the check of
      the bytes gives the report read off the tree: the same verdict, codec, dimensions, duration and
      fast-start flag, whatever the header forms. */
  lemma FileRoundTrip(ns: seq<Node>)
    requires EncodableAll(ns) && HasMovie(ns)
    ensures ReadMp4(Serialize(ns)) == Report(ns)
  {
    var data := Serialize(ns);
    hide Serialize, EncodableAll, Boxes, Layout, ReadMovie, ToldAll, Verdict;
    assert data[0..|data|] == data;
    BoxesRoundTrip(data, 0, |data|, ns);
    LayoutKinds(ns, 0);
    BoxesInside(data, 0, |data|);
    var kinds := NodeKinds(ns);
    if Acceptable(kinds) {
      var i := IndexOf(kinds, MOOV);
      ContentReadsBack(data, 0, |data|, ns, i);
      EncodableMember(ns, i);
      MovieIsRead(data, Layout(ns, 0)[i], ns[i]);
    }
  }

  /** A file whose movie box does not divide into boxes is refused, whatever else it holds. */
  lemma CorruptMovieRefused(data: seq<byte>, i: nat)
    requires |data| <= MAX_VIDEO_BYTES && Boxes(data, 0, |data|).ok
    requires var boxes := Boxes(data, 0, |data|).boxes;
             && i < |boxes| && boxes[i].kind == MOOV && (forall j :: 0 <= j < i ==> boxes[j].kind != MOOV)
             && boxes[i].payload <= boxes[i].end <= |data| && !Boxes(data, boxes[i].payload, boxes[i].end).ok
    ensures ReadMp4(data) == Err(Corrupt)
  {
    BoxesInside(data, 0, |data|);
    var kinds := Kinds(Boxes(data, 0, |data|).boxes);
    hide Boxes, HeardAll;
    FirstIndex(kinds, MOOV, i);
  }

  lemma {:induction false} FirstIndex(kinds: seq<seq<byte>>, kind: seq<byte>, i: nat)
    requires i < |kinds| && kinds[i] == kind && forall j :: 0 <= j < i ==> kinds[j] != kind
    ensures IndexOf(kinds, kind) == i
  {
    if i > 0 { FirstIndex(kinds[1..], kind, i - 1); }
  }
}
