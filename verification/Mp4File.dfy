/** MP4 files written from values, field by field at the byte offsets of ISO/IEC 14496-12 (sections 8.2.2, 8.3.2,
    8.4.3 and 8.5.2), and what the check says of them. */
module Mp4File {
  import opened Wrappers
  import opened Bytes
  import opened Mp4
  import opened Mp4Track
  import opened Mp4Check

  function Ascii(s: string): (b: seq<byte>)
    requires forall i :: 0 <= i < |s| ==> s[i] < '\U{0080}'
    ensures |b| == |s| && forall i :: 0 <= i < |b| ==> b[i] == s[i] as int
  {
    seq(|s|, i requires 0 <= i < |s| => s[i] as int)
  }

  /** A box with a 32-bit size. */
  function Box(kind: string, content: seq<byte>): Node
    requires |kind| == 4 && forall i :: 0 <= i < |kind| ==> kind[i] < '\U{0080}'
  {
    Leaf(Ascii(kind), Short, content)
  }

  function Group(kind: string, children: seq<Node>): Node
    requires |kind| == 4 && forall i :: 0 <= i < |kind| ==> kind[i] < '\U{0080}'
  {
    Node.Group(Ascii(kind), Short, children)
  }

  /** What the file says.  The sizes are 16.16 fixed-point numbers with the given fractions; `before`, `after` and
      `gap` are the bytes of the fields that the check does not look at. */
  datatype Video = Video(width: nat, height: nat, fractions: (nat, nat), fourcc: seq<byte>, before: seq<byte>,
                         after: seq<byte>)

  datatype Clock = Clock(timescale: nat, length: nat, wide: bool, gap: seq<byte>, after: seq<byte>)

  predicate Writable(v: Video) {
    && v.width < 0x1_0000 && v.height < 0x1_0000 && v.fractions.0 < 0x1_0000 && v.fractions.1 < 0x1_0000
    && |v.fourcc| == 4 && |v.before| < 1000 && |v.after| < 1000
  }

  /** A movie header: version 1 has 64-bit times, version 0 has 32-bit ones. */
  predicate WritableClock(k: Clock) {
    && k.timescale < 0x1_0000_0000 && 12 <= |k.after| < 1000
    && if k.wide then k.length < 0x1_0000_0000_0000_0000 && |k.gap| == 19 else k.length < 0x1_0000_0000 && |k.gap| == 11
  }

  /** Track header: width and height are its last eight bytes. */
  function TrackHeader(v: Video): seq<byte> {
    v.before + ToBE(v.width * 65536 + v.fractions.0, 4) + ToBE(v.height * 65536 + v.fractions.1, 4)
  }

  /** Handler: four bytes of version and flags, four reserved, the type. */
  function Handler(kind: string, after: seq<byte>): seq<byte>
    requires |kind| == 4 && forall i :: 0 <= i < |kind| ==> kind[i] < '\U{0080}'
  {
    [0, 0, 0, 0] + [0, 0, 0, 0] + Ascii(kind) + after
  }

  /** Sample description: version and flags, one entry, its size, its format. */
  function SampleDescription(fourcc: seq<byte>, after: seq<byte>): seq<byte> {
    [0, 0, 0, 0] + [0, 0, 0, 1] + [0, 0, 0, 86] + fourcc + after
  }

  function Seconds(k: Clock): Option<real> {
    if k.timescale == 0 then None else Some(k.length as real / k.timescale as real)
  }

  function MovieHeader(k: Clock): seq<byte> {
    if k.wide then [1] + k.gap + ToBE(k.timescale, 4) + ToBE(k.length, 8) + k.after
    else [0] + k.gap + ToBE(k.timescale, 4) + ToBE(k.length, 4) + k.after
  }

  function TrackBox(v: Video, handler: string): Node
    requires |handler| == 4 && forall i :: 0 <= i < |handler| ==> handler[i] < '\U{0080}'
  {
    var description := Group("stbl", [Box("stsd", SampleDescription(v.fourcc, v.after))]);
    Group("trak", [Box("tkhd", TrackHeader(v)),
                   Group("mdia", [Box("hdlr", Handler(handler, v.after)), Group("minf", [description])])])
  }

  /** A movie: its header, a sound track, the video track, and another video track that does not count. */
  function MovieBox(k: Clock, sound: Video, v: Video, other: Video): Node {
    Group("moov", [Box("mvhd", MovieHeader(k)), TrackBox(sound, "soun"), TrackBox(v, "vide"), TrackBox(other, "vide")])
  }

  function FileBoxes(k: Clock, sound: Video, v: Video, other: Video, brand: seq<byte>, media: seq<byte>,
                     movieFirst: bool): seq<Node>
  {
    var movie, samples := MovieBox(k, sound, v, other), Box("mdat", media);
    if movieFirst then [Box("ftyp", brand), movie, samples] else [Box("ftyp", brand), samples, movie]
  }

  // ---------------------------------------------------------------------------
  // What is read from the single fields
  // ---------------------------------------------------------------------------

  lemma Constants()
    ensures Ascii("ftyp") == FTYP && Ascii("moov") == MOOV && Ascii("mvhd") == MVHD && Ascii("mdat") == MDAT
    ensures Ascii("trak") == TRAK && Ascii("tkhd") == TKHD && Ascii("mdia") == MDIA && Ascii("hdlr") == HDLR
    ensures Ascii("minf") == MINF && Ascii("stbl") == STBL && Ascii("stsd") == STSD && Ascii("vide") == VIDE
    ensures Ascii("avc1") == AVC1 && Ascii("avc3") == AVC3 && Ascii("av01") == AV01
    ensures |FTYP| == 4 && FTYP[0] == 102 && MOOV[0] == 109 && MOOV[1] == 111 && MVHD[1] == 118 && MDAT[1] == 100
    ensures Ascii("soun")[0] == 115 && VIDE[0] == 118
  {}

  lemma SizeReads(v: Video, t: Track)
    requires Writable(v)
    ensures Note(Ascii("tkhd"), TrackHeader(v), t) == t.(width := v.width, height := v.height)
  {
    Constants();
    SizesFit();
    var c, n := TrackHeader(v), |v.before|;
    assert c[n..n + 4] == ToBE(v.width * 65536 + v.fractions.0, 4);
    assert c[n + 4..n + 8] == ToBE(v.height * 65536 + v.fractions.1, 4);
    hide ToBE, FromBE, Ascii;
    FromToBE(v.width * 65536 + v.fractions.0, 4);
    FromToBE(v.height * 65536 + v.fractions.1, 4);
    FixedPoint(v.width, v.fractions.0);
    FixedPoint(v.height, v.fractions.1);
  }

  lemma FixedPoint(whole: nat, fraction: nat)
    requires fraction < 0x1_0000
    ensures (whole * 65536 + fraction) / 65536 == whole
  {}

  lemma HandlerReads(kind: string, after: seq<byte>, t: Track)
    requires |kind| == 4 && forall i :: 0 <= i < |kind| ==> kind[i] < '\U{0080}'
    ensures Note(Ascii("hdlr"), Handler(kind, after), t) == t.(handler := Ascii(kind))
  {
    Constants();
    assert Handler(kind, after)[8..12] == Ascii(kind);
    hide Ascii;
  }

  lemma FormatReads(fourcc: seq<byte>, after: seq<byte>, t: Track)
    requires |fourcc| == 4
    ensures Note(Ascii("stsd"), SampleDescription(fourcc, after), t) == t.(fourcc := fourcc)
  {
    Constants();
    assert SampleDescription(fourcc, after)[12..16] == fourcc;
    hide Ascii;
  }

  lemma ClockReads(k: Clock)
    requires WritableClock(k)
    ensures |MovieHeader(k)| >= 32
    ensures DurationIn(MovieHeader(k)) == Seconds(k)
  {
    SizesFit();
    var c := MovieHeader(k);
    if k.wide {
      assert c[0] == 1 && c[20..24] == ToBE(k.timescale, 4) && c[24..32] == ToBE(k.length, 8);
    } else {
      assert c[0] == 0 && c[12..16] == ToBE(k.timescale, 4) && c[16..20] == ToBE(k.length, 4);
    }
    hide ToBE, FromBE;
    FromToBE(k.timescale, 4);
    FromToBE(k.length, if k.wide then 8 else 4);
  }

  // ---------------------------------------------------------------------------
  // What is read from a track and a movie
  // ---------------------------------------------------------------------------

  lemma LeafFirst(n: Node, rest: seq<Node>, t: Track)
    requires n.Leaf? && !IsContainer(n.kind) && WellTyped(rest)
    ensures WellTyped([n] + rest) && Describe([n] + rest, t) == Describe(rest, Note(n.kind, n.bytes, t))
  {
    assert ([n] + rest)[1..] == rest;
  }

  lemma GroupFirst(n: Node, rest: seq<Node>, t: Track)
    requires n.Group? && WellTyped(n.children) && WellTyped(rest)
    ensures WellTyped([n] + rest)
    ensures IsContainer(n.kind) ==> Describe([n] + rest, t) == Describe(rest, Describe(n.children, t))
  {
    assert ([n] + rest)[1..] == rest;
  }

  lemma Containers()
    ensures IsContainer(TRAK) && IsContainer(MDIA) && IsContainer(MINF) && IsContainer(STBL)
    ensures !IsContainer(TKHD) && !IsContainer(HDLR) && !IsContainer(STSD) && !IsContainer(MVHD)
    ensures WellTyped([]) && forall t :: Describe([], t) == t
  {}

  lemma TrackDescribed(v: Video, handler: string, t: Track)
    requires Writable(v) && |handler| == 4 && forall i :: 0 <= i < |handler| ==> handler[i] < '\U{0080}'
    ensures WellTyped(TrackBox(v, handler).children)
    ensures Describe(TrackBox(v, handler).children, t) == Track(v.width, v.height, Ascii(handler), v.fourcc)
  {
    hide *;
    Constants();
    Containers();
    TrackParts(v, handler);
    var stsd := Box("stsd", SampleDescription(v.fourcc, v.after));
    var stbl := Group("stbl", [stsd]);
    var minf := Group("minf", [stbl]);
    var hdlr := Box("hdlr", Handler(handler, v.after));
    var mdia := Group("mdia", [hdlr, minf]);
    var tkhd := Box("tkhd", TrackHeader(v));
    BoxIs("stsd", SampleDescription(v.fourcc, v.after));
    BoxIs("hdlr", Handler(handler, v.after));
    BoxIs("tkhd", TrackHeader(v));
    GroupIs("stbl", [stsd]);
    GroupIs("minf", [stbl]);
    GroupIs("mdia", [hdlr, minf]);
    WritableFormat(v);
    var t1 := t.(width := v.width, height := v.height);
    var t2 := t1.(handler := Ascii(handler));
    SizeReads(v, t);
    HandlerReads(handler, v.after, t1);
    FormatReads(v.fourcc, v.after, t2);
    LeafFirst(stsd, [], t2);
    assert [stsd] + [] == [stsd] && [stbl] + [] == [stbl] && [minf] + [] == [minf] && [mdia] + [] == [mdia];
    GroupFirst(stbl, [], t2);
    GroupFirst(minf, [], t2);
    LeafFirst(hdlr, [minf], t1);
    assert [hdlr] + [minf] == [hdlr, minf] && [tkhd] + [mdia] == [tkhd, mdia];
    GroupFirst(mdia, [], t1);
    LeafFirst(tkhd, [mdia], t);
  }

  lemma WritableFormat(v: Video)
    requires Writable(v)
    ensures |v.fourcc| == 4
  {}

  lemma BoxIs(kind: string, content: seq<byte>)
    requires |kind| == 4 && forall i :: 0 <= i < |kind| ==> kind[i] < '\U{0080}'
    ensures Box(kind, content) == Leaf(Ascii(kind), Short, content)
  {}

  lemma GroupIs(kind: string, children: seq<Node>)
    requires |kind| == 4 && forall i :: 0 <= i < |kind| ==> kind[i] < '\U{0080}'
    ensures Group(kind, children) == Node.Group(Ascii(kind), Short, children)
  {}

  lemma TrackParts(v: Video, handler: string)
    requires |handler| == 4 && forall i :: 0 <= i < |handler| ==> handler[i] < '\U{0080}'
    ensures var stsd := Box("stsd", SampleDescription(v.fourcc, v.after));
            var minf := Group("minf", [Group("stbl", [stsd])]);
            var mdia := Group("mdia", [Box("hdlr", Handler(handler, v.after)), minf]);
            TrackBox(v, handler) == Node.Group(Ascii("trak"), Short, [Box("tkhd", TrackHeader(v)), mdia])
  {}

  // ---------------------------------------------------------------------------
  // Sizes
  // ---------------------------------------------------------------------------

  lemma LeafEncodes(kind: string, content: seq<byte>)
    requires |kind| == 4 && forall i :: 0 <= i < |kind| ==> kind[i] < '\U{0080}'
    requires |content| < 0x1_0000_0000 - 8
    ensures Encodable(Box(kind, content)) && |SerializeNode(Box(kind, content))| == 8 + |content|
  {
    SizesFit();
  }

  lemma GroupEncodes(kind: string, children: seq<Node>)
    requires |kind| == 4 && forall i :: 0 <= i < |kind| ==> kind[i] < '\U{0080}'
    requires EncodableAll(children) && |Serialize(children)| < 0x1_0000_0000 - 8
    ensures Encodable(Group(kind, children))
    ensures |SerializeNode(Group(kind, children))| == 8 + |Serialize(children)|
    ensures Group(kind, children).form == Short
  {
    SizesFit();
  }

  lemma {:induction false} EncodesAll(ns: seq<Node>, sizes: seq<nat>)
    requires |sizes| == |ns|
    requires forall i :: 0 <= i < |ns| ==> Encodable(ns[i]) && ns[i].form == Short && |SerializeNode(ns[i])| == sizes[i]
    ensures EncodableAll(ns) && |Serialize(ns)| == Total(sizes)
    decreases |ns|
  {
    if ns != [] {
      hide Encodable, SerializeNode;
      EncodesAll(ns[1..], sizes[1..]);
    }
  }

  function Total(sizes: seq<nat>): nat { if sizes == [] then 0 else sizes[0] + Total(sizes[1..]) }

  lemma TwoSizes(a: nat, b: nat)
    ensures Total([a]) == a && Total([a, b]) == a + b
  {
    assert [a][1..] == [] && [b][1..] == [] && [a, b][1..] == [b];
    assert Total([b]) == b;
  }

  lemma TrackEncodes(v: Video, handler: string)
    requires Writable(v) && |handler| == 4 && forall i :: 0 <= i < |handler| ==> handler[i] < '\U{0080}'
    ensures Encodable(TrackBox(v, handler)) && TrackBox(v, handler).form == Short
    ensures |SerializeNode(TrackBox(v, handler))| == 92 + |v.before| + 2 * |v.after|
  {
    hide Encodable, SerializeNode, EncodableAll, Serialize, Ascii;
    var stsd := Box("stsd", SampleDescription(v.fourcc, v.after));
    var stbl := Group("stbl", [stsd]);
    var minf := Group("minf", [stbl]);
    var hdlr := Box("hdlr", Handler(handler, v.after));
    var mdia := Group("mdia", [hdlr, minf]);
    var tkhd := Box("tkhd", TrackHeader(v));
    TwoSizes(24 + |v.after|, 0);
    LeafEncodes("stsd", SampleDescription(v.fourcc, v.after));
    EncodesAll([stsd], [24 + |v.after|]);
    GroupEncodes("stbl", [stsd]);
    TwoSizes(32 + |v.after|, 0);
    EncodesAll([stbl], [32 + |v.after|]);
    GroupEncodes("minf", [stbl]);
    LeafEncodes("hdlr", Handler(handler, v.after));
    TwoSizes(20 + |v.after|, 40 + |v.after|);
    EncodesAll([hdlr, minf], [20 + |v.after|, 40 + |v.after|]);
    GroupEncodes("mdia", [hdlr, minf]);
    LeafEncodes("tkhd", TrackHeader(v));
    TwoSizes(16 + |v.before|, 68 + 2 * |v.after|);
    EncodesAll([tkhd, mdia], [16 + |v.before|, 68 + 2 * |v.after|]);
    GroupEncodes("trak", [tkhd, mdia]);
  }

  // ---------------------------------------------------------------------------
  // What is read from a file
  // ---------------------------------------------------------------------------

  predicate AllWritable(k: Clock, sound: Video, v: Video, other: Video, brand: seq<byte>, media: seq<byte>) {
    && WritableClock(k) && Writable(sound) && Writable(v) && Writable(other)
    && |brand| < 1000 && |media| < 0x1_0000_0000 - 8
  }

  lemma {:induction false} FourSizes(a: nat, b: nat, c: nat, d: nat)
    ensures Total([a, b, c, d]) == a + b + c + d && Total([a, b, c]) == a + b + c
  {
    TwoSizes(c, d);
    TwoSizes(c, 0);
    assert [a, b, c, d][1..] == [b, c, d] && [b, c, d][1..] == [c, d];
    assert [a, b, c][1..] == [b, c] && [b, c][1..] == [c];
    assert Total([b, c, d]) == b + Total([c, d]) && Total([b, c]) == b + Total([c]);
  }

  lemma MovieEncodes(k: Clock, sound: Video, v: Video, other: Video)
    requires WritableClock(k) && Writable(sound) && Writable(v) && Writable(other)
    ensures Encodable(MovieBox(k, sound, v, other)) && MovieBox(k, sound, v, other).form == Short
  {
    hide Encodable, SerializeNode, EncodableAll, Serialize, Ascii, TrackBox;
    var mvhd := Box("mvhd", MovieHeader(k));
    var a, b, c := TrackBox(sound, "soun"), TrackBox(v, "vide"), TrackBox(other, "vide");
    LeafEncodes("mvhd", MovieHeader(k));
    TrackEncodes(sound, "soun");
    TrackEncodes(v, "vide");
    TrackEncodes(other, "vide");
    var sizes := [|SerializeNode(mvhd)|, |SerializeNode(a)|, |SerializeNode(b)|, |SerializeNode(c)|];
    FourSizes(sizes[0], sizes[1], sizes[2], sizes[3]);
    EncodesAll([mvhd, a, b, c], sizes);
    GroupEncodes("moov", [mvhd, a, b, c]);
  }

  lemma ToldCons(n: Node, rest: seq<Node>, m: Movie)
    requires WellTyped([n]) && WellTyped(rest)
    ensures WellTyped([n] + rest) && ToldAll([n] + rest, m) == ToldAll(rest, Told(n, m))
  {
    assert ([n] + rest)[1..] == rest;
  }

  lemma HeaderTold(k: Clock, m: Movie)
    requires WritableClock(k)
    ensures var n := Box("mvhd", MovieHeader(k));
            && WellTyped([n])
            && Told(n, m).track == m.track
            && Told(n, m).duration == Seconds(k)
  {
    ClockReads(k);
    Constants();
    Containers();
    hide Ascii, MovieHeader, DurationIn;
  }

  lemma TrackTold(v: Video, handler: string, m: Movie)
    requires Writable(v) && handler in {"vide", "soun"}
    ensures var n := TrackBox(v, handler);
            && WellTyped([n])
            && Told(n, m) == if m.track.Some? || handler == "soun" then m
                             else m.(track := Some((v.fourcc, v.width, v.height)))
  {
    Constants();
    TrackDescribed(v, handler, NO_TRACK);
    Containers();
    hide Ascii, Describe, TrackHeader, SampleDescription, Handler;
    GroupFirst(TrackBox(v, handler), [], NO_TRACK);
    assert [TrackBox(v, handler)] + [] == [TrackBox(v, handler)];
    assert VIDE[0] != Ascii("soun")[0];
    assert MVHD[0] != TRAK[0];
  }

  lemma MovieTold(k: Clock, sound: Video, v: Video, other: Video)
    requires WritableClock(k) && Writable(sound) && Writable(v) && Writable(other)
    ensures var ns := MovieBox(k, sound, v, other).children;
            && WellTyped(ns)
            && ToldAll(ns, NOTHING) == Movie(Seconds(k), Some((v.fourcc, v.width, v.height)))
  {
    hide *;
    var mvhd := Box("mvhd", MovieHeader(k));
    var a, b, c := TrackBox(sound, "soun"), TrackBox(v, "vide"), TrackBox(other, "vide");
    HeaderTold(k, NOTHING);
    var m1 := Told(mvhd, NOTHING);
    MovieChildren(k, sound, v, other);
    Nothing();
    TrackTold(sound, "soun", m1);
    TrackTold(v, "vide", m1);
    var m3 := m1.(track := Some((v.fourcc, v.width, v.height)));
    TrackTold(other, "vide", m3);
    ToldCons(c, [], m3);
    ToldCons(b, [c], m1);
    ToldCons(a, [b, c], m1);
    ToldCons(mvhd, [a, b, c], NOTHING);
    assert [c] + [] == [c] && [b] + [c] == [b, c] && [a] + [b, c] == [a, b, c] && [mvhd] + [a, b, c] == [mvhd, a, b, c];
  }

  lemma Nothing()
    ensures WellTyped([]) && NOTHING.track == None && forall m :: ToldAll([], m) == m
  {}

  lemma MovieChildren(k: Clock, sound: Video, v: Video, other: Video)
    ensures MovieBox(k, sound, v, other).Group?
    ensures MovieBox(k, sound, v, other).children
            == [Box("mvhd", MovieHeader(k)), TrackBox(sound, "soun"), TrackBox(v, "vide"), TrackBox(other, "vide")]
  {}

  lemma FileKinds(k: Clock, sound: Video, v: Video, other: Video, brand: seq<byte>, media: seq<byte>, movieFirst: bool)
    ensures var kinds := NodeKinds(FileBoxes(k, sound, v, other, brand, media, movieFirst));
            && Acceptable(kinds) && (Faststart(kinds) <==> movieFirst)
            && IndexOf(kinds, MOOV) == if movieFirst then 1 else 2
  {
    Constants();
    hide Ascii;
    var kinds := NodeKinds(FileBoxes(k, sound, v, other, brand, media, movieFirst));
    assert kinds == if movieFirst then [FTYP, MOOV, MDAT] else [FTYP, MDAT, MOOV];
    assert kinds[0] == FTYP && FTYP != MOOV && FTYP != MDAT && MOOV != MDAT;
    assert kinds[1..][0] == kinds[1] && kinds[1..][1..][0] == kinds[2];
  }

  /** The whole check, from the values that were written: the verdict follows from the size of the file, the format of
      the first video track, its dimensions and the duration of the movie, in this order; an accepted file is reported
      with exactly these values, and as fast to start if and only if the movie box comes before the media. */
  lemma FileReads(k: Clock, sound: Video, v: Video, other: Video, brand: seq<byte>, media: seq<byte>, movieFirst: bool)
    requires AllWritable(k, sound, v, other, brand, media)
    ensures var data := Serialize(FileBoxes(k, sound, v, other, brand, media, movieFirst));
            var h264 := v.fourcc == Ascii("avc1") || v.fourcc == Ascii("avc3");
            ReadMp4(data) ==
            if |data| > 52_428_800 then Err(VideoSize)
            else if !h264 && v.fourcc != Ascii("av01") then Err(Codec)
            else if v.width < 640 || v.width > 3840 || v.height < 1 || v.height > 3840 then Err(VideoDims)
            else if k.timescale > 0 && k.length as real / k.timescale as real > 60.0 then Err(TooLong)
            else Ok(Info(v.width, v.height, if h264 then "H.264" else "AV1", Seconds(k), movieFirst))
  {
    var ns := FileBoxes(k, sound, v, other, brand, media, movieFirst);
    var m := Movie(Seconds(k), Some((v.fourcc, v.width, v.height)));
    Formats(v.fourcc);
    assert WritableClock(k) && Writable(sound) && Writable(v) && Writable(other);
    hide *;
    FileKinds(k, sound, v, other, brand, media, movieFirst);
    MovieTold(k, sound, v, other);
    FileEncodes(k, sound, v, other, brand, media, movieFirst);
    MovieAt(k, sound, v, other, brand, media, movieFirst);
    var i := if movieFirst then 1 else 2;
    assert ns[i] == MovieBox(k, sound, v, other);
    ReportIs(ns, i, m);
    FileRoundTrip(ns);
    VerdictIs(NodeKinds(ns), k, v);
  }

  lemma Formats(fourcc: seq<byte>)
    ensures CodecName(fourcc) == if fourcc == Ascii("avc1") || fourcc == Ascii("avc3") then Some("H.264")
                                 else if fourcc == Ascii("av01") then Some("AV1") else None
  {
    Constants();
    hide Ascii;
  }

  lemma MovieAt(k: Clock, sound: Video, v: Video, other: Video, brand: seq<byte>, media: seq<byte>, movieFirst: bool)
    ensures var ns := FileBoxes(k, sound, v, other, brand, media, movieFirst);
            |ns| == 3 && ns[if movieFirst then 1 else 2] == MovieBox(k, sound, v, other)
    ensures MovieBox(k, sound, v, other).Group?
  {
    hide Ascii;
  }

  lemma ReportIs(ns: seq<Node>, i: nat, m: Movie)
    requires i < |ns| && IndexOf(NodeKinds(ns), MOOV) == i && Acceptable(NodeKinds(ns))
    requires ns[i].Group? && WellTyped(ns[i].children) && ToldAll(ns[i].children, NOTHING) == m
    ensures HasMovie(ns)
    ensures Report(ns) == if |Serialize(ns)| > 52_428_800 then Err(VideoSize) else Verdict(NodeKinds(ns), m)
  {
    hide WellTyped, ToldAll, Serialize, Acceptable, Verdict;
  }

  lemma VerdictIs(kinds: seq<seq<byte>>, k: Clock, v: Video)
    ensures Verdict(kinds, Movie(Seconds(k), Some((v.fourcc, v.width, v.height)))) ==
            if CodecName(v.fourcc) == None then Err(Codec)
            else if v.width < 640 || v.width > 3840 || v.height < 1 || v.height > 3840 then Err(VideoDims)
            else if k.timescale > 0 && k.length as real / k.timescale as real > 60.0 then Err(TooLong)
            else Ok(Info(v.width, v.height, CodecName(v.fourcc).value, Seconds(k), Faststart(kinds)))
  {
    hide Faststart, CodecName;
  }

  lemma FileEncodes(k: Clock, sound: Video, v: Video, other: Video, brand: seq<byte>, media: seq<byte>,
                    movieFirst: bool)
    requires AllWritable(k, sound, v, other, brand, media)
    ensures EncodableAll(FileBoxes(k, sound, v, other, brand, media, movieFirst))
  {
    hide Encodable, SerializeNode, EncodableAll, Serialize, Ascii, MovieBox, WritableClock, Writable;
    var ns := FileBoxes(k, sound, v, other, brand, media, movieFirst);
    LeafEncodes("ftyp", brand);
    LeafEncodes("mdat", media);
    MovieEncodes(k, sound, v, other);
    EncodesAll(ns, [|SerializeNode(ns[0])|, |SerializeNode(ns[1])|, |SerializeNode(ns[2])|]);
  }

  /** A file with sound only is refused as corrupt; nothing needs to follow the movie box for a fast start. */
  lemma SoundOnlyRefused(k: Clock, sound: Video, brand: seq<byte>)
    requires WritableClock(k) && Writable(sound) && |brand| < 1000
    ensures var movie := Group("moov", [Box("mvhd", MovieHeader(k)), TrackBox(sound, "soun")]);
            ReadMp4(Serialize([Box("ftyp", brand), movie])) == Err(Corrupt)
  {
    var mvhd, track := Box("mvhd", MovieHeader(k)), TrackBox(sound, "soun");
    var ns := [Box("ftyp", brand), Group("moov", [mvhd, track])];
    HeaderTold(k, NOTHING);
    var m := Told(mvhd, NOTHING);
    TrackTold(sound, "soun", m);
    Nothing();
    ToldCons(track, [], m);
    assert [track] + [] == [track] && [mvhd] + [track] == [mvhd, track];
    ToldCons(mvhd, [track], NOTHING);
    TwoKinds(brand, [mvhd, track]);
    SmallEncodes(k, sound, brand);
    hide Ascii, Told, ToldAll, WellTyped, EncodableAll, Serialize, ReadMp4, TrackBox, MovieHeader;
    FileRoundTrip(ns);
  }

  lemma TwoKinds(brand: seq<byte>, children: seq<Node>)
    ensures var kinds := NodeKinds([Box("ftyp", brand), Group("moov", children)]);
            Acceptable(kinds) && Faststart(kinds) && IndexOf(kinds, MOOV) == 1
  {
    Constants();
    hide Ascii;
    var kinds := NodeKinds([Box("ftyp", brand), Group("moov", children)]);
    assert kinds == [FTYP, MOOV] && FTYP != MOOV && kinds[1..][0] == MOOV && MDAT != FTYP && MDAT != MOOV;
  }

  lemma SmallEncodes(k: Clock, sound: Video, brand: seq<byte>)
    requires WritableClock(k) && Writable(sound) && |brand| < 1000
    ensures var ns := [Box("ftyp", brand), Group("moov", [Box("mvhd", MovieHeader(k)), TrackBox(sound, "soun")])];
            EncodableAll(ns) && |Serialize(ns)| <= MAX_VIDEO_BYTES
  {
    hide Encodable, SerializeNode, EncodableAll, Serialize, Ascii, TrackBox;
    var mvhd, track := Box("mvhd", MovieHeader(k)), TrackBox(sound, "soun");
    LeafEncodes("mvhd", MovieHeader(k));
    TrackEncodes(sound, "soun");
    TwoSizes(|SerializeNode(mvhd)|, |SerializeNode(track)|);
    EncodesAll([mvhd, track], [|SerializeNode(mvhd)|, |SerializeNode(track)|]);
    GroupEncodes("moov", [mvhd, track]);
    LeafEncodes("ftyp", brand);
    var ftyp, moov := Box("ftyp", brand), Group("moov", [mvhd, track]);
    TwoSizes(|SerializeNode(ftyp)|, |SerializeNode(moov)|);
    EncodesAll([ftyp, moov], [|SerializeNode(ftyp)|, |SerializeNode(moov)|]);
  }
}
