/** Printing a session description and parsing the text. */
module SdpRoundTrip {
  import opened Common
  import opened Text
  import opened Sdp
  import opened SdpForms

  // ---------------------------------------------------------------- one printed line, parsed

  lemma {:induction false} ParseLinesAppend(p: Progress, a: seq<string>, b: seq<string>)
    ensures ParseLines(p, a + b) ==
            match ParseLines(p, a)
            case Err(e) => Err(e)
            case Ok(q) => ParseLines(q, b)
    decreases |a|
  {
    if a == [] {
      assert a + b == b;
    } else {
      assert (a + b)[1..] == a[1..] + b;
      match ParseLine(p, a[0])
      case Err(_) =>
      case Ok(q) => ParseLinesAppend(q, a[1..], b);
    }
  }

  lemma ParseOneLine(p: Progress, line: string)
    ensures ParseLines(p, [line]) == ParseLine(p, line)
  {
  }

  lemma FieldLine(p: Progress, head: string, value: string)
    requires |head| == 2 && head[1] == '=' && !IsSpace(head[0])
    ensures ParseLine(p, head + value) == ParseField(p, head[0], TrimRight(value))
  {
    TrimLeftIs(head + value);
    TrimRightPrefix(head, value);
    var line := TrimSpace(head + value);
    assert line == head + TrimRight(value);
    assert line[2..] == TrimRight(value);
  }

  lemma SplitTwoAtColon(a: string, b: string)
    requires ':' !in a
    ensures SplitTwo(a + ":" + b, ":") == [a, b]
  {
    CharInContains(a, ':');
    FirstIsTheWritten(a, ":", b);
    var s := a + ":" + b;
    assert s[..|a|] == a && s[|a| + 1..] == b;
  }

  lemma TrimRightAfterColon(a: string, b: string)
    requires !EndsInSpace(b)
    ensures TrimRight(a + ":" + b) == a + ":" + b
  {
  }

  lemma AttributeRead(a: Attribute)
    requires PrintableAttribute(a)
    ensures ParseAttribute(TrimRight(AttributeLine(a)[2..])) == BackAttribute(a)
  {
    if a.value != "" {
      assert AttributeLine(a)[2..] == a.name + ":" + a.value;
      TrimRightAfterColon(a.name, a.value);
      SplitTwoAtColon(a.name, a.value);
    } else {
      assert AttributeLine(a)[2..] == a.name;
      var name := TrimRight(a.name);
      assert ':' !in name;
      CharInContains(name, ':');
    }
  }

  lemma AttributeComesBack(p: Progress, a: Attribute)
    requires PrintableAttribute(a)
    ensures ParseLine(p, AttributeLine(a)) == Ok(p.AddAttributes([BackAttribute(a)]))
  {
    AttributeRead(a);
    FieldLine(p, "a=", AttributeLine(a)[2..]);
    assert AttributeLine(a) == "a=" + AttributeLine(a)[2..];
  }

  lemma BandwidthComesBack(p: Progress, b: Bandwidth)
    requires PrintableBandwidth(b)
    ensures ParseLine(p, BandwidthLine(b)) == Ok(p.AddBandwidth([b]))
  {
    hide Fields, TrimRight, ParseLine, ParseOrigin, ParseConnection, ParseMedia, ParseTiming, ParseAttribute, Atoi;
    hide SplitTwo;
    FieldLine(p, "b=", b.kind + ":" + b.value);
    TrimRightAfterColon(b.kind, b.value);
    SplitTwoAtColon(b.kind, b.value);
  }

  lemma JoinTwo(a: string, b: string)
    ensures Join([a, b], " ") == a + " " + b
  {
  }

  lemma TimingRead(t: Timing)
    requires PrintableTiming(t)
    ensures ParseTiming(TrimRight(t.start + " " + t.stop)) == t
  {
    var text := t.start + " " + t.stop;
    if t.stop == "" {
      assert text == t.start + " ";
      TrimRightDropsSpace(t.start, " ");
      TrimRightIs(t.start);
    } else {
      var f := [t.start, t.stop];
      JoinTwo(t.start, t.stop);
      TokensJoinTidy(f);
      TrimRightIs(text);
      FieldsOfJoin(f);
    }
  }

  lemma TimingComesBack(p: Progress, t: Timing)
    requires PrintableTiming(t)
    ensures ParseLine(p, TimingLine(t)) == Ok(p.AddTiming([t]))
  {
    hide ParseLine, ParseTiming, PrintableTiming, TrimRight;
    TimingRead(t);
    FieldLine(p, "t=", t.start + " " + t.stop);
  }

  /** A line of space-separated tokens reaches its field parser as it was written. */
  lemma TokenLine(p: Progress, head: string, f: seq<string>)
    requires |head| == 2 && head[1] == '=' && !IsSpace(head[0])
    requires |f| > 0 && forall t :: t in f ==> IsToken(t)
    ensures ParseLine(p, head + Join(f, " ")) == ParseField(p, head[0], Join(f, " "))
    ensures Fields(Join(f, " ")) == f
  {
    TokensJoinTidy(f);
    TrimRightIs(Join(f, " "));
    FieldLine(p, head, Join(f, " "));
    FieldsOfJoin(f);
  }

  lemma AddressTextIsToken(c: Connection)
    requires IsToken(c.address)
    ensures IsToken(AddressText(c))
  {
  }

  lemma ConnectionComesBack(p: Progress, c: Connection)
    requires PrintableConnection(c)
    ensures ParseLine(p, ConnectionLine(c)) == Ok(p.SetConnection(BackConnection(c)))
  {
    hide ParseLine, Fields, Join, AddressText, IsToken;
    var f := [c.networkType, c.addressType, AddressText(c)];
    AddressTextIsToken(c);
    TokenLine(p, "c=", f);
    assert ParseConnection(Join(f, " ")) == Ok(BackConnection(c));
  }

  lemma OriginComesBack(p: Progress, o: Origin)
    requires PrintableOrigin(o)
    ensures ParseLine(p, "o=" + Join(OriginFields(o), " ")) == Ok(p.(session := p.session.(origin := o)))
  {
    hide Fields, ParseLine, Join, ParseConnection, ParseMedia, ParseBandwidth, ParseTiming, ParseAttribute, Atoi;
    TokenLine(p, "o=", OriginFields(o));
  }

  lemma PortRead(n: int)
    requires IsInt64(n)
    ensures Atoi(Split(Itoa(n), "/")[0]) == Some(n)
  {
    ItoaLacks(n, '/');
    CharInContains(Itoa(n), '/');
    AtoiOfItoa(n);
  }

  function MediaFields(m: Media): seq<string>
  {
    [m.kind, Itoa(m.port), m.protocol] + m.formats
  }

  lemma MediaHeadFields(m: Media)
    requires |m.formats| > 0
    ensures MediaHead(m) == "m=" + Join(MediaFields(m), " ")
  {
    var f := MediaFields(m);
    var g := [Itoa(m.port), m.protocol] + m.formats;
    var h := [m.protocol] + m.formats;
    assert f[1..] == g && g[1..] == h && h[1..] == m.formats;
    assert Join(h, " ") == m.protocol + " " + Join(m.formats, " ");
    assert Join(g, " ") == Itoa(m.port) + " " + Join(h, " ");
    assert Join(f, " ") == m.kind + " " + Join(g, " ");
  }

  lemma MediaHeadComesBack(p: Progress, m: Media)
    requires PrintableMedia(m)
    ensures ParseLine(p, MediaHead(m)) ==
            Ok(Progress(p.Closed(), Some(Media(m.kind, m.port, m.protocol, m.formats, "", None, [], [], ""))))
  {
    hide ParseLine, Fields, Join, MediaHead, IsToken, Split, Itoa, Atoi, PrintableConnection, PrintableBandwidth;
    hide PrintableAttribute;
    var f := MediaFields(m);
    assert IsToken(Itoa(m.port));
    MediaHeadFields(m);
    TokenLine(p, "m=", f);
    PortRead(m.port);
    assert f[1] == Itoa(m.port) && f[3..] == m.formats;
  }

  lemma TitleIsSkipped(p: Progress, title: string)
    ensures ParseLine(p, "i=" + title) == Ok(p)
  {
    FieldLine(p, "i=", title);
  }

  lemma VersionComesBack(p: Progress, v: int)
    requires IsInt64(v)
    ensures ParseLine(p, "v=" + Itoa(v)) == Ok(p.(session := p.session.(version := v)))
  {
    FieldLine(p, "v=", Itoa(v));
    assert Itoa(v)[|Itoa(v)| - 1] in Itoa(v);
    TrimRightIs(Itoa(v));
    AtoiOfItoa(v);
  }

  lemma NameComesBack(p: Progress, name: string)
    requires !EndsInSpace(name)
    ensures ParseLine(p, "s=" + name) == Ok(p.(session := p.session.(sessionName := name)))
  {
    hide Fields, TrimRight, ParseLine, ParseOrigin, ParseConnection, ParseMedia, ParseBandwidth, ParseTiming;
    hide ParseAttribute, Atoi;
    FieldLine(p, "s=", name);
    TrimRightIs(name);
  }

  // ---------------------------------------------------------------- runs of printed lines, parsed

  lemma ParseLinesCons(p: Progress, line: string, rest: seq<string>, q: Progress)
    requires ParseLine(p, line) == Ok(q)
    ensures ParseLines(p, [line] + rest) == ParseLines(q, rest)
  {
  }

  lemma AddAttributesLaws(p: Progress, a: seq<Attribute>, b: seq<Attribute>)
    ensures p.AddAttributes([]) == p
    ensures p.AddAttributes(a).AddAttributes(b) == p.AddAttributes(a + b)
  {
    var was := if p.current.Some? then p.current.value.attributes else p.session.attributes;
    assert was + [] == was && was + a + b == was + (a + b);
  }

  lemma AddBandwidthLaws(p: Progress, a: seq<Bandwidth>, b: seq<Bandwidth>)
    ensures p.AddBandwidth([]) == p
    ensures p.AddBandwidth(a).AddBandwidth(b) == p.AddBandwidth(a + b)
  {
    var was := if p.current.Some? then p.current.value.bandwidth else p.session.bandwidth;
    assert was + [] == was && was + a + b == was + (a + b);
  }

  lemma AddTimingLaws(p: Progress, a: seq<Timing>, b: seq<Timing>)
    ensures p.AddTiming([]) == p
    ensures p.AddTiming(a).AddTiming(b) == p.AddTiming(a + b)
  {
  }

  lemma {:induction false} AttributesComeBack(p: Progress, attrs: seq<Attribute>)
    requires forall a :: a in attrs ==> PrintableAttribute(a)
    ensures ParseLines(p, Map(AttributeLine, attrs)) == Ok(p.AddAttributes(Map(BackAttribute, attrs)))
    decreases |attrs|
  {
    hide ParseLine, Progress.AddAttributes, BackAttribute, AttributeLine, PrintableAttribute;
    if attrs == [] {
      AddAttributesLaws(p, [], []);
    } else {
      var first, rest := [BackAttribute(attrs[0])], Map(BackAttribute, attrs[1..]);
      AttributeComesBack(p, attrs[0]);
      AttributesComeBack(p.AddAttributes(first), attrs[1..]);
      MapCons(AttributeLine, attrs);
      MapCons(BackAttribute, attrs);
      ParseLinesCons(p, AttributeLine(attrs[0]), Map(AttributeLine, attrs[1..]), p.AddAttributes(first));
      AddAttributesLaws(p, first, rest);
    }
  }

  lemma {:induction false} BandwidthsComeBack(p: Progress, bs: seq<Bandwidth>)
    requires forall b :: b in bs ==> PrintableBandwidth(b)
    ensures ParseLines(p, Map(BandwidthLine, bs)) == Ok(p.AddBandwidth(bs))
    decreases |bs|
  {
    hide ParseLine, Progress.AddBandwidth, BandwidthLine, PrintableBandwidth;
    if bs == [] {
      AddBandwidthLaws(p, [], []);
    } else {
      BandwidthComesBack(p, bs[0]);
      BandwidthsComeBack(p.AddBandwidth([bs[0]]), bs[1..]);
      MapCons(BandwidthLine, bs);
      ParseLinesCons(p, BandwidthLine(bs[0]), Map(BandwidthLine, bs[1..]), p.AddBandwidth([bs[0]]));
      AddBandwidthLaws(p, [bs[0]], bs[1..]);
      assert bs == [bs[0]] + bs[1..];
    }
  }

  lemma {:induction false} TimingsComeBack(p: Progress, ts: seq<Timing>)
    requires forall t :: t in ts ==> PrintableTiming(t)
    ensures ParseLines(p, Map(TimingLine, ts)) == Ok(p.AddTiming(ts))
    decreases |ts|
  {
    hide ParseLine, Progress.AddTiming, TimingLine, PrintableTiming;
    if ts == [] {
      AddTimingLaws(p, [], []);
    } else {
      TimingComesBack(p, ts[0]);
      TimingsComeBack(p.AddTiming([ts[0]]), ts[1..]);
      MapCons(TimingLine, ts);
      ParseLinesCons(p, TimingLine(ts[0]), Map(TimingLine, ts[1..]), p.AddTiming([ts[0]]));
      AddTimingLaws(p, [ts[0]], ts[1..]);
      assert ts == [ts[0]] + ts[1..];
    }
  }

  lemma ConnectionsComeBack(p: Progress, c: Option<Connection>)
    requires c.Some? ==> PrintableConnection(c.value)
    ensures ParseLines(p, ConnectionLines(c)) ==
            Ok(if c.Some? then p.SetConnection(BackConnection(c.value)) else p)
  {
    if c.Some? {
      ParseOneLine(p, ConnectionLine(c.value));
      ConnectionComesBack(p, c.value);
    }
  }

  /** Two runs of lines, one after the other. */
  lemma ParseLinesThen(p: Progress, a: seq<string>, q: Progress, b: seq<string>)
    requires ParseLines(p, a) == Ok(q)
    ensures ParseLines(p, a + b) == ParseLines(q, b)
  {
    hide ParseLine;
    ParseLinesAppend(p, a, b);
  }

  lemma TitlesAreSkipped(p: Progress, m: Media)
    ensures ParseLines(p, TitleLines(m)) == Ok(p)
  {
    hide ParseLine;
    if m.title != "" {
      ParseOneLine(p, "i=" + m.title);
      TitleIsSkipped(p, m.title);
    }
  }

  /** A printed media section opens a section that holds what comes back of it. */
  lemma MediaComesBack(p: Progress, m: Media)
    requires PrintableMedia(m)
    ensures ParseLines(p, MediaLines(m)) == Ok(Progress(p.Closed(), Some(BackMedia(m))))
  {
    hide ParseLine, ParseLines, MediaHead, PrintableConnection, PrintableBandwidth, PrintableAttribute;
    hide ConnectionLines, TitleLines;
    hide BandwidthLine, AttributeLine, BackAttribute, BackConnection, Map;
    var p0 := Progress(p.Closed(), Some(Media(m.kind, m.port, m.protocol, m.formats, "", None, [], [], "")));
    MediaHeadComesBack(p, m);
    ParseOneLine(p, MediaHead(m));
    TitlesAreSkipped(p0, m);
    ParseLinesThen(p, [MediaHead(m)], p0, TitleLines(m));
    var p1 := if m.connection.Some? then p0.SetConnection(BackConnection(m.connection.value)) else p0;
    ConnectionsComeBack(p0, m.connection);
    ParseLinesThen(p, [MediaHead(m)] + TitleLines(m), p0, ConnectionLines(m.connection));
    var p2 := p1.AddBandwidth(m.bandwidth);
    BandwidthsComeBack(p1, m.bandwidth);
    ParseLinesThen(p, [MediaHead(m)] + TitleLines(m) + ConnectionLines(m.connection), p1,
                   Map(BandwidthLine, m.bandwidth));
    AttributesComeBack(p2, m.attributes);
    ParseLinesThen(p, [MediaHead(m)] + TitleLines(m) + ConnectionLines(m.connection) + Map(BandwidthLine, m.bandwidth),
                   p2, Map(AttributeLine, m.attributes));
    assert MediaLines(m) == [MediaHead(m)] + TitleLines(m) + ConnectionLines(m.connection)
                            + Map(BandwidthLine, m.bandwidth) + Map(AttributeLine, m.attributes);
    assert [] + m.bandwidth == m.bandwidth && [] + Map(BackAttribute, m.attributes) == Map(BackAttribute, m.attributes);
  }

  /** All lines of the media sections, one after the other. */
  function AllMediaLines(media: seq<Media>): seq<string>
  {
    if media == [] then [] else MediaLines(media[0]) + AllMediaLines(media[1..])
  }

  function AllLines(s: Session): (lines: seq<string>)
    ensures |lines| > 0
  {
    HeaderLines(s) + AllMediaLines(s.media)
  }

  lemma NothingToParse(p: Progress)
    ensures ParseLines(p, []) == Ok(p) && Map(BackMedia, []) == []
  {
  }

  lemma {:induction false} AllMediaComesBack(p: Progress, media: seq<Media>)
    requires forall m :: m in media ==> PrintableMedia(m)
    ensures var r := ParseLines(p, AllMediaLines(media));
            r.Ok? && r.value.Closed() == p.Closed().(media := p.Closed().media + Map(BackMedia, media))
    decreases |media|
  {
    hide ParseLine, ParseLines, PrintableMedia, MediaLines, BackMedia, Map;
    if media == [] {
      NothingToParse(p);
      assert p.Closed().media + [] == p.Closed().media;
    } else {
      var q := Progress(p.Closed(), Some(BackMedia(media[0])));
      MediaComesBack(p, media[0]);
      ParseLinesThen(p, MediaLines(media[0]), q, AllMediaLines(media[1..]));
      AllMediaComesBack(q, media[1..]);
      MapCons(BackMedia, media);
      assert p.Closed().media + [BackMedia(media[0])] + Map(BackMedia, media[1..])
          == p.Closed().media + ([BackMedia(media[0])] + Map(BackMedia, media[1..]));
    }
  }

  function FirstLines(s: Session): seq<string>
  {
    ["v=" + Itoa(s.version), "o=" + Join(OriginFields(s.origin), " "), "s=" + s.sessionName]
  }

  lemma FirstLinesComeBack(s: Session, raw: string)
    requires PrintableOrigin(s.origin) && PrintableHeader(s)
    ensures ParseLines(Progress(Blank(raw), None), FirstLines(s))
         == Ok(Progress(Blank(raw).(version := s.version, origin := s.origin, sessionName := s.sessionName), None))
  {
    hide ParseLine, PrintableConnection, PrintableBandwidth, PrintableAttribute, PrintableTiming, PrintableMedia;
    hide PrintableOrigin;
    hide Itoa, Join;
    var l := FirstLines(s);
    var p0 := Progress(Blank(raw), None);
    VersionComesBack(p0, s.version);
    var p1 := Progress(Blank(raw).(version := s.version), None);
    OriginComesBack(p1, s.origin);
    var p2 := p1.(session := p1.session.(origin := s.origin));
    NameComesBack(p2, s.sessionName);
    var p3 := p2.(session := p2.session.(sessionName := s.sessionName));
    ParseLinesCons(p2, l[2], [], p3);
    ParseLinesCons(p1, l[1], [l[2]], p2);
    ParseLinesCons(p0, l[0], [l[1], l[2]], p1);
    assert [l[2]] + [] == [l[2]] && [l[1]] + [l[2]] == [l[1], l[2]] && [l[0]] + [l[1], l[2]] == l;
  }

  lemma HeaderComesBack(s: Session, raw: string)
    requires PrintableOrigin(s.origin) && PrintableHeader(s)
    ensures ParseLines(Progress(Blank(raw), None), HeaderLines(s)) == Ok(Progress(Back(s.(media := []), raw), None))
  {
    hide ParseLine, ParseLines, PrintableConnection, PrintableBandwidth, PrintableAttribute, PrintableTiming;
    hide PrintableMedia;
    hide BandwidthLine, AttributeLine, TimingLine, BackAttribute, BackConnection, BackMedia, Map, PrintableOrigin;
    hide Itoa, Join, ConnectionLines;
    var start := Progress(Blank(raw), None);
    var p0 := Progress(Blank(raw).(version := s.version, origin := s.origin, sessionName := s.sessionName), None);
    FirstLinesComeBack(s, raw);
    var l0 := FirstLines(s);
    var p1 := if s.connection.Some? then p0.SetConnection(BackConnection(s.connection.value)) else p0;
    ConnectionsComeBack(p0, s.connection);
    ParseLinesThen(start, l0, p0, ConnectionLines(s.connection));
    var l1 := l0 + ConnectionLines(s.connection);
    BandwidthsComeBack(p1, s.bandwidth);
    var p2 := p1.AddBandwidth(s.bandwidth);
    ParseLinesThen(start, l1, p1, Map(BandwidthLine, s.bandwidth));
    var l2 := l1 + Map(BandwidthLine, s.bandwidth);
    TimingsComeBack(p2, s.timing);
    var p3 := p2.AddTiming(s.timing);
    ParseLinesThen(start, l2, p2, Map(TimingLine, s.timing));
    var l3 := l2 + Map(TimingLine, s.timing);
    AttributesComeBack(p3, s.attributes);
    ParseLinesThen(start, l3, p3, Map(AttributeLine, s.attributes));
    assert HeaderLines(s) == l3 + Map(AttributeLine, s.attributes);
    assert [] + s.bandwidth == s.bandwidth && [] + s.timing == s.timing;
    assert [] + Map(BackAttribute, s.attributes) == Map(BackAttribute, s.attributes);
  }

  // ---------------------------------------------------------------- the printed text, split again

  lemma UnbrokenAfter(head: string, s: string)
    requires '\r' !in head && Unbroken(s)
    ensures Unbroken(head + s)
  {
    NoCrlfWithoutCr(head);
    NoCrlfConcat(head, s);
  }

  lemma UnbrokenBefore(s: string, tail: string)
    requires Unbroken(s) && tail != "" && tail[0] != '\n' && Unbroken(tail)
    ensures Unbroken(s + tail)
  {
    NoCrlfConcat(s, tail);
  }

  lemma TokensUnbroken(head: string, f: seq<string>)
    requires '\r' !in head && |f| > 0 && forall t :: t in f ==> IsToken(t)
    ensures Unbroken(head + Join(f, " "))
  {
    TokensJoinTidy(f);
    NoCrlfWithoutCr(Join(f, " "));
    UnbrokenAfter(head, Join(f, " "));
  }

  lemma ColonPairUnbroken(head: string, a: string, b: string)
    requires '\r' !in head && Unbroken(a) && Unbroken(b)
    ensures Unbroken(head + (a + ":" + b))
  {
    UnbrokenAfter(":", b);
    UnbrokenBefore(a, ":" + b);
    assert a + ":" + b == a + (":" + b);
    UnbrokenAfter(head, a + ":" + b);
  }

  lemma AttributeLineUnbroken(a: Attribute)
    requires PrintableAttribute(a)
    ensures Unbroken(AttributeLine(a))
  {
    if a.value != "" {
      ColonPairUnbroken("a=", a.name, a.value);
    } else {
      UnbrokenAfter("a=", a.name);
    }
  }

  lemma TimingLineUnbroken(t: Timing)
    requires PrintableTiming(t)
    ensures Unbroken(TimingLine(t))
  {
    if t.stop == "" {
      NoCrlfWithoutCr(" ");
      UnbrokenBefore(t.start, " ");
      assert t.start + " " + t.stop == t.start + " ";
      UnbrokenAfter("t=", t.start + " ");
    } else {
      JoinTwo(t.start, t.stop);
      TokensUnbroken("t=", [t.start, t.stop]);
    }
  }

  lemma ConnectionLineUnbroken(c: Connection)
    requires PrintableConnection(c)
    ensures Unbroken(ConnectionLine(c))
  {
    AddressTextIsToken(c);
    TokensUnbroken("c=", [c.networkType, c.addressType, AddressText(c)]);
  }

  lemma MediaHeadUnbroken(m: Media)
    requires WritableMedia(m)
    ensures Unbroken(MediaHead(m))
  {
    hide Itoa;
    assert IsSpace('\r');
    ItoaLacks(m.port, '\r');
    if m.formats != [] { TokensJoinTidy(m.formats); }
    assert '\r' !in Join(m.formats, " ");
    NoCrlfWithoutCr(MediaHead(m));
  }

  lemma MediaLinesUnbroken(m: Media)
    requires WritableMedia(m)
    ensures forall l :: l in MediaLines(m) ==> Unbroken(l)
  {
    hide Join, AttributeLine, BandwidthLine, ConnectionLine, MediaHead;
    hide PrintableConnection, PrintableBandwidth, PrintableAttribute, Unbroken;
    MediaHeadUnbroken(m);
    UnbrokenAfter("i=", m.title);
    if m.connection.Some? { ConnectionLineUnbroken(m.connection.value); }
    forall b | b in m.bandwidth ensures Unbroken(BandwidthLine(b)) { BandwidthLineUnbroken(b); }
    forall a | a in m.attributes ensures Unbroken(AttributeLine(a)) { AttributeLineUnbroken(a); }
  }

  lemma BandwidthLineUnbroken(b: Bandwidth)
    requires PrintableBandwidth(b)
    ensures Unbroken(BandwidthLine(b))
  {
    ColonPairUnbroken("b=", b.kind, b.value);
  }

  lemma VersionLineUnbroken(version: int)
    ensures Unbroken("v=" + Itoa(version))
  {
    ItoaLacks(version, '\r');
    NoCrlfWithoutCr("v=" + Itoa(version));
  }

  function OriginLine(o: Origin): string { "o=" + Join(OriginFields(o), " ") }

  lemma HeaderLinesUnbroken(s: Session)
    requires PrintableHeader(s) && Unbroken(OriginLine(s.origin))
    ensures forall l :: l in HeaderLines(s) ==> Unbroken(l)
  {
    hide Join, AttributeLine, BandwidthLine, TimingLine, ConnectionLine;
    hide PrintableConnection, PrintableBandwidth, PrintableAttribute, PrintableTiming, PrintableMedia, Unbroken;
    VersionLineUnbroken(s.version);
    UnbrokenAfter("s=", s.sessionName);
    if s.connection.Some? { ConnectionLineUnbroken(s.connection.value); }
    forall b | b in s.bandwidth ensures Unbroken(BandwidthLine(b)) { BandwidthLineUnbroken(b); }
    forall t | t in s.timing ensures Unbroken(TimingLine(t)) { TimingLineUnbroken(t); }
    forall a | a in s.attributes ensures Unbroken(AttributeLine(a)) { AttributeLineUnbroken(a); }
  }

  lemma {:induction false} AllMediaLinesUnbroken(media: seq<Media>)
    requires forall m :: m in media ==> WritableMedia(m)
    ensures forall l :: l in AllMediaLines(media) ==> Unbroken(l)
    decreases |media|
  {
    hide MediaLines, WritableMedia, Unbroken;
    if media == [] {
    } else {
      MediaLinesUnbroken(media[0]);
      AllMediaLinesUnbroken(media[1..]);
    }
  }

  /** Joining a text that was itself joined is joining all its lines at once. */
  lemma JoinInline(a: seq<string>, b: seq<string>, c: seq<string>)
    requires |a| > 0 && |b| > 0
    ensures Join(a + [Join(b, CRLF)] + c, CRLF) == Join(a + b + c, CRLF)
  {
    hide Join;
    var one := [Join(b, CRLF)];
    assert Join(one, CRLF) == Join(b, CRLF) by { JoinSingle(Join(b, CRLF)); }
    JoinAppend(a, one, CRLF);
    JoinAppend(a, b, CRLF);
    if c == [] {
      assert a + one + c == a + one && a + b + c == a + b;
    } else {
      JoinAppend(a + one, c, CRLF);
      JoinAppend(a + b, c, CRLF);
    }
  }

  lemma JoinSingle(s: string)
    ensures Join([s], CRLF) == s
  {
  }

  lemma {:induction false} JoinMediaTexts(head: seq<string>, media: seq<Media>)
    requires |head| > 0
    ensures Join(head + Map(MediaText, media), CRLF) == Join(head + AllMediaLines(media), CRLF)
    decreases |media|
  {
    hide Join, MediaLines;
    if media != [] {
      var rest := Map(MediaText, media[1..]);
      MapCons(MediaText, media);
      assert head + Map(MediaText, media) == head + [MediaText(media[0])] + rest;
      JoinInline(head, MediaLines(media[0]), rest);
      JoinMediaTexts(head + MediaLines(media[0]), media[1..]);
      assert head + AllMediaLines(media) == head + MediaLines(media[0]) + AllMediaLines(media[1..]);
    } else {
      assert Map(MediaText, media) == AllMediaLines(media);
    }
  }

  lemma PrintedLines(s: Session)
    requires PrintableHeader(s) && Unbroken(OriginLine(s.origin))
    requires forall m :: m in s.media ==> WritableMedia(m)
    ensures TextLines(PrintText(s)) == AllLines(s) + [""]
  {
    hide Join, HeaderLines, WritableMedia, PrintableHeader, MediaLines;
    HeaderLinesUnbroken(s);
    AllMediaLinesUnbroken(s.media);
    NoCrlfWithoutCr("");
    JoinMediaTexts(HeaderLines(s), s.media);
    JoinAppend(AllLines(s), [""], CRLF);
    JoinSingle("");
    assert PrintText(s) == Join(AllLines(s) + [""], CRLF) by {
      assert Join(AllLines(s), CRLF) + CRLF + "" == Join(AllLines(s), CRLF) + CRLF;
    }
    CrlfIsBorderless();
    SplitOfJoin(AllLines(s) + [""], CRLF);
  }

  lemma OriginLineUnbroken(o: Origin)
    requires PrintableOrigin(o)
    ensures Unbroken(OriginLine(o))
  {
    TokensUnbroken("o=", OriginFields(o));
  }

  lemma BlankLineIsSkipped(p: Progress)
    ensures ParseLines(p, [""]) == Ok(p)
  {
  }

  /** Printing what can be printed and parsing the text gives the session with its connections' TTL and
      count folded into the address, its titles gone and its valueless attributes' names trimmed. */
  lemma ParseOfPrint(s: Session)
    requires Printable(s)
    ensures ParseText(PrintText(s)) == Ok(Back(s, PrintText(s)))
  {
    hide ParseLine, ParseLines, HeaderLines, AllMediaLines, PrintText, PrintableOrigin, WritableMedia, TextLines;
    hide PrintableConnection, PrintableBandwidth, PrintableAttribute, PrintableTiming, Unbroken, BackMedia;
    var text := PrintText(s);
    OriginLineUnbroken(s.origin);
    PrintedLines(s);
    var start := Progress(Blank(text), None);
    var mid := Progress(Back(s.(media := []), text), None);
    HeaderComesBack(s, text);
    ParseLinesThen(start, HeaderLines(s), mid, AllMediaLines(s.media));
    AllMediaComesBack(mid, s.media);
    var end := ParseLines(mid, AllMediaLines(s.media)).value;
    ParseLinesThen(start, AllLines(s), end, [""]);
    BlankLineIsSkipped(end);
    assert mid.Closed().media == [];
    assert [] + Map(BackMedia, s.media) == Map(BackMedia, s.media);
  }

  // ---------------------------------------------------------------- when it is the same session

  lemma AttributesBackSame(attrs: seq<Attribute>)
    ensures Map(BackAttribute, attrs) == attrs <==> forall a :: a in attrs ==> TidyAttribute(a)
  {
    forall a ensures BackAttribute(a) == a <==> TidyAttribute(a) {
      if !EndsInSpace(a.name) { TrimRightIs(a.name); }
    }
    if Map(BackAttribute, attrs) == attrs {
      forall a | a in attrs ensures TidyAttribute(a) {
        var i :| 0 <= i < |attrs| && attrs[i] == a;
        assert Map(BackAttribute, attrs)[i] == BackAttribute(a);
      }
    }
  }

  lemma ConnectionBackSame(c: Option<Connection>)
    ensures MapOption(BackConnection, c) == c <==> PlainConnection(c)
  {
  }

  lemma MediaBackSame(m: Media)
    ensures BackMedia(m) == MediaWithoutRaw(m) <==> TidyMedia(m) && PlainConnection(m.connection)
  {
    AttributesBackSame(m.attributes);
    ConnectionBackSame(m.connection);
  }

  lemma SectionsBackSame(media: seq<Media>)
    ensures Map(MediaWithoutRaw, Map(BackMedia, media)) == Map(MediaWithoutRaw, media)
       <==> forall m :: m in media ==> TidyMedia(m) && PlainConnection(m.connection)
  {
    hide BackMedia, TidyMedia, PlainConnection, MediaWithoutRaw;
    var l, r := Map(MediaWithoutRaw, Map(BackMedia, media)), Map(MediaWithoutRaw, media);
    forall i | 0 <= i < |media|
      ensures l[i] == r[i] <==> TidyMedia(media[i]) && PlainConnection(media[i].connection)
    {
      MediaBackSame(media[i]);
      BackMediaHasNoRaw(media[i]);
    }
    if l == r {
      forall m | m in media ensures TidyMedia(m) && PlainConnection(m.connection) {
        var i :| 0 <= i < |media| && media[i] == m;
        assert l[i] == r[i];
      }
    }
  }

  lemma BackMediaHasNoRaw(m: Media)
    ensures MediaWithoutRaw(BackMedia(m)) == BackMedia(m)
  {
  }

  /** The printed form of any printable session parses, and gives the session itself, raw text aside,
      exactly when the session is in normal form. */
  lemma RoundTrip(s: Session)
    requires Printable(s)
    ensures ParseText(PrintText(s)).Ok?
    ensures WithoutRaw(ParseText(PrintText(s)).value) == WithoutRaw(s) <==> Normal(s)
  {
    hide ParseText, PrintText, PrintableOrigin, PrintableBody, BackMedia, BackConnection, BackAttribute, AddressText;
    ParseOfPrint(s);
    ConnectionBackSame(s.connection);
    AttributesBackSame(s.attributes);
    SectionsBackSame(s.media);
  }
}
