/** What is read from a text and what is written to it, in plain characters. */
module SdpReading {
  import opened Common
  import opened Text
  import opened Sdp
  import opened SdpForms
  import opened SdpRoundTrip
  import opened SdpCodecs

  // ---------------------------------------------------------------- line breaks

  lemma {:induction false} RawIsIgnored(p: Progress, raw: string, lines: seq<string>)
    ensures var r := ParseLines(p, lines);
            ParseLines(p.(session := p.session.(raw := raw)), lines)
            == if r.Err? then r else Ok(r.value.(session := r.value.session.(raw := raw)))
    decreases |lines|
  {
    hide ParseLine;
    if lines == [] {
    } else {
      RawIsIgnoredByLine(p, raw, lines[0]);
      if ParseLine(p, lines[0]).Ok? { RawIsIgnored(ParseLine(p, lines[0]).value, raw, lines[1..]); }
    }
  }

  lemma RawIsIgnoredByLine(p: Progress, raw: string, line: string)
    ensures var r := ParseLine(p, line);
            ParseLine(p.(session := p.session.(raw := raw)), line)
            == if r.Err? then r else Ok(r.value.(session := r.value.session.(raw := raw)))
  {
    hide TrimSpace, ParseOrigin, ParseConnection, ParseMedia, ParseBandwidth, ParseTiming, ParseAttribute, Atoi;
  }

  lemma LfIsBorderless()
    ensures Borderless("\n")
  {
  }

  /** Lines without a break of any kind are the lines of their text, whichever break stands between them. */
  lemma LinesAreRead(lines: seq<string>)
    requires lines != [] && forall l :: l in lines ==> '\r' !in l && '\n' !in l
    ensures TextLines(Join(lines, "\n")) == lines && TextLines(Join(lines, "\r\n")) == lines
  {
    hide Split, Join, Borderless, MatchAt;
    CrlfIsBorderless();
    LfIsBorderless();
    forall l | l in lines ensures !Contains(l, "\r\n") && !Contains(l, "\n") {
      NoCrlfWithoutCr(l);
      CharInContains(l, '\n');
    }
    SplitOfJoin(lines, "\r\n");
    SplitOfJoin(lines, "\n");
    NoCrInJoin(lines);
    NoCrlfWithoutCr(Join(lines, "\n"));
    SplitWhole(Join(lines, "\n"), "\r\n");
    if |lines| == 1 { JoinSame(lines); }
  }

  lemma SplitWhole(s: string, sep: string)
    requires |sep| > 0 && !Contains(s, sep)
    ensures Split(s, sep) == [s]
  {
  }

  lemma JoinSame(lines: seq<string>)
    requires |lines| == 1
    ensures Join(lines, "\n") == Join(lines, "\r\n")
  {
  }

  lemma {:induction false} NoCrInJoin(lines: seq<string>)
    requires forall l :: l in lines ==> '\r' !in l
    ensures '\r' !in Join(lines, "\n")
  {
    if |lines| <= 1 {
    } else {
      NoCrInJoin(lines[1..]);
    }
  }

  /** A text is read in the same way with line feeds as with carriage returns and line feeds: the same error, or the
      same session, the text itself aside. */
  lemma LineBreaksAreEqual(lines: seq<string>)
    requires lines != [] && forall l :: l in lines ==> '\r' !in l && '\n' !in l
    ensures var lf, crlf := ParseText(Join(lines, "\n")), ParseText(Join(lines, "\r\n"));
            if lf.Err? then crlf == lf
            else crlf == Ok(lf.value.(raw := Join(lines, "\r\n"))) && lf.value.raw == Join(lines, "\n")
  {
    hide ParseLines, TextLines, Join;
    var a, b := Join(lines, "\n"), Join(lines, "\r\n");
    LinesAreRead(lines);
    var p := Progress(Blank(a), None);
    RawIsIgnored(p, b, lines);
    RawIsIgnored(p, a, lines);
    assert p.(session := p.session.(raw := a)) == p;
    assert Progress(Blank(b), None) == p.(session := p.session.(raw := b));
  }

  /** A text with a CRLF anywhere is broken at those alone, and a text without any at each line feed. */
  lemma BreaksOfText(text: string)
    ensures Contains(text, "\r\n") ==> TextLines(text) == Split(text, "\r\n")
    ensures !Contains(text, "\r\n") ==> TextLines(text) == Split(text, "\n")
  {
  }

  // ---------------------------------------------------------------- what a line is read as

  /** Five tokens, or three or four; a number that cannot be read is zero. */
  lemma ReadConnection(p: Progress, f: seq<string>)
    requires forall t :: t in f ==> IsToken(t)
    ensures f != [] && |f| < 3 ==> ParseLine(p, "c=" + Join(f, " ")) == Err(InvalidConnection)
    ensures |f| >= 3 ==>
              var ttl := if |f| > 3 && Atoi(f[3]).Some? then Atoi(f[3]).value else 0;
              var count := if |f| > 4 && Atoi(f[4]).Some? then Atoi(f[4]).value else 0;
              var c := Connection(f[0], f[1], f[2], ttl, count);
              ParseLine(p, "c=" + Join(f, " ")) ==
              Ok(if p.current.Some? then p.(current := Some(p.current.value.(connection := Some(c))))
                 else p.(session := p.session.(connection := Some(c))))
  {
    hide ParseLine, Fields, Join, IsToken, Atoi;
    if f != [] { TokenLine(p, "c=", f); }
  }

  /** So the TTL stands before the count. */
  lemma ReadTtlAndCount(p: Progress, network: string, kind: string, address: string, ttl: int, count: int)
    requires IsToken(network) && IsToken(kind) && IsToken(address) && IsInt64(ttl) && IsInt64(count)
    requires p.current == None
    ensures ParseLine(p, "c=" + (network + " " + (kind + " " + (address + " " + (Itoa(ttl) + " " + Itoa(count)))))) ==
            Ok(p.(session := p.session.(connection := Some(Connection(network, kind, address, ttl, count)))))
  {
    hide ParseLine, Join, IsToken, Itoa, Atoi;
    var f := [network, kind, address, Itoa(ttl), Itoa(count)];
    AtoiOfItoa(ttl);
    AtoiOfItoa(count);
    JoinFive(f);
    ReadConnection(p, f);
  }

  lemma JoinFive(f: seq<string>)
    requires |f| == 5
    ensures Join(f, " ") == f[0] + " " + (f[1] + " " + (f[2] + " " + (f[3] + " " + f[4])))
  {
    JoinHead(f);
    JoinHead(f[1..]);
    JoinHead(f[2..]);
    JoinHead(f[3..]);
    assert f[1..][1..] == f[2..] && f[2..][1..] == f[3..] && f[3..][1..] == [f[4]];
  }

  lemma JoinHead(f: seq<string>)
    requires |f| > 1
    ensures Join(f, " ") == f[0] + " " + Join(f[1..], " ")
    ensures |f| == 2 ==> Join(f[1..], " ") == f[1]
  {
    assert |f| == 2 ==> f[1..] == [f[1]];
    assert f[0] + " " + Join(f[1..], " ") == f[0] + (" " + Join(f[1..], " "));
  }

  /** Six tokens or more; the first six count. */
  lemma ReadOrigin(p: Progress, f: seq<string>)
    requires f != [] && forall t :: t in f ==> IsToken(t)
    ensures ParseLine(p, "o=" + Join(f, " ")) ==
            if |f| < 6 then Err(InvalidOrigin)
            else Ok(p.(session := p.session.(origin := Origin(f[0], f[1], f[2], f[3], f[4], f[5]))))
  {
    hide ParseLine, Fields, Join, IsToken;
    TokenLine(p, "o=", f);
  }

  /** Four tokens or more: the number before the first slash of the second is the port, and the tokens from the fourth
      on are the formats. The open section, if any, is closed. */
  lemma ReadMediaLine(p: Progress, f: seq<string>, ports: string, more: string)
    requires |f| >= 2 && (forall t :: t in f ==> IsToken(t)) && '/' !in ports
    requires f[1] == ports || f[1] == ports + "/" + more
    ensures ParseLine(p, "m=" + Join(f, " ")) ==
            if |f| < 4 then Err(InvalidMedia)
            else if Atoi(ports).None? then Err(InvalidPort)
            else
              var sections := p.session.media + (if p.current.Some? then [p.current.value] else []);
              Ok(Progress(p.session.(media := sections),
                          Some(Media(f[0], Atoi(ports).value, f[2], f[3..], "", None, [], [], ""))))
  {
    hide ParseLine, Fields, Join, IsToken, Atoi, Split;
    TokenLine(p, "m=", f);
    BeforeSlash(ports, more);
    assert p.session.media + [] == p.session.media;
  }

  lemma BeforeSlash(a: string, b: string)
    requires '/' !in a
    ensures Split(a, "/")[0] == a && Split(a + "/" + b, "/")[0] == a
  {
    CharInContains(a, '/');
    FirstIsTheWritten(a, "/", b);
    assert (a + "/" + b)[..|a|] == a;
  }

  /** The first two tokens, or all of the text when there are fewer. */
  lemma ReadTimingLine(p: Progress, f: seq<string>)
    requires f != [] && forall t :: t in f ==> IsToken(t)
    ensures ParseLine(p, "t=" + Join(f, " ")) ==
            Ok(p.AddTiming([if |f| == 1 then Timing(f[0], "") else Timing(f[0], f[1])]))
  {
    hide ParseLine, Fields, Join, IsToken;
    TokenLine(p, "t=", f);
    if |f| == 1 { JoinOfOne(f); }
  }

  lemma JoinOfOne(f: seq<string>)
    requires |f| == 1
    ensures Join(f, " ") == f[0]
  {
  }

  /** A version is a number and nothing else. */
  lemma ReadVersion(p: Progress, value: string)
    requires !EndsInSpace(value)
    ensures ParseLine(p, "v=" + value) ==
            if Atoi(value).None? then Err(InvalidVersion(value))
            else Ok(p.(session := p.session.(version := Atoi(value).value)))
  {
    hide ParseLine, TrimRight, Atoi;
    FieldLine(p, "v=", value);
    TrimRightIs(value);
  }

  /** The text before the first colon and the text behind it; without a colon all of it is the name. */
  lemma ReadAttributeLine(p: Progress, name: string, value: string)
    requires ':' !in name && !EndsInSpace(name) && !EndsInSpace(value)
    ensures ParseLine(p, "a=" + name) == Ok(p.AddAttributes([Attribute(name, "")]))
    ensures ParseLine(p, "a=" + (name + ":" + value)) == Ok(p.AddAttributes([Attribute(name, value)]))
  {
    hide ParseLine, TrimRight, SplitTwo;
    FieldLine(p, "a=", name);
    FieldLine(p, "a=", name + ":" + value);
    TrimRightIs(name);
    TrimRightIs(name + ":" + value);
    SplitTwoAtColon(name, value);
    NoColon(name);
  }

  lemma ReadBandwidthLine(p: Progress, kind: string, value: string)
    requires ':' !in kind && !EndsInSpace(kind) && !EndsInSpace(value)
    ensures ParseLine(p, "b=" + kind) == Ok(p.AddBandwidth([Bandwidth(kind, "")]))
    ensures ParseLine(p, "b=" + (kind + ":" + value)) == Ok(p.AddBandwidth([Bandwidth(kind, value)]))
  {
    hide ParseLine, TrimRight, SplitTwo;
    FieldLine(p, "b=", kind);
    FieldLine(p, "b=", kind + ":" + value);
    TrimRightIs(kind);
    TrimRightIs(kind + ":" + value);
    SplitTwoAtColon(kind, value);
    NoColon(kind);
  }

  lemma NoColon(s: string)
    requires ':' !in s
    ensures SplitTwo(s, ":") == [s]
  {
    CharInContains(s, ':');
  }

  /** White space around a line, lines of another type, lines without '=' in the second place and lines too short for it
      say nothing. */
  lemma ReadOtherLine(p: Progress, raw: string)
    requires var line := TrimSpace(raw);
             |line| < 2 || line[1] != '=' || line[0] !in {'v', 'o', 's', 'c', 'b', 't', 'm', 'a'}
    ensures ParseLine(p, raw) == Ok(p)
  {
    hide TrimSpace;
  }

  lemma {:induction false} OtherLines(p: Progress, lines: seq<string>)
    requires forall l :: l in lines ==>
               var line := TrimSpace(l);
               |line| < 2 || line[1] != '=' || line[0] !in {'v', 'o', 's', 'c', 'b', 't', 'm', 'a'}
    ensures ParseLines(p, lines) == Ok(p)
    decreases |lines|
  {
    hide TrimSpace, ParseLine;
    if lines != [] {
      ReadOtherLine(p, lines[0]);
      OtherLines(p, lines[1..]);
    }
  }

  /** A text of which no line says anything is a session with nothing in it. */
  lemma NothingIsSaid(text: string)
    requires forall l :: l in TextLines(text) ==>
               var line := TrimSpace(l);
               |line| < 2 || line[1] != '=' || line[0] !in {'v', 'o', 's', 'c', 'b', 't', 'm', 'a'}
    ensures ParseText(text) == Ok(Session(0, Origin("", "", "", "", "", ""), "", None, [], [], [], [], text))
  {
    hide TrimSpace, TextLines;
    OtherLines(Progress(Blank(text), None), TextLines(text));
  }

  /** What has been read so far decides nothing of a later line but where it goes; the first bad line is the error. */
  lemma FirstBadLine(p: Progress, lines: seq<string>, q: Progress, bad: string, rest: seq<string>)
    requires ParseLines(p, lines) == Ok(q) && ParseLine(q, bad).Err?
    ensures ParseLines(p, lines + [bad] + rest) == Err(ParseLine(q, bad).error)
  {
    hide ParseLine;
    ParseLinesAppend(p, lines, [bad] + rest);
    assert lines + [bad] + rest == lines + ([bad] + rest);
    assert ([bad] + rest)[0] == bad;
  }

  // ---------------------------------------------------------------- what is written

  /** The connection line, with the TTL before the count. */
  lemma WrittenConnection(c: Connection)
    ensures ConnectionLine(c) ==
            "c=" + (c.networkType + " " + (c.addressType + " " +
                      (if c.ttl <= 0 then c.address
                       else if c.count <= 0 then c.address + "/" + Itoa(c.ttl)
                       else c.address + "/" + Itoa(c.ttl) + "/" + Itoa(c.count))))
  {
    hide Join, Itoa;
    JoinThree(c.networkType, c.addressType, AddressText(c));
  }

  /** A section's text: the parts in order, each with its fields in order. */
  lemma WrittenSection(m: Media) returns (parts: seq<string>)
    ensures MediaText(m) == Join(parts, "\r\n")
    ensures var i, c := if m.title == "" then 0 else 1, if m.connection == None then 0 else 1;
            var b, a := 1 + i + c, 1 + i + c + |m.bandwidth|;
            && |parts| == a + |m.attributes|
            && parts[0] == "m=" + (m.kind + " " + (Itoa(m.port) + " " + (m.protocol + " " + Join(m.formats, " "))))
            && (i == 1 ==> parts[1] == "i=" + m.title)
            && (c == 1 ==> parts[1 + i] == ConnectionLine(m.connection.value))
            && (forall k :: 0 <= k < |m.bandwidth| ==>
                  parts[b + k] == "b=" + (m.bandwidth[k].kind + ":" + m.bandwidth[k].value))
            && (forall k :: 0 <= k < |m.attributes| ==>
                  parts[a + k] == "a=" + (if m.attributes[k].value == "" then m.attributes[k].name
                                          else m.attributes[k].name + ":" + m.attributes[k].value))
  {
    hide ConnectionLine, Itoa, Join;
    parts := MediaLines(m);
  }

  function OriginText(o: Origin): string
  {
    o.username + " " + (o.sessionId + " " + (o.sessionVersion + " " +
      (o.networkType + " " + (o.addressType + " " + o.address))))
  }

  /** A session's text: the parts in order, each with its fields in order. */
  lemma WrittenSession(s: Session) returns (parts: seq<string>)
    ensures PrintText(s) == Join(parts, "\r\n") + "\r\n"
    ensures var c := if s.connection == None then 0 else 1;
            var t := 3 + c + |s.bandwidth|;
            var a := t + |s.timing|;
            var m := a + |s.attributes|;
            && |parts| == m + |s.media|
            && parts[0] == "v=" + Itoa(s.version)
            && parts[1] == "o=" + OriginText(s.origin)
            && parts[2] == "s=" + s.sessionName
            && (c == 1 ==> parts[3] == ConnectionLine(s.connection.value))
            && (forall k :: 0 <= k < |s.bandwidth| ==>
                  parts[3 + c + k] == "b=" + (s.bandwidth[k].kind + ":" + s.bandwidth[k].value))
            && (forall k :: 0 <= k < |s.timing| ==> parts[t + k] == "t=" + (s.timing[k].start + " " + s.timing[k].stop))
            && (forall k :: 0 <= k < |s.attributes| ==>
                  parts[a + k] == "a=" + (if s.attributes[k].value == "" then s.attributes[k].name
                                          else s.attributes[k].name + ":" + s.attributes[k].value))
            && (forall k :: 0 <= k < |s.media| ==> parts[m + k] == MediaText(s.media[k]))
  {
    hide ConnectionLine, Itoa, Join, MediaText;
    parts := HeaderLines(s) + Map(MediaText, s.media);
    WrittenOrigin(s.origin);
  }

  lemma WrittenOrigin(o: Origin)
    ensures Join(OriginFields(o), " ") == OriginText(o)
  {
    hide Join;
    var f := OriginFields(o);
    JoinHead(f);
    JoinFive(f[1..]);
  }

  // ---------------------------------------------------------------- codecs

  /** A codec with its channels, and what counts where the channels are absent or unreadable. */
  lemma ReadCodec(payload: int, name: string, rate: int, channels: string)
    requires IsInt64(payload) && IsInt64(rate) && '/' !in name && '/' !in channels
    ensures var head := Itoa(payload) + " ";
            var n := if Atoi(channels).Some? then Atoi(channels).value else 1;
            && ParseCodec(head + (name + "/" + Itoa(rate))) == Some(Codec(payload, name, rate, 1))
            && ParseCodec(head + (name + "/" + (Itoa(rate) + "/" + channels))) == Some(Codec(payload, name, rate, n))
            && ParseCodec(head + name) == None
  {
    hide Itoa, Atoi, Split, SplitTwo;
    AtoiOfItoa(payload);
    AtoiOfItoa(rate);
    CodecParts(name, rate, channels);
    AtSpace(payload, name);
    AtSpace(payload, name + "/" + Itoa(rate));
    AtSpace(payload, name + "/" + (Itoa(rate) + "/" + channels));
  }

  lemma AtSpace(payload: int, rest: string)
    ensures SplitTwo(Itoa(payload) + " " + rest, " ") == [Itoa(payload), rest]
  {
    hide Itoa;
    var pt := Itoa(payload);
    assert ' ' !in pt by { assert IsSpace(' '); }
    CharInContains(pt, ' ');
    FirstIsTheWritten(pt, " ", rest);
    assert (pt + " " + rest)[..|pt|] == pt && (pt + " " + rest)[|pt| + 1..] == rest;
  }

  lemma CodecParts(name: string, rate: int, channels: string)
    requires '/' !in name && '/' !in channels
    ensures Split(name, "/") == [name] && Split(name + "/" + Itoa(rate), "/") == [name, Itoa(rate)]
    ensures Split(name + "/" + (Itoa(rate) + "/" + channels), "/") == [name, Itoa(rate), channels]
  {
    hide Itoa, Split;
    var r := Itoa(rate);
    CharInContains(name, '/');
    CharInContains(r, '/');
    CharInContains(channels, '/');
    ItoaLacks(rate, '/');
    SplitWhole(name, "/");
    SplitWhole(channels, "/");
    NameAndRate(name, rate);
    SplitWritten(name, "/", r + "/" + channels);
    SplitWritten(r, "/", channels);
  }

  /** Without a readable payload type before a space, or a readable rate behind a slash, there is no codec. */
  lemma UnreadableCodec(payload: string, rest: string)
    requires ' ' !in payload
    ensures ParseCodec(payload) == None
    ensures Atoi(payload) == None ==> ParseCodec(payload + " " + rest) == None
  {
    hide Atoi;
    CharInContains(payload, ' ');
    FirstIsTheWritten(payload, " ", rest);
    assert (payload + " " + rest)[..|payload|] == payload;
  }

  lemma UnreadableRate(payload: int, name: string, rate: string)
    requires '/' !in name && '/' !in rate && Atoi(rate) == None
    ensures ParseCodec(Itoa(payload) + " " + (name + "/" + rate)) == None
  {
    hide Itoa, Atoi, Split, SplitTwo;
    AtSpace(payload, name + "/" + rate);
    CharInContains(name, '/');
    CharInContains(rate, '/');
    SplitWritten(name, "/", rate);
    SplitWhole(rate, "/");
  }

  /** Every section gets the codecs' payload types as its formats, an attribute for each codec and then its other
      attributes in order; nothing else changes. */
  lemma ReplacedSections(s: Session, codecs: seq<Codec>, i: nat)
    requires i < |s.media|
    ensures var n := SessionWithCodecs(s, codecs);
            && |n.media| == |s.media| && n == s.(media := n.media)
            && n.media[i] == s.media[i].(formats := n.media[i].formats, attributes := n.media[i].attributes)
            && |n.media[i].formats| == |codecs| <= |n.media[i].attributes|
            && (forall k :: 0 <= k < |codecs| ==>
                  && n.media[i].formats[k] == Itoa(codecs[k].payloadType)
                  && n.media[i].attributes[k] ==
                     Attribute("rtpmap",
                               Itoa(codecs[k].payloadType) + " " + (codecs[k].name + "/" + Itoa(codecs[k].clockRate))))
            && n.media[i].attributes[|codecs|..]
               == Filter((a: Attribute) => a.name != "rtpmap", s.media[i].attributes)
  {
    hide Itoa, Filter, OtherAttributes;
    var m := s.media[i];
    OthersAreFiltered(m.attributes);
    assert SessionWithCodecs(s, codecs).media[i] == WithCodecs(m, codecs);
    assert (Map(Rtpmap, codecs) + OtherAttributes(m.attributes))[|codecs|..] == OtherAttributes(m.attributes);
  }

  lemma {:induction false} OthersAreFiltered(attrs: seq<Attribute>)
    ensures OtherAttributes(attrs) == Filter((a: Attribute) => a.name != "rtpmap", attrs)
    decreases |attrs|
  {
    if attrs == [] {
    } else {
      OthersAreFiltered(attrs[..|attrs| - 1]);
    }
  }

  predicate HoldsCodec(a: Attribute) { a.name == "rtpmap" && ParseCodec(a.value).Some? }

  function CodecIn(a: Attribute): Codec
    requires HoldsCodec(a)
  {
    ParseCodec(a.value).value
  }

  lemma {:induction false} CodecsAreHeld(attrs: seq<Attribute>)
    ensures var held := Filter(HoldsCodec, attrs);
            |CodecsOf(attrs)| == |held| &&
            forall k :: 0 <= k < |held| ==> HoldsCodec(held[k]) && CodecsOf(attrs)[k] == CodecIn(held[k])
    decreases |attrs|
  {
    hide ParseCodec;
    if attrs == [] {
    } else {
      CodecsAreHeld(attrs[..|attrs| - 1]);
    }
  }

  /** The codecs listed are those of the attributes named `rtpmap` that can be read, in order. */
  lemma ListedCodecs(attrs: seq<Attribute>) returns (places: seq<nat>)
    ensures |CodecsOf(attrs)| == |places|
    ensures forall k :: 0 <= k < |places| ==>
              places[k] < |attrs| && ParseCodec(attrs[places[k]].value) == Some(CodecsOf(attrs)[k])
    ensures forall k, l :: 0 <= k < l < |places| ==> places[k] < places[l]
    ensures forall i: nat :: i < |attrs| ==>
              (i in places <==> attrs[i].name == "rtpmap" && ParseCodec(attrs[i].value) != None)
  {
    hide ParseCodec, Filter, CodecsOf;
    CodecsAreHeld(attrs);
    places := FilterPlaces(HoldsCodec, attrs);
  }
}
