/** Session descriptions in the format of section 5 of RFC 8866: the data model, the line-by-line
    parser, the printer and the codec operations. */
module Sdp {
  import opened Common
  import opened Text

  datatype Origin = Origin(
    username: string, sessionId: string, sessionVersion: string,
    networkType: string, addressType: string, address: string)

  datatype Connection = Connection(
    networkType: string, addressType: string, address: string, ttl: int, count: int)

  datatype Bandwidth = Bandwidth(kind: string, value: string)

  datatype Timing = Timing(start: string, stop: string)

  datatype Attribute = Attribute(name: string, value: string)

  datatype Codec = Codec(payloadType: int, name: string, clockRate: int, channels: int)

  datatype Media = Media(
    kind: string, port: int, protocol: string, formats: seq<string>, title: string,
    connection: Option<Connection>, bandwidth: seq<Bandwidth>, attributes: seq<Attribute>, raw: string)

  /** The value a SessionDescription object holds. */
  datatype Session = Session(
    version: int, origin: Origin, sessionName: string, connection: Option<Connection>,
    bandwidth: seq<Bandwidth>, timing: seq<Timing>, media: seq<Media>,
    attributes: seq<Attribute>, raw: string)

  datatype ParseError = InvalidVersion(value: string) | InvalidOrigin | InvalidConnection | InvalidMedia | InvalidPort

  // ---------------------------------------------------------------- field parsers

  function ParseOrigin(value: string): Result<Origin, ParseError>
  {
    var f := Fields(value);
    if |f| < 6 then Err(InvalidOrigin) else Ok(Origin(f[0], f[1], f[2], f[3], f[4], f[5]))
  }

  /** An optional trailing number: absent or unreadable counts as zero. */
  function OptionalNumber(fields: seq<string>, i: nat): int
  {
    if i < |fields| && Atoi(fields[i]).Some? then Atoi(fields[i]).value else 0
  }

  function ParseConnection(value: string): Result<Connection, ParseError>
  {
    var f := Fields(value);
    if |f| < 3 then Err(InvalidConnection)
    else Ok(Connection(f[0], f[1], f[2], OptionalNumber(f, 3), OptionalNumber(f, 4)))
  }

  function ParseBandwidth(value: string): Bandwidth
  {
    var parts := SplitTwo(value, ":");
    if |parts| == 2 then Bandwidth(parts[0], parts[1]) else Bandwidth(value, "")
  }

  function ParseTiming(value: string): Timing
  {
    var f := Fields(value);
    if |f| >= 2 then Timing(f[0], f[1]) else Timing(value, "")
  }

  function ParseMedia(value: string): Result<Media, ParseError>
  {
    var f := Fields(value);
    if |f| < 4 then Err(InvalidMedia)
    else
      match Atoi(Split(f[1], "/")[0])
      case None => Err(InvalidPort)
      case Some(port) => Ok(Media(f[0], port, f[2], f[3..], "", None, [], [], ""))
  }

  function ParseAttribute(value: string): Attribute
  {
    var parts := SplitTwo(value, ":");
    if |parts| == 2 then Attribute(parts[0], parts[1]) else Attribute(value, "")
  }

  function ParseCodec(value: string): Option<Codec>
  {
    var parts := SplitTwo(value, " ");
    if |parts| < 2 || Atoi(parts[0]).None? then None
    else
      var codecParts := Split(parts[1], "/");
      if |codecParts| < 2 || Atoi(codecParts[1]).None? then None
      else
        var channels := if |codecParts| > 2 && Atoi(codecParts[2]).Some? then Atoi(codecParts[2]).value else 1;
        Some(Codec(Atoi(parts[0]).value, codecParts[0], Atoi(codecParts[1]).value, channels))
  }

  // ---------------------------------------------------------------- the parser as a function

  /** What `Parse` has built so far: the session, and the media section that is still open. */
  datatype Progress = Progress(session: Session, current: Option<Media>)
  {
    function SetConnection(c: Connection): Progress {
      if current.Some? then Progress(session, Some(current.value.(connection := Some(c))))
      else Progress(session.(connection := Some(c)), None)
    }

    function AddBandwidth(bs: seq<Bandwidth>): Progress {
      if current.Some? then Progress(session, Some(current.value.(bandwidth := current.value.bandwidth + bs)))
      else Progress(session.(bandwidth := session.bandwidth + bs), None)
    }

    function AddTiming(ts: seq<Timing>): Progress {
      Progress(session.(timing := session.timing + ts), current)
    }

    function AddAttributes(attrs: seq<Attribute>): Progress {
      if current.Some? then Progress(session, Some(current.value.(attributes := current.value.attributes + attrs)))
      else Progress(session.(attributes := session.attributes + attrs), None)
    }

    /** The session with the open media section, if any, appended. */
    function Closed(): Session {
      if current.Some? then session.(media := session.media + [current.value]) else session
    }
  }

  function Blank(raw: string): Session
  {
    Session(0, Origin("", "", "", "", "", ""), "", None, [], [], [], [], raw)
  }

  function TextLines(text: string): (lines: seq<string>)
    ensures |lines| > 0
  {
    var lines := Split(text, CRLF);
    if |lines| == 1 then Split(text, "\n") else lines
  }

  function ParseField(p: Progress, field: char, value: string): Result<Progress, ParseError>
  {
    match field
    case 'v' =>
      (match Atoi(value)
       case None => Err(InvalidVersion(value))
       case Some(v) => Ok(p.(session := p.session.(version := v))))
    case 'o' =>
      (match ParseOrigin(value)
       case Err(e) => Err(e)
       case Ok(o) => Ok(p.(session := p.session.(origin := o))))
    case 's' => Ok(p.(session := p.session.(sessionName := value)))
    case 'c' =>
      (match ParseConnection(value)
       case Err(e) => Err(e)
       case Ok(c) => Ok(p.SetConnection(c)))
    case 'b' => Ok(p.AddBandwidth([ParseBandwidth(value)]))
    case 't' => Ok(p.AddTiming([ParseTiming(value)]))
    case 'm' =>
      (match ParseMedia(value)
       case Err(e) => Err(e)
       case Ok(m) => Ok(Progress(p.Closed(), Some(m))))
    case 'a' => Ok(p.AddAttributes([ParseAttribute(value)]))
    case _ => Ok(p)
  }

  /** One line: trimmed, and skipped unless its second character is '='. */
  function ParseLine(p: Progress, raw: string): Result<Progress, ParseError>
  {
    var line := TrimSpace(raw);
    if |line| < 2 || line[1] != '=' then Ok(p) else ParseField(p, line[0], line[2..])
  }

  function ParseLines(p: Progress, lines: seq<string>): Result<Progress, ParseError>
    decreases |lines|
  {
    if lines == [] then Ok(p)
    else
      match ParseLine(p, lines[0])
      case Err(e) => Err(e)
      case Ok(q) => ParseLines(q, lines[1..])
  }

  lemma ParseLinesNext(p: Progress, lines: seq<string>, i: nat)
    requires i < |lines|
    ensures ParseLines(p, lines[i..]) ==
            match ParseLine(p, lines[i])
            case Err(e) => Err(e)
            case Ok(q) => ParseLines(q, lines[i + 1..])
  {
  }

  function ParseText(text: string): Result<Session, ParseError>
  {
    match ParseLines(Progress(Blank(text), None), TextLines(text))
    case Err(e) => Err(e)
    case Ok(p) => Ok(p.Closed())
  }

  // ---------------------------------------------------------------- the printer as a function

  function OriginFields(o: Origin): seq<string>
  {
    [o.username, o.sessionId, o.sessionVersion, o.networkType, o.addressType, o.address]
  }

  /** The address with the TTL and the count written behind slashes, as far as they are positive. */
  function AddressText(c: Connection): string
  {
    if c.ttl > 0 && c.count > 0 then c.address + "/" + Itoa(c.ttl) + "/" + Itoa(c.count)
    else if c.ttl > 0 then c.address + "/" + Itoa(c.ttl)
    else c.address
  }

  function ConnectionLine(c: Connection): string
  {
    "c=" + Join([c.networkType, c.addressType, AddressText(c)], " ")
  }

  function BandwidthLine(b: Bandwidth): string { "b=" + (b.kind + ":" + b.value) }

  function TimingLine(t: Timing): string { "t=" + (t.start + " " + t.stop) }

  function AttributeLine(a: Attribute): string
  {
    if a.value != "" then "a=" + (a.name + ":" + a.value) else "a=" + a.name
  }

  function MediaHead(m: Media): string
  {
    "m=" + (m.kind + " " + (Itoa(m.port) + " " + (m.protocol + " " + Join(m.formats, " "))))
  }

  function ConnectionLines(c: Option<Connection>): seq<string>
  {
    if c.Some? then [ConnectionLine(c.value)] else []
  }

  function TitleLines(m: Media): seq<string>
  {
    if m.title != "" then ["i=" + m.title] else []
  }

  function MediaLines(m: Media): (lines: seq<string>)
    ensures |lines| > 0
  {
    [MediaHead(m)] + TitleLines(m) + ConnectionLines(m.connection)
    + Map(BandwidthLine, m.bandwidth) + Map(AttributeLine, m.attributes)
  }

  function MediaText(m: Media): string { Join(MediaLines(m), CRLF) }

  function HeaderLines(s: Session): (lines: seq<string>)
    ensures |lines| > 0
  {
    ["v=" + Itoa(s.version), "o=" + Join(OriginFields(s.origin), " "), "s=" + s.sessionName]
    + ConnectionLines(s.connection)
    + Map(BandwidthLine, s.bandwidth) + Map(TimingLine, s.timing) + Map(AttributeLine, s.attributes)
  }

  function PrintText(s: Session): string
  {
    Join(HeaderLines(s) + Map(MediaText, s.media), CRLF) + CRLF
  }

  // ---------------------------------------------------------------- codecs as functions

  function CodecOf(a: Attribute): seq<Codec>
  {
    if a.name == "rtpmap" && ParseCodec(a.value).Some? then [ParseCodec(a.value).value] else []
  }

  function CodecsOf(attributes: seq<Attribute>): seq<Codec>
  {
    if attributes == [] then []
    else CodecsOf(attributes[..|attributes| - 1]) + CodecOf(attributes[|attributes| - 1])
  }

  function OtherAttributes(attributes: seq<Attribute>): seq<Attribute>
  {
    if attributes == [] then []
    else
      var last := attributes[|attributes| - 1];
      OtherAttributes(attributes[..|attributes| - 1]) + (if last.name != "rtpmap" then [last] else [])
  }

  function Payload(c: Codec): string { Itoa(c.payloadType) }

  function Rtpmap(c: Codec): Attribute
  {
    Attribute("rtpmap", Payload(c) + " " + (c.name + "/" + Itoa(c.clockRate)))
  }

  function WithCodecs(m: Media, codecs: seq<Codec>): Media
  {
    m.(formats := Map(Payload, codecs), attributes := Map(Rtpmap, codecs) + OtherAttributes(m.attributes))
  }

  function SessionWithCodecs(s: Session, codecs: seq<Codec>): Session
  {
    s.(media := Map(m => WithCodecs(m, codecs), s.media))
  }

  // ---------------------------------------------------------------- the object

  method PrintConnection(c: Connection) returns (line: string)
    ensures line == ConnectionLine(c)
  {
    var address := c.address;
    if c.ttl > 0 && c.count > 0 {
      address := c.address + "/" + Itoa(c.ttl) + "/" + Itoa(c.count);
    } else if c.ttl > 0 {
      address := c.address + "/" + Itoa(c.ttl);
    }
    assert address == AddressText(c);
    JoinThree(c.networkType, c.addressType, address);
    line := "c=" + (c.networkType + " " + (c.addressType + " " + address));
  }

  lemma JoinThree(a: string, b: string, c: string)
    ensures Join([a, b, c], " ") == a + " " + (b + " " + c)
  {
    assert [a, b, c][1..] == [b, c] && [b, c][1..] == [c];
    assert Join([c], " ") == c;
    assert Join([b, c], " ") == b + " " + c;
    assert Join([a, b, c], " ") == a + " " + Join([b, c], " ");
  }

  /** The loops over the `b=` lines, which both printers share. */
  method PrintBandwidth(parts: seq<string>, bandwidth: seq<Bandwidth>) returns (r: seq<string>)
    ensures r == parts + Map(BandwidthLine, bandwidth)
  {
    r := parts;
    for i := 0 to |bandwidth|
      invariant r == parts + Map(BandwidthLine, bandwidth[..i])
    {
      MapSnoc(BandwidthLine, bandwidth, i);
      r := r + ["b=" + (bandwidth[i].kind + ":" + bandwidth[i].value)];
    }
    assert bandwidth[..|bandwidth|] == bandwidth;
  }

  method PrintTiming(parts: seq<string>, timing: seq<Timing>) returns (r: seq<string>)
    ensures r == parts + Map(TimingLine, timing)
  {
    r := parts;
    for i := 0 to |timing|
      invariant r == parts + Map(TimingLine, timing[..i])
    {
      MapSnoc(TimingLine, timing, i);
      r := r + ["t=" + (timing[i].start + " " + timing[i].stop)];
    }
    assert timing[..|timing|] == timing;
  }

  /** The loops over the `a=` lines, which both printers share. */
  method PrintAttributes(parts: seq<string>, attributes: seq<Attribute>) returns (r: seq<string>)
    ensures r == parts + Map(AttributeLine, attributes)
  {
    r := parts;
    for i := 0 to |attributes|
      invariant r == parts + Map(AttributeLine, attributes[..i])
    {
      MapSnoc(AttributeLine, attributes, i);
      var attr := attributes[i];
      if attr.value != "" {
        r := r + ["a=" + (attr.name + ":" + attr.value)];
      } else {
        r := r + ["a=" + attr.name];
      }
    }
    assert attributes[..|attributes|] == attributes;
  }

  method PrintMedia(m: Media) returns (text: string)
    ensures text == MediaText(m)
  {
    var parts := [MediaHead(m)];
    if m.title != "" {
      parts := parts + ["i=" + m.title];
    }
    if m.connection.Some? {
      var line := PrintConnection(m.connection.value);
      parts := parts + [line];
    }
    parts := PrintBandwidth(parts, m.bandwidth);
    parts := PrintAttributes(parts, m.attributes);
    assert parts == MediaLines(m);
    text := Join(parts, CRLF);
  }

  method GetCodecs(m: Media) returns (codecs: seq<Codec>)
    ensures codecs == CodecsOf(m.attributes)
  {
    codecs := [];
    for i := 0 to |m.attributes|
      invariant codecs == CodecsOf(m.attributes[..i])
    {
      var attr := m.attributes[i];
      assert m.attributes[..i + 1][..i] == m.attributes[..i];
      if attr.name == "rtpmap" {
        var codec := ParseCodec(attr.value);
        if codec.Some? {
          codecs := codecs + [codec.value];
        }
      }
    }
    assert m.attributes[..|m.attributes|] == m.attributes;
  }

  class SessionDescription {
    var version: int
    var origin: Origin
    var sessionName: string
    var connection: Option<Connection>
    var bandwidth: seq<Bandwidth>
    var timing: seq<Timing>
    var mediaSections: seq<Media>
    var attributes: seq<Attribute>
    var raw: string

    function View(): Session
      reads this
    {
      Session(version, origin, sessionName, connection, bandwidth, timing, mediaSections, attributes, raw)
    }

    constructor (text: string)
      ensures View() == Blank(text)
    {
      version, origin, sessionName, connection := 0, Origin("", "", "", "", "", ""), "", None;
      bandwidth, timing, mediaSections, attributes, raw := [], [], [], [], text;
    }

    /** The switch of `Parse` on one line's field, for the session level and the open section. */
    method Accept(current: Option<Media>, field: char, value: string) returns (r: Result<Option<Media>, ParseError>)
      modifies this
      ensures match ParseField(Progress(old(View()), current), field, value)
              case Err(e) => r == Err(e)
              case Ok(p) => r.Ok? && Progress(View(), r.value) == p
    {
      if field == 'v' {
        var v := Atoi(value);
        if v.None? {
          return Err(InvalidVersion(value));
        }
        version := v.value;
      } else if field == 'o' {
        var o := ParseOrigin(value);
        if o.Err? {
          return Err(o.error);
        }
        origin := o.value;
      } else if field == 's' {
        sessionName := value;
      } else if field == 'c' {
        var c := ParseConnection(value);
        if c.Err? {
          return Err(c.error);
        }
        if current.Some? {
          return Ok(Some(current.value.(connection := Some(c.value))));
        }
        connection := Some(c.value);
      } else if field == 'b' {
        var bw := ParseBandwidth(value);
        if current.Some? {
          return Ok(Some(current.value.(bandwidth := current.value.bandwidth + [bw])));
        }
        bandwidth := bandwidth + [bw];
      } else if field == 't' {
        timing := timing + [ParseTiming(value)];
      } else if field == 'm' {
        if current.Some? {
          mediaSections := mediaSections + [current.value];
        }
        var m := ParseMedia(value);
        if m.Err? {
          return Err(m.error);
        }
        return Ok(Some(m.value));
      } else if field == 'a' {
        var attr := ParseAttribute(value);
        if current.Some? {
          return Ok(Some(current.value.(attributes := current.value.attributes + [attr])));
        }
        attributes := attributes + [attr];
      }
      return Ok(current);
    }

    /** The loop of `Parse`, from a session with no open media section. */
    method AcceptLines(lines: seq<string>) returns (r: Result<Option<Media>, ParseError>)
      modifies this
      ensures match ParseLines(Progress(old(View()), None), lines)
              case Err(e) => r == Err(e)
              case Ok(p) => r.Ok? && Progress(View(), r.value) == p
    {
      var current: Option<Media> := None;
      ghost var all := ParseLines(Progress(View(), None), lines);
      assert lines[0..] == lines;
      for i := 0 to |lines|
        invariant all == ParseLines(Progress(View(), current), lines[i..])
      {
        var line := TrimSpace(lines[i]);
        ParseLinesNext(Progress(View(), current), lines, i);
        if |line| < 2 || line[1] != '=' {
          continue;
        }
        var open := Accept(current, line[0], line[2..]);
        if open.Err? {
          return Err(open.error);
        }
        current := open.value;
      }
      return Ok(current);
    }

    static method Parse(text: string) returns (r: Result<SessionDescription, ParseError>)
      ensures match ParseText(text)
              case Err(e) => r == Err(e)
              case Ok(s) => r.Ok? && fresh(r.value) && r.value.View() == s
    {
      var session := new SessionDescription(text);
      var lines := Split(text, CRLF);
      if |lines| == 1 {
        lines := Split(text, "\n");
      }
      var current := session.AcceptLines(lines);
      if current.Err? {
        return Err(current.error);
      }
      if current.value.Some? {
        session.mediaSections := session.mediaSections + [current.value.value];
      }
      return Ok(session);
    }

    method Print() returns (text: string)
      ensures text == PrintText(View())
    {
      var parts := ["v=" + Itoa(version), "o=" + Join(OriginFields(origin), " "), "s=" + sessionName];
      if connection.Some? {
        var line := PrintConnection(connection.value);
        parts := parts + [line];
      }
      parts := PrintBandwidth(parts, bandwidth);
      parts := PrintTiming(parts, timing);
      parts := PrintAttributes(parts, attributes);
      assert parts == HeaderLines(View());
      ghost var start := parts;
      for i := 0 to |mediaSections|
        invariant parts == start + Map(MediaText, mediaSections[..i])
      {
        MapSnoc(MediaText, mediaSections, i);
        var media := PrintMedia(mediaSections[i]);
        parts := parts + [media];
      }
      assert mediaSections[..|mediaSections|] == mediaSections;
      text := Join(parts, CRLF) + CRLF;
    }

    method ReplaceCodecs(codecs: seq<Codec>)
      modifies this
      ensures View() == SessionWithCodecs(old(View()), codecs)
    {
      ghost var was := mediaSections;
      for i := 0 to |mediaSections|
        invariant |mediaSections| == |was|
        invariant View() == old(View()).(media := mediaSections)
        invariant forall k :: 0 <= k < i ==> mediaSections[k] == WithCodecs(was[k], codecs)
        invariant forall k :: i <= k < |was| ==> mediaSections[k] == was[k]
      {
        var m := mediaSections[i];
        var formats: seq<string> := [];
        var attrs: seq<Attribute> := [];
        for j := 0 to |codecs|
          invariant formats == Map(Payload, codecs)[..j]
          invariant attrs == Map(Rtpmap, codecs)[..j]
        {
          var pt := Itoa(codecs[j].payloadType);
          formats := formats + [pt];
          attrs := attrs + [Attribute("rtpmap", pt + " " + (codecs[j].name + "/" + Itoa(codecs[j].clockRate)))];
        }
        assert formats == Map(Payload, codecs) && attrs == Map(Rtpmap, codecs);
        for j := 0 to |m.attributes|
          invariant attrs == Map(Rtpmap, codecs) + OtherAttributes(m.attributes[..j])
        {
          assert m.attributes[..j + 1][..j] == m.attributes[..j];
          if m.attributes[j].name != "rtpmap" {
            attrs := attrs + [m.attributes[j]];
          }
        }
        assert m.attributes[..|m.attributes|] == m.attributes;
        mediaSections := mediaSections[i := m.(formats := formats, attributes := attrs)];
      }
      assert mediaSections == SessionWithCodecs(old(View()), codecs).media;
    }
  }
}
