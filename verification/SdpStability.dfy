/** Parsing a text, printing the session and parsing it again. */
module SdpStability {
  import opened Common
  import opened Text
  import opened Sdp
  import opened SdpForms
  import opened SdpRoundTrip

  // ---------------------------------------------------------------- when the text is the same

  function TotalLength(parts: seq<string>): nat
  {
    if parts == [] then 0 else |parts[0]| + TotalLength(parts[1..])
  }

  lemma {:induction false} JoinLength(parts: seq<string>)
    requires |parts| > 0
    ensures |Join(parts, CRLF)| == TotalLength(parts) + 2 * (|parts| - 1)
  {
    if |parts| > 1 {
      JoinLength(parts[1..]);
    } else {
      assert parts[1..] == [];
    }
  }

  lemma JoinOrder(a: seq<string>, b: seq<string>)
    requires |a| == |b| > 0 && forall i :: 0 <= i < |a| ==> |a[i]| < |b[i]| || a[i] == b[i]
    ensures |Join(a, CRLF)| < |Join(b, CRLF)| || Join(a, CRLF) == Join(b, CRLF)
    ensures Join(a, CRLF) == Join(b, CRLF) <==> a == b
  {
  }

  lemma AttributeLineOrder(a: Attribute)
    ensures var l, r := AttributeLine(BackAttribute(a)), AttributeLine(a);
            (|l| < |r| || l == r) && (l == r <==> TidyAttribute(a))
  {
  }

  lemma AttributeLinesOrder(attrs: seq<Attribute>)
    ensures var l, r := Map(AttributeLine, Map(BackAttribute, attrs)), Map(AttributeLine, attrs);
            && (forall i :: 0 <= i < |attrs| ==> |l[i]| < |r[i]| || l[i] == r[i])
            && (l == r <==> forall a :: a in attrs ==> TidyAttribute(a))
  {
    hide AttributeLine, BackAttribute, TidyAttribute;
    var l, r := Map(AttributeLine, Map(BackAttribute, attrs)), Map(AttributeLine, attrs);
    forall a ensures var x, y := AttributeLine(BackAttribute(a)), AttributeLine(a);
                     (|x| < |y| || x == y) && (x == y <==> TidyAttribute(a)) {
      AttributeLineOrder(a);
    }
    if l == r {
      forall a | a in attrs ensures TidyAttribute(a) {
        var i :| 0 <= i < |attrs| && attrs[i] == a;
        assert l[i] == r[i];
      }
    }
    if forall a :: a in attrs ==> TidyAttribute(a) {
      forall i | 0 <= i < |attrs| ensures l[i] == r[i] { assert attrs[i] in attrs; }
    }
  }

  lemma ConnectionLineSame(c: Option<Connection>)
    ensures ConnectionLines(MapOption(BackConnection, c)) == ConnectionLines(c)
  {
  }

  lemma {:induction false} TotalLengthAppend(a: seq<string>, b: seq<string>)
    ensures TotalLength(a + b) == TotalLength(a) + TotalLength(b)
  {
    if a == [] {
      assert a + b == b;
    } else {
      TotalLengthAppend(a[1..], b);
      assert (a + b)[1..] == a[1..] + b;
    }
  }

  lemma DroppedLineIsShorter(a: seq<string>, line: string, b: seq<string>)
    requires |a| > 0
    ensures |Join(a + b, CRLF)| < |Join(a + [line] + b, CRLF)|
  {
    hide Join;
    JoinLength(a + b);
    JoinLength(a + [line] + b);
    TotalLengthAppend(a, b);
    TotalLengthAppend(a, [line]);
    TotalLengthAppend(a + [line], b);
  }

  /** The lines of a media section up to its attributes, without its title. */
  function LeadingLines(m: Media): (lines: seq<string>)
    ensures |lines| > 0
  {
    [MediaHead(m)] + ConnectionLines(m.connection) + Map(BandwidthLine, m.bandwidth)
  }

  lemma AttributeTextsOrder(lead: seq<string>, attrs: seq<Attribute>)
    requires |lead| > 0
    ensures var l := Join(lead + Map(AttributeLine, Map(BackAttribute, attrs)), CRLF);
            var r := Join(lead + Map(AttributeLine, attrs), CRLF);
            (|l| < |r| || l == r) && (l == r <==> forall a :: a in attrs ==> TidyAttribute(a))
  {
    hide Join, AttributeLine, BackAttribute, TidyAttribute;
    AttributeLinesOrder(attrs);
    var l, r := Map(AttributeLine, Map(BackAttribute, attrs)), Map(AttributeLine, attrs);
    JoinOrder(lead + l, lead + r);
    assert lead + l == lead + r ==> l == r by {
      assert (lead + l)[|lead|..] == l && (lead + r)[|lead|..] == r;
    }
  }

  lemma MediaTextOrder(m: Media)
    ensures var l, r := MediaText(BackMedia(m)), MediaText(m);
            (|l| < |r| || l == r) && (l == r <==> TidyMedia(m))
  {
    hide Join, AttributeLine, BackAttribute, TidyAttribute, BandwidthLine, ConnectionLines, MediaHead;
    var b := BackMedia(m);
    assert MediaHead(b) == MediaHead(m) by { SameHead(m); }
    ConnectionLineSame(m.connection);
    AttributeTextsOrder(LeadingLines(m), m.attributes);
    assert MediaLines(b) == LeadingLines(m) + Map(AttributeLine, b.attributes);
    if m.title == "" {
      assert MediaLines(m) == LeadingLines(m) + Map(AttributeLine, m.attributes);
    } else {
      var rest := ConnectionLines(m.connection) + Map(BandwidthLine, m.bandwidth) + Map(AttributeLine, m.attributes);
      assert MediaLines(m) == [MediaHead(m)] + ["i=" + m.title] + rest;
      assert LeadingLines(m) + Map(AttributeLine, m.attributes) == [MediaHead(m)] + rest;
      DroppedLineIsShorter([MediaHead(m)], "i=" + m.title, rest);
    }
  }

  lemma SameHead(m: Media)
    ensures MediaHead(BackMedia(m)) == MediaHead(m)
  {
  }

  lemma MediaTextsOrder(media: seq<Media>)
    ensures var l, r := Map(MediaText, Map(BackMedia, media)), Map(MediaText, media);
            && (forall i :: 0 <= i < |media| ==> |l[i]| < |r[i]| || l[i] == r[i])
            && (l == r <==> forall m :: m in media ==> TidyMedia(m))
  {
    hide MediaText, BackMedia, TidyMedia;
    var l, r := Map(MediaText, Map(BackMedia, media)), Map(MediaText, media);
    forall m ensures var x, y := MediaText(BackMedia(m)), MediaText(m);
                     (|x| < |y| || x == y) && (x == y <==> TidyMedia(m)) {
      MediaTextOrder(m);
    }
    if l == r {
      forall m | m in media ensures TidyMedia(m) {
        var i :| 0 <= i < |media| && media[i] == m;
        assert l[i] == r[i];
      }
    }
    if forall m :: m in media ==> TidyMedia(m) {
      forall i | 0 <= i < |media| ensures l[i] == r[i] { assert media[i] in media; }
    }
  }

  lemma EqualParts(lead: seq<string>, a: seq<string>, b: seq<string>, c: seq<string>, d: seq<string>)
    requires |a| == |c| && lead + a + b == lead + c + d
    ensures a == c && b == d
  {
    var x, y := lead + a + b, lead + c + d;
    assert a == x[|lead|..|lead| + |a|] && c == y[|lead|..|lead| + |a|];
    assert b == x[|lead| + |a|..] && d == y[|lead| + |a|..];
  }

  /** Printing what came back gives the printed text again exactly when the session is tidy. */
  lemma ReprintSame(s: Session, raw: string)
    ensures PrintText(Back(s, raw)) == PrintText(s) <==> Tidy(s)
  {
    hide Join, AttributeLine, BackAttribute, TidyAttribute, BandwidthLine, TimingLine, ConnectionLines, MediaText;
    hide BackMedia, TidyMedia;
    var b := Back(s, raw);
    var lead := FirstLines(s) + ConnectionLines(s.connection) + Map(BandwidthLine, s.bandwidth)
        + Map(TimingLine, s.timing);
    ConnectionLineSame(s.connection);
    AttributeLinesOrder(s.attributes);
    MediaTextsOrder(s.media);
    var la, ra := Map(AttributeLine, b.attributes), Map(AttributeLine, s.attributes);
    var lm, rm := Map(MediaText, b.media), Map(MediaText, s.media);
    assert HeaderLines(b) == lead + la && HeaderLines(s) == lead + ra;
    JoinOrder(lead + la + lm, lead + ra + rm);
    assert PrintText(b) == Join(lead + la + lm, CRLF) + CRLF && PrintText(s) == Join(lead + ra + rm, CRLF) + CRLF;
    CutTail(Join(lead + la + lm, CRLF), Join(lead + ra + rm, CRLF), CRLF);
    if lead + la + lm == lead + ra + rm {
      EqualParts(lead, la, lm, ra, rm);
    }
  }

  lemma CutTail(a: string, b: string, tail: string)
    ensures a + tail == b + tail <==> a == b
  {
    if a + tail == b + tail {
      assert (a + tail)[..|a|] == a && (b + tail)[..|b|] == b;
    }
  }

  // ---------------------------------------------------------------- what the parser builds is printable

  lemma SplitTwoParts(value: string)
    requires Unbroken(value) && !EndsInSpace(value)
    ensures var parts := SplitTwo(value, ":");
            && ':' !in parts[0] && Unbroken(parts[0])
            && (|parts| == 2 ==> Unbroken(parts[1]) && !EndsInSpace(parts[1]))
  {
    match Index(value, ":")
    case None => CharInContains(value, ':');
    case Some(i) =>
      PartsAround(value, i, ":");
      CharInContains(value[..i], ':');
      assert value[..i] == value[0..i];
      PartUnbroken(value, 0, i);
      assert value[i + 1..] == value[i + 1..|value|];
      PartUnbroken(value, i + 1, |value|);
  }

  lemma ReadBandwidth(value: string)
    requires Unbroken(value) && !EndsInSpace(value)
    ensures PrintableBandwidth(ParseBandwidth(value))
  {
    SplitTwoParts(value);
    NoCrlfWithoutCr("");
  }

  lemma ReadAttribute(value: string)
    requires Unbroken(value) && !EndsInSpace(value)
    ensures PrintableAttribute(ParseAttribute(value))
  {
    SplitTwoParts(value);
    NoCrlfWithoutCr("");
  }

  lemma ReadMedia(value: string)
    requires ParseMedia(value).Ok?
    ensures PrintableMedia(ParseMedia(value).value) && ParseMedia(value).value.title == ""
  {
  }

  /** What the parser has built so far can be printed, the origin aside, and has no titles. */
  ghost predicate Readable(p: Progress)
  {
    && PrintableBody(p.session)
    && (forall m :: m in p.session.media ==> m.title == "")
    && (p.current.Some? ==> PrintableMedia(p.current.value) && p.current.value.title == "")
  }

  predicate IsOriginLine(raw: string) { HasPrefix(TrimSpace(raw), "o=") }

  predicate HasOrigin(text: string) { exists l :: l in TextLines(text) && IsOriginLine(l) }

  lemma ParseFieldKeeps(p: Progress, field: char, value: string)
    requires Readable(p) && Unbroken(value) && !EndsInSpace(value) && ParseField(p, field, value).Ok?
    ensures var q := ParseField(p, field, value).value;
            && Readable(q)
            && if field == 'o' then PrintableOrigin(q.session.origin) else q.session.origin == p.session.origin
  {
    hide Fields, Atoi, IsToken, PrintableBandwidth, PrintableAttribute, PrintableTiming, ParseMedia, ParseBandwidth;
    hide ParseAttribute;
    hide PrintableMedia, Unbroken, EndsInSpace;
    if field == 'm' {
      hide PrintableBody;
      var m := ParseMedia(value).value;
      ReadMedia(value);
      ClosedIsPrintable(p);
    } else if field == 'c' {
      assert forall f :: f in Fields(value) ==> IsToken(f);
      CurrentSurvives(p, ParseConnection(value).value);
    } else if field == 'b' {
      ReadBandwidth(value);
      BandwidthSurvives(p, ParseBandwidth(value));
    } else if field == 't' {
      ReadTiming(value);
    } else if field == 'a' {
      ReadAttribute(value);
      AttributeSurvives(p, ParseAttribute(value));
    } else if field == 'o' {
      assert forall f :: f in Fields(value) ==> IsToken(f);
    }
  }

  lemma ReadTiming(value: string)
    requires Unbroken(value) && !EndsInSpace(value)
    ensures PrintableTiming(ParseTiming(value))
  {
  }

  lemma ClosedIsPrintable(p: Progress)
    requires Readable(p)
    ensures PrintableBody(p.Closed()) && p.Closed().origin == p.session.origin
    ensures forall m :: m in p.Closed().media ==> m.title == ""
  {
  }

  lemma CurrentSurvives(p: Progress, c: Connection)
    requires Readable(p) && PrintableConnection(c)
    ensures Readable(p.SetConnection(c))
  {
  }

  lemma BandwidthSurvives(p: Progress, b: Bandwidth)
    requires Readable(p) && PrintableBandwidth(b)
    ensures Readable(p.AddBandwidth([b]))
  {
  }

  lemma AttributeSurvives(p: Progress, a: Attribute)
    requires Readable(p) && PrintableAttribute(a)
    ensures Readable(p.AddAttributes([a]))
  {
  }

  lemma ParseLineKeeps(p: Progress, raw: string)
    requires Readable(p) && Unbroken(raw) && ParseLine(p, raw).Ok?
    ensures var q := ParseLine(p, raw).value;
            Readable(q)
            && if IsOriginLine(raw) then PrintableOrigin(q.session.origin) else q.session.origin == p.session.origin
  {
    hide ParseField, Readable, PrintableOrigin;
    var line := TrimSpace(raw);
    TrimSpaceInherits(raw, CRLF);
    TrimSpaceEnds(raw);
    if |line| >= 2 && line[1] == '=' {
      PartUnbroken(line, 2, |line|);
      assert line[2..] == line[2..|line|];
      ParseFieldKeeps(p, line[0], line[2..]);
      assert line[..2] == [line[0], '='];
    }
  }

  lemma {:induction false} ParseLinesKeep(p: Progress, lines: seq<string>)
    requires Readable(p) && (forall l :: l in lines ==> Unbroken(l)) && ParseLines(p, lines).Ok?
    ensures var q := ParseLines(p, lines).value;
            Readable(q)
            && if exists l :: l in lines && IsOriginLine(l) then PrintableOrigin(q.session.origin)
               else q.session.origin == p.session.origin
    decreases |lines|
  {
    hide ParseLine, Readable, PrintableOrigin, IsOriginLine, Unbroken;
    if lines == [] {
    } else {
      var q := ParseLine(p, lines[0]).value;
      ParseLineKeeps(p, lines[0]);
      ParseLinesKeep(q, lines[1..]);
      assert forall l :: l in lines <==> l == lines[0] || l in lines[1..];
    }
  }

  lemma TextLinesUnbroken(text: string)
    ensures forall l :: l in TextLines(text) ==> Unbroken(l)
  {
    SplitPartsLackSeparator(text, CRLF);
    if |Split(text, CRLF)| == 1 {
      JoinOfSplit(text, CRLF);
      assert Split(text, CRLF)[0] == text;
      SplitPartsInherit(text, "\n", CRLF);
    }
  }

  lemma BlankIsReadable(raw: string)
    ensures Readable(Progress(Blank(raw), None))
  {
  }

  /** What `Parse` accepts it can print, but for an origin that was never given. */
  lemma ParsedIsPrintable(text: string)
    requires ParseText(text).Ok?
    ensures var s := ParseText(text).value;
            && PrintableBody(s) && (forall m :: m in s.media ==> m.title == "")
            && if HasOrigin(text) then PrintableOrigin(s.origin) else s.origin == Blank(text).origin
  {
    hide Readable, ParseLines, TextLines, IsOriginLine, Unbroken, PrintableOrigin, PrintableBody;
    var start := Progress(Blank(text), None);
    BlankIsReadable(text);
    TextLinesUnbroken(text);
    ParseLinesKeep(start, TextLines(text));
    var q := ParseLines(start, TextLines(text)).value;
    ClosedIsPrintable(q);
  }

  lemma FieldsOfSpaces(s: string)
    requires forall c :: c in s ==> IsSpace(c)
    ensures Fields(s) == [] && TrimRight(s) == ""
  {
  }

  lemma BlankOriginLine()
    ensures OriginLine(Origin("", "", "", "", "", "")) == "o=" + "     "
  {
  }

  /** A session without an origin prints as a text the parser refuses. */
  lemma NoOriginIsRefused(s: Session)
    requires PrintableBody(s) && s.origin == Blank("").origin
    ensures ParseText(PrintText(s)) == Err(InvalidOrigin)
  {
    hide ParseLines, AllMediaLines, PrintText, WritableMedia, TextLines, Fields, TrimRight, ParseLine;
    hide PrintableConnection, PrintableBandwidth, PrintableAttribute, PrintableTiming, Map, Join, ConnectionLines;
    var text := PrintText(s);
    BlankOriginLine();
    NoCrlfWithoutCr(OriginLine(s.origin));
    PrintedLines(s);
    var p0 := Progress(Blank(text), None);
    var p1 := Progress(Blank(text).(version := s.version), None);
    var rest := AllLines(s)[2..] + [""];
    var first := "v=" + Itoa(s.version);
    VersionComesBack(p0, s.version);
    assert TextLines(text) == [first] + ([OriginLine(s.origin)] + rest);
    ParseLinesCons(p0, first, [OriginLine(s.origin)] + rest, p1);
    FieldLine(p1, "o=", "     ");
    FieldsOfSpaces("     ");
    FieldsOfSpaces("");
    ParseLinesFail(p1, OriginLine(s.origin), rest);
  }

  lemma ParseLinesFail(p: Progress, line: string, rest: seq<string>)
    requires ParseLine(p, line).Err?
    ensures ParseLines(p, [line] + rest) == Err(ParseLine(p, line).error)
  {
  }

  // ---------------------------------------------------------------- which lines make a reprint differ

  /** A name that ends in white space, a colon and nothing else. */
  predicate IsBlankNamed(value: string)
  {
    && value != "" && value[|value| - 1] == ':'
    && ':' !in value[..|value| - 1] && EndsInSpace(value[..|value| - 1])
  }

  /** An attribute line of that form, once it is trimmed. */
  predicate IsBlankNamedLine(raw: string)
  {
    var line := TrimSpace(raw);
    HasPrefix(line, "a=") && IsBlankNamed(line[2..])
  }

  predicate TidyProgress(p: Progress)
  {
    Tidy(p.session) && (p.current.Some? ==> TidyMedia(p.current.value))
  }

  lemma AttributeIsTidy(value: string)
    requires !EndsInSpace(value)
    ensures TidyAttribute(ParseAttribute(value)) <==> !IsBlankNamed(value)
  {
    match Index(value, ":")
    case None =>
      CharInContains(value, ':');
    case Some(i) =>
      PartsAround(value, i, ":");
      CharInContains(value[..i], ':');
      if i + 1 < |value| {
        assert value[..|value| - 1][i] == value[i] == ':';
      }
  }

  lemma FieldIsTidy(p: Progress, field: char, value: string)
    requires !EndsInSpace(value) && ParseField(p, field, value).Ok?
    ensures TidyProgress(ParseField(p, field, value).value)
       <==> TidyProgress(p) && (field == 'a' ==> !IsBlankNamed(value))
  {
    hide Fields, Atoi, Split, EndsInSpace, IsBlankNamed, TidyAttribute, ParseAttribute, ParseBandwidth, ParseTiming;
    if field == 'a' {
      AttributeIsTidy(value);
      AddedIsTidy(p, ParseAttribute(value));
    } else if field == 'm' {
      ClosedIsTidy(p);
    }
  }

  lemma AddedIsTidy(p: Progress, a: Attribute)
    ensures TidyProgress(p.AddAttributes([a])) <==> TidyProgress(p) && TidyAttribute(a)
  {
    hide TidyAttribute;
    var attrs := if p.current.Some? then p.current.value.attributes else p.session.attributes;
    assert forall b :: b in attrs + [a] <==> b in attrs || b == a;
  }

  lemma ClosedIsTidy(p: Progress)
    ensures Tidy(p.Closed()) <==> TidyProgress(p)
  {
    hide TidyAttribute, TidyMedia;
    if p.current.Some? {
      var media := p.session.media;
      assert forall m :: m in media + [p.current.value] <==> m in media || m == p.current.value;
    }
  }

  lemma LineIsTidy(p: Progress, raw: string)
    requires ParseLine(p, raw).Ok?
    ensures TidyProgress(ParseLine(p, raw).value) <==> TidyProgress(p) && !IsBlankNamedLine(raw)
  {
    hide ParseField, TidyProgress, IsBlankNamed, TrimSpace;
    var line := TrimSpace(raw);
    TrimSpaceEnds(raw);
    if |line| >= 2 && line[1] == '=' {
      FieldIsTidy(p, line[0], line[2..]);
      assert line[..2] == [line[0], '='];
    } else {
      assert |line| >= 2 ==> line[..2][1] != '=';
    }
  }

  lemma {:induction false} LinesAreTidy(p: Progress, lines: seq<string>)
    requires ParseLines(p, lines).Ok?
    ensures TidyProgress(ParseLines(p, lines).value)
       <==> TidyProgress(p) && forall l :: l in lines ==> !IsBlankNamedLine(l)
    decreases |lines|
  {
    hide ParseLine, TidyProgress, IsBlankNamedLine;
    if lines == [] {
    } else {
      LineIsTidy(p, lines[0]);
      LinesAreTidy(ParseLine(p, lines[0]).value, lines[1..]);
      assert forall l :: l in lines <==> l == lines[0] || l in lines[1..];
    }
  }

  /** What the parser makes of a text is tidy exactly when no line is an attribute whose name ends in white space,
      with a colon and nothing after it. */
  lemma ParsedIsTidy(text: string)
    requires ParseText(text).Ok?
    ensures Tidy(ParseText(text).value) <==> forall l :: l in TextLines(text) ==> !IsBlankNamedLine(l)
  {
    hide ParseLines, TextLines, IsBlankNamedLine;
    var start := Progress(Blank(text), None);
    LinesAreTidy(start, TextLines(text));
    ClosedIsTidy(ParseLines(start, TextLines(text)).value);
  }

  /** Printing is stable on an accepted text exactly when the text has an `o=` line and no attribute line is a
      name that ends in white space, a colon and nothing else. */
  lemma PrintingIsStable(text: string)
    requires ParseText(text).Ok?
    ensures var printed := PrintText(ParseText(text).value);
            (ParseText(printed).Ok? && PrintText(ParseText(printed).value) == printed)
            <==> (HasOrigin(text) && forall l :: l in TextLines(text) ==> !IsBlankNamedLine(l))
  {
    hide ParseText, PrintText, HasOrigin, Back, Tidy, PrintableBody, PrintableOrigin, TextLines, IsBlankNamedLine;
    var s := ParseText(text).value;
    ParsedIsPrintable(text);
    ParsedIsTidy(text);
    if HasOrigin(text) {
      ParseOfPrint(s);
      ReprintSame(s, PrintText(s));
    } else {
      NoOriginIsRefused(s);
    }
  }

  lemma RawPrintsTheSame(s: Session, t: Session)
    requires WithoutRaw(s) == WithoutRaw(t)
    ensures PrintableBody(s) <==> PrintableBody(t)
    ensures s.origin == t.origin
  {
    hide PrintableHeader, PrintableConnection, PrintableBandwidth, PrintableAttribute;
    assert PrintableHeader(s) <==> PrintableHeader(t) by { SameHeaderPrints(s, t); }
    SectionsPrintTheSame(s.media, t.media);
    SectionsPrintTheSame(t.media, s.media);
  }

  lemma SameHeaderPrints(s: Session, t: Session)
    requires WithoutRaw(s) == WithoutRaw(t)
    ensures PrintableHeader(s) <==> PrintableHeader(t)
  {
  }

  lemma SectionsPrintTheSame(a: seq<Media>, b: seq<Media>)
    requires Map(MediaWithoutRaw, a) == Map(MediaWithoutRaw, b)
    ensures (forall m :: m in a ==> PrintableMedia(m)) ==> forall m :: m in b ==> PrintableMedia(m)
  {
    hide PrintableConnection, PrintableBandwidth, PrintableAttribute, Unbroken;
    forall m | m in b ensures (forall n :: n in a ==> PrintableMedia(n)) ==> PrintableMedia(m) {
      var i :| 0 <= i < |b| && b[i] == m;
      assert MediaWithoutRaw(a[i]) == Map(MediaWithoutRaw, a)[i] == MediaWithoutRaw(m);
      assert PrintableMedia(a[i]) <==> PrintableMedia(m);
      assert a[i] in a;
    }
  }

  /** For any session at all: its printed form parses back to the session, raw text aside, exactly when it is
      printable and in normal form. */
  lemma RoundTripExactly(s: Session)
    ensures var r := ParseText(PrintText(s));
            (r.Ok? && WithoutRaw(r.value) == WithoutRaw(s)) <==> (Printable(s) && Normal(s))
  {
    hide ParseText, PrintText, Normal, PrintableBody, PrintableOrigin, WithoutRaw, HasOrigin;
    var r := ParseText(PrintText(s));
    if Printable(s) {
      RoundTrip(s);
    } else if r.Ok? && WithoutRaw(r.value) == WithoutRaw(s) {
      ParsedIsPrintable(PrintText(s));
      RawPrintsTheSame(r.value, s);
      if !HasOrigin(PrintText(s)) { NoOriginIsRefused(s); }
    }
  }
}
