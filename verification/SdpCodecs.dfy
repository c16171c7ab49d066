/** Replacing the codecs of a session description, printing it and parsing the text. */
module SdpCodecs {
  import opened Common
  import opened Text
  import opened Sdp
  import opened SdpForms
  import opened SdpRoundTrip
  import opened SdpStability

  /** A codec whose numbers are machine integers and whose name fits on a line. */
  ghost predicate PrintableCodec(c: Codec)
  {
    IsInt64(c.payloadType) && IsInt64(c.clockRate) && Unbroken(c.name)
  }

  function Mono(c: Codec): Codec { c.(channels := 1) }

  /** The attribute written for a codec reads back as that codec, with one channel, exactly when the name
      holds no slash. */
  lemma RtpmapRoundTrip(c: Codec)
    requires IsInt64(c.payloadType) && IsInt64(c.clockRate)
    ensures ParseCodec(Rtpmap(c).value) == Some(Mono(c)) <==> '/' !in c.name
  {
    hide Itoa, Split, Join;
    var pt, rate := Itoa(c.payloadType), Itoa(c.clockRate);
    var rest := c.name + "/" + rate;
    assert Rtpmap(c).value == pt + " " + rest;
    CharInContains(pt, ' ');
    assert IsSpace(' ');
    FirstIsTheWritten(pt, " ", rest);
    assert (pt + " " + rest)[..|pt|] == pt && (pt + " " + rest)[|pt| + 1..] == rest;
    assert SplitTwo(Rtpmap(c).value, " ") == [pt, rest];
    AtoiOfItoa(c.payloadType);
    AtoiOfItoa(c.clockRate);
    SplitPartsLackSeparator(rest, "/");
    var name := Split(rest, "/")[0];
    CharInContains(name, '/');
    if '/' !in c.name {
      NameAndRate(c.name, c.clockRate);
    }
  }

  lemma NameAndRate(name: string, rate: int)
    requires '/' !in name
    ensures Split(name + "/" + Itoa(rate), "/") == [name, Itoa(rate)]
  {
    hide Itoa;
    ItoaLacks(rate, '/');
    CharInContains(name, '/');
    CharInContains(Itoa(rate), '/');
    SplitOfJoin([name, Itoa(rate)], "/");
    assert [name, Itoa(rate)][1..] == [Itoa(rate)];
    assert Join([name, Itoa(rate)], "/") == name + "/" + Itoa(rate);
  }

  lemma RtpmapIsPrintable(c: Codec)
    requires PrintableCodec(c)
    ensures PrintableAttribute(Rtpmap(c)) && IsToken(Payload(c))
  {
    var pt, rate := Itoa(c.payloadType), Itoa(c.clockRate);
    ItoaLacks(c.payloadType, '\r');
    ItoaLacks(c.clockRate, '\r');
    NoCrlfWithoutCr("rtpmap");
    NoCrlfWithoutCr("/" + rate);
    UnbrokenBefore(c.name, "/" + rate);
    assert c.name + ("/" + rate) == c.name + "/" + rate;
    UnbrokenAfter(pt + " ", c.name + "/" + rate);
    var v := Rtpmap(c).value;
    assert v == pt + " " + (c.name + "/" + rate);
    assert v[|v| - 1] == rate[|rate| - 1] && rate[|rate| - 1] in rate;
  }

  lemma {:induction false} CodecsOfConcat(a: seq<Attribute>, b: seq<Attribute>)
    ensures CodecsOf(a + b) == CodecsOf(a) + CodecsOf(b)
    decreases |b|
  {
    hide CodecOf;
    if b == [] {
      assert a + b == a;
    } else {
      var init := b[..|b| - 1];
      CodecsOfConcat(a, init);
      assert (a + b)[..|a + b| - 1] == a + init;
    }
  }

  lemma {:induction false} OthersHoldNoCodec(attrs: seq<Attribute>)
    ensures forall a :: a in OtherAttributes(attrs) <==> a in attrs && a.name != "rtpmap"
    ensures CodecsOf(Map(BackAttribute, OtherAttributes(attrs))) == []
    decreases |attrs|
  {
    hide BackAttribute, CodecOf;
    if attrs == [] {
    } else {
      var init, last := attrs[..|attrs| - 1], attrs[|attrs| - 1];
      OthersHoldNoCodec(init);
      assert forall a :: a in attrs <==> a in init || a == last;
      if last.name != "rtpmap" {
        MapConcat(BackAttribute, OtherAttributes(init), [last]);
        CodecsOfConcat(Map(BackAttribute, OtherAttributes(init)), Map(BackAttribute, [last]));
        var one := Map(BackAttribute, [last]);
        assert one == [BackAttribute(last)] && one[..0] == [];
        OtherHoldsNoCodec(last);
        assert CodecsOf(one) == [];
      } else {
        assert OtherAttributes(attrs) == OtherAttributes(init);
      }
    }
  }

  lemma OtherHoldsNoCodec(a: Attribute)
    requires a.name != "rtpmap"
    ensures CodecOf(BackAttribute(a)) == []
  {
  }

  predicate NoSlashes(codecs: seq<Codec>) { forall c :: c in codecs ==> '/' !in c.name }

  lemma {:induction false} CodecsAtMost(attrs: seq<Attribute>)
    ensures |CodecsOf(attrs)| <= |attrs|
    decreases |attrs|
  {
    hide ParseCodec;
    if attrs == [] {
    } else {
      CodecsAtMost(attrs[..|attrs| - 1]);
    }
  }

  /** The attributes written for codecs read back as those codecs exactly when no name holds a slash. */
  lemma {:induction false} RtpmapsHoldCodecs(codecs: seq<Codec>)
    requires forall c :: c in codecs ==> PrintableCodec(c)
    ensures CodecsOf(Map(Rtpmap, codecs)) == Map(Mono, codecs) <==> NoSlashes(codecs)
    decreases |codecs|
  {
    hide Rtpmap, ParseCodec, CodecOf, Mono, CodecsOf, PrintableCodec, NoSlashes, Map;
    if codecs == [] {
      NoneHeld();
    } else {
      var init, last := codecs[..|codecs| - 1], codecs[|codecs| - 1];
      RtpmapsHoldCodecs(init);
      assert codecs == init + [last] && codecs[..|codecs|] == codecs;
      MapSnoc(Rtpmap, codecs, |codecs| - 1);
      MapSnoc(Mono, codecs, |codecs| - 1);
      OneCodec(last);
      CodecsNext(Map(Rtpmap, init), Rtpmap(last));
      CodecsAtMost(Map(Rtpmap, init));
      SameLast(CodecsOf(Map(Rtpmap, init)), CodecOf(Rtpmap(last)), Map(Mono, init), Mono(last));
      SlashesNext(init, last);
    }
  }

  lemma NoneHeld()
    ensures CodecsOf(Map(Rtpmap, [])) == Map(Mono, []) && NoSlashes([])
  {
  }

  lemma CodecsNext(attrs: seq<Attribute>, a: Attribute)
    ensures CodecsOf(attrs + [a]) == CodecsOf(attrs) + CodecOf(a)
  {
    hide CodecOf;
    assert (attrs + [a])[..|attrs|] == attrs;
  }

  lemma SlashesNext(codecs: seq<Codec>, c: Codec)
    ensures NoSlashes(codecs + [c]) <==> NoSlashes(codecs) && '/' !in c.name
  {
    assert forall d :: d in codecs + [c] <==> d in codecs || d == c;
  }

  lemma OneCodec(c: Codec)
    requires PrintableCodec(c)
    ensures CodecOf(Rtpmap(c)) == [Mono(c)] <==> '/' !in c.name
    ensures |CodecOf(Rtpmap(c))| <= 1
  {
    hide ParseCodec;
    RtpmapRoundTrip(c);
  }

  lemma SameLast<A>(xs: seq<A>, one: seq<A>, ys: seq<A>, y: A)
    requires |xs| <= |ys| && |one| <= 1
    ensures xs + one == ys + [y] <==> xs == ys && one == [y]
  {
    if xs + one == ys + [y] {
      assert |xs + one| == |ys + [y]|;
      assert (xs + one)[..|xs|] == xs && (ys + [y])[..|ys|] == ys;
      assert (xs + one)[|xs|] == one[0] && (ys + [y])[|ys|] == y;
    }
  }

  lemma CutFront<A>(a: seq<A>, b: seq<A>)
    ensures a + [] == b <==> a == b
  {
    assert a + [] == a;
  }

  lemma RtpmapName(c: Codec)
    ensures Rtpmap(c).name == "rtpmap" && Rtpmap(c).value != "" && BackAttribute(Rtpmap(c)) == Rtpmap(c)
  {
  }

  lemma WithCodecsIsWritable(m: Media, codecs: seq<Codec>)
    requires WritableMedia(m) && forall c :: c in codecs ==> PrintableCodec(c)
    ensures WritableMedia(WithCodecs(m, codecs))
  {
    hide PrintableConnection, PrintableBandwidth, PrintableAttribute, PrintableCodec, Payload, Rtpmap, IsToken;
    hide Unbroken, BackAttribute;
    OthersHoldNoCodec(m.attributes);
    forall c | c in codecs ensures PrintableAttribute(Rtpmap(c)) && IsToken(Payload(c)) { RtpmapIsPrintable(c); }
  }

  lemma WithCodecsComesBack(m: Media, codecs: seq<Codec>)
    requires forall c :: c in codecs ==> PrintableCodec(c)
    ensures var b := BackMedia(WithCodecs(m, codecs));
            && b.formats == Map(Payload, codecs)
            && b.attributes == Map(Rtpmap, codecs) + Map(BackAttribute, OtherAttributes(m.attributes))
            && (CodecsOf(b.attributes) == Map(Mono, codecs) <==> NoSlashes(codecs))
  {
    hide PrintableCodec, Payload, Rtpmap, BackAttribute, BackConnection, CodecOf;
    var others := OtherAttributes(m.attributes);
    MapConcat(BackAttribute, Map(Rtpmap, codecs), others);
    forall c ensures BackAttribute(Rtpmap(c)) == Rtpmap(c) { RtpmapName(c); }
    assert Map(BackAttribute, Map(Rtpmap, codecs)) == Map(Rtpmap, codecs);
    RtpmapsHoldCodecs(codecs);
    OthersHoldNoCodec(m.attributes);
    CodecsOfConcat(Map(Rtpmap, codecs), Map(BackAttribute, others));
    CutFront(CodecsOf(Map(Rtpmap, codecs)), Map(Mono, codecs));
  }

  /** Replacing the codecs of a session that can be written, printing it and parsing the text gives, in every media
      section, the codecs' payload types as formats and their attributes first, with the attributes that are no
      codecs after them in order; and a section's codecs are those written, with one channel each, exactly when
      no name holds a slash. */
  lemma ReplacedCodecsComeBack(s: Session, codecs: seq<Codec>)
    requires Writable(s) && codecs != []
    requires forall c :: c in codecs ==> PrintableCodec(c)
    ensures var r := ParseText(PrintText(SessionWithCodecs(s, codecs)));
            && r.Ok? && |r.value.media| == |s.media|
            && forall i :: 0 <= i < |s.media| ==>
                 && (CodecsOf(r.value.media[i].attributes) == Map(Mono, codecs) <==> NoSlashes(codecs))
                 && r.value.media[i].formats == Map(Payload, codecs)
                 && r.value.media[i].attributes == Map(Rtpmap, codecs)
                     + Map(BackAttribute, OtherAttributes(s.media[i].attributes))
  {
    hide ParseText, PrintText, BackMedia, WritableMedia, PrintableHeader, PrintableCodec, PrintableOrigin, Payload;
    hide Rtpmap, BackAttribute, CodecsOf;
    var t := SessionWithCodecs(s, codecs);
    assert PrintableHeader(t) by { SameHeader(s, codecs); }
    forall m | m in s.media ensures PrintableMedia(WithCodecs(m, codecs)) { WithCodecsIsWritable(m, codecs); }
    assert forall i :: 0 <= i < |t.media| ==> t.media[i] == WithCodecs(s.media[i], codecs);
    ParseOfPrint(t);
    forall i | 0 <= i < |s.media|
      ensures var b := BackMedia(t.media[i]);
              && (CodecsOf(b.attributes) == Map(Mono, codecs) <==> NoSlashes(codecs))
              && b.formats == Map(Payload, codecs)
              && b.attributes == Map(Rtpmap, codecs) + Map(BackAttribute, OtherAttributes(s.media[i].attributes))
    {
      WithCodecsComesBack(s.media[i], codecs);
    }
  }

  lemma SameHeader(s: Session, codecs: seq<Codec>)
    requires PrintableHeader(s)
    ensures PrintableHeader(SessionWithCodecs(s, codecs))
  {
  }

  lemma EmptyFormatsAreRefused(p: Progress, m: Media)
    requires WritableMedia(m) && m.formats == []
    ensures ParseLine(p, MediaHead(m)) == Err(InvalidMedia)
  {
    hide Itoa, Join, Fields, ParseLine, TrimRight;
    assert IsToken(Itoa(m.port));
    var f := [m.kind, Itoa(m.port), m.protocol];
    JoinThree(m.kind, Itoa(m.port), m.protocol);
    TokensJoinTidy(f);
    var value := m.kind + " " + (Itoa(m.port) + " " + (m.protocol + " " + ""));
    assert value == Join(f, " ") + " ";
    JoinOfNothing();
    FieldLine(p, "m=", value);
    TrimRightDropsSpace(Join(f, " "), " ");
    TrimRightIs(Join(f, " "));
    FieldsOfJoin(f);
  }

  lemma JoinOfNothing()
    ensures Join([], " ") == ""
  {
  }

  /** The lines of the media sections after the first `m=` line. */
  function LaterLines(media: seq<Media>): seq<string>
    requires media != []
  {
    MediaLines(media[0])[1..] + AllMediaLines(media[1..])
  }

  lemma FirstMediaLine(s: Session)
    requires s.media != []
    ensures AllLines(s) + [""] == HeaderLines(s) + ([MediaHead(s.media[0])] + (LaterLines(s.media) + [""]))
  {
    hide HeaderLines, MediaLines;
    var first := MediaLines(s.media[0]);
    assert first == [MediaHead(s.media[0])] + first[1..] by { HeadLine(s.media[0]); }
    assert AllMediaLines(s.media) == [MediaHead(s.media[0])] + LaterLines(s.media);
  }

  lemma HeadLine(m: Media)
    ensures MediaLines(m)[0] == MediaHead(m)
  {
  }

  lemma EmptiedLines(s: Session)
    requires Writable(s) && s.media != []
    ensures var t := SessionWithCodecs(s, []);
            && WritableMedia(t.media[0]) && t.media[0].formats == []
            && TextLines(PrintText(t)) == HeaderLines(s) + ([MediaHead(t.media[0])] + (LaterLines(t.media) + [""]))
  {
    hide HeaderLines, PrintText, WritableMedia, PrintableHeader, PrintableOrigin, TextLines, MediaHead, WithCodecs;
    hide Unbroken, AllLines, LaterLines, OriginLine;
    var t := SessionWithCodecs(s, []);
    SameHeader(s, []);
    forall m | m in s.media ensures WritableMedia(WithCodecs(m, [])) { WithCodecsIsWritable(m, []); }
    OriginLineUnbroken(s.origin);
    PrintedLines(t);
    SameHeaderLines(s, []);
    FirstMediaLine(t);
    NoFormats(s.media[0]);
  }

  lemma NoCodecsIsRefused(s: Session)
    requires Writable(s) && s.media != []
    ensures ParseText(PrintText(SessionWithCodecs(s, []))) == Err(InvalidMedia)
  {
    hide ParseLine, ParseLines, HeaderLines, PrintText, WritableMedia, PrintableHeader, PrintableOrigin, TextLines;
    hide MediaHead;
    hide BackMedia, LaterLines;
    var t := SessionWithCodecs(s, []);
    EmptiedLines(s);
    var rest := LaterLines(t.media) + [""];
    var start := Progress(Blank(PrintText(t)), None);
    var mid := Progress(Back(s.(media := []), PrintText(t)), None);
    HeaderComesBack(s, PrintText(t));
    ParseLinesThen(start, HeaderLines(s), mid, [MediaHead(t.media[0])] + rest);
    EmptyFormatsAreRefused(mid, t.media[0]);
    ParseLinesFail(mid, MediaHead(t.media[0]), rest);
  }

  lemma NoFormats(m: Media)
    ensures WithCodecs(m, []).formats == []
  {
  }

  lemma SameHeaderLines(s: Session, codecs: seq<Codec>)
    ensures HeaderLines(SessionWithCodecs(s, codecs)) == HeaderLines(s)
  {
  }

  /** A session whose codecs were replaced can be read back exactly when there was a codec to write or no
      media section to write it to. */
  lemma CodecsAreNeeded(s: Session, codecs: seq<Codec>)
    requires Writable(s) && forall c :: c in codecs ==> PrintableCodec(c)
    ensures ParseText(PrintText(SessionWithCodecs(s, codecs))).Ok? <==> codecs != [] || s.media == []
  {
    hide ParseText, PrintText, PrintableHeader, PrintableOrigin, PrintableMedia;
    if codecs != [] {
      ReplacedCodecsComeBack(s, codecs);
    } else if s.media != [] {
      NoCodecsIsRefused(s);
    } else {
      assert SessionWithCodecs(s, codecs) == s;
      ParseOfPrint(s);
    }
  }
}
