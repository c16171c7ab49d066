/** The order of the printed lines against the grammar of section 9 of RFC 8866. */
module SdpGrammar {
  import opened Common
  import opened Text
  import opened Sdp
  import opened SdpForms
  import opened SdpRoundTrip

  /** The place of a type of line in the grammar's rule for a session, or zero. */
  function SessionRank(field: char): nat
  {
    match field
    case 'v' => 1 case 'o' => 2 case 's' => 3 case 'i' => 4 case 'u' => 5 case 'e' => 6 case 'p' => 7
    case 'c' => 8 case 'b' => 9 case 't' => 10 case 'r' => 11 case 'z' => 12 case 'k' => 13 case 'a' => 14
    case _ => 0
  }

  /** The same for a media description. */
  function MediaRank(field: char): nat
  {
    match field
    case 'm' => 1 case 'i' => 2 case 'c' => 3 case 'b' => 4 case 'k' => 5 case 'a' => 6
    case _ => 0
  }

  predicate OfType(lines: seq<string>, field: char)
  {
    forall i :: 0 <= i < |lines| ==> |lines[i]| >= 2 && lines[i][0] == field && lines[i][1] == '='
  }

  /** Every line is a type the rule has, '=' and a value, and the types come in the rule's order. */
  predicate InOrder(lines: seq<string>, rank: char -> nat)
  {
    && (forall i :: 0 <= i < |lines| ==> |lines[i]| >= 2 && lines[i][1] == '=' && rank(lines[i][0]) > 0)
    && forall i, j :: 0 <= i < j < |lines| ==> rank(lines[i][0]) <= rank(lines[j][0])
  }

  predicate UpTo(lines: seq<string>, rank: char -> nat, last: nat)
  {
    InOrder(lines, rank) && forall i :: 0 <= i < |lines| ==> rank(lines[i][0]) <= last
  }

  /** A run of lines of one type that is not earlier than those before keeps the order. */
  lemma OrderKept(lines: seq<string>, last: nat, more: seq<string>, field: char, rank: char -> nat)
    requires UpTo(lines, rank, last) && OfType(more, field) && last <= rank(field) && rank(field) > 0
    ensures UpTo(lines + more, rank, rank(field))
  {
  }

  lemma ConnectionsOfType(c: Option<Connection>)
    ensures OfType(ConnectionLines(c), 'c')
  {
  }

  lemma ListsOfType(bs: seq<Bandwidth>, ts: seq<Timing>, attrs: seq<Attribute>)
    ensures OfType(Map(BandwidthLine, bs), 'b')
    ensures OfType(Map(TimingLine, ts), 't')
    ensures OfType(Map(AttributeLine, attrs), 'a')
  {
  }

  lemma HeaderInOrder(s: Session)
    ensures InOrder(HeaderLines(s), SessionRank)
  {
    hide Map, ConnectionLine, BandwidthLine, TimingLine, AttributeLine, Itoa, Join, OfType, ConnectionLines, InOrder;
    var first := ["v=" + Itoa(s.version), "o=" + Join(OriginFields(s.origin), " "), "s=" + s.sessionName];
    FirstInOrder(first);
    ConnectionsOfType(s.connection);
    ListsOfType(s.bandwidth, s.timing, s.attributes);
    var c := first + ConnectionLines(s.connection);
    OrderKept(first, 3, ConnectionLines(s.connection), 'c', SessionRank);
    var b := c + Map(BandwidthLine, s.bandwidth);
    OrderKept(c, 8, Map(BandwidthLine, s.bandwidth), 'b', SessionRank);
    var t := b + Map(TimingLine, s.timing);
    OrderKept(b, 9, Map(TimingLine, s.timing), 't', SessionRank);
    OrderKept(t, 10, Map(AttributeLine, s.attributes), 'a', SessionRank);
  }

  lemma FirstInOrder(lines: seq<string>)
    requires |lines| == 3 && OfType(lines[..1], 'v') && OfType(lines[1..2], 'o') && OfType(lines[2..], 's')
    ensures UpTo(lines, SessionRank, 3)
  {
  }

  lemma MediaInOrder(m: Media)
    ensures InOrder(MediaLines(m), MediaRank)
  {
    hide Map, ConnectionLine, BandwidthLine, TimingLine, AttributeLine, Itoa, Join, OfType, ConnectionLines, InOrder;
    hide MediaHead, TitleLines;
    MediaFirst(m);
    ConnectionsOfType(m.connection);
    ListsOfType(m.bandwidth, [], m.attributes);
    var first := [MediaHead(m)] + TitleLines(m);
    var c := first + ConnectionLines(m.connection);
    OrderKept(first, 2, ConnectionLines(m.connection), 'c', MediaRank);
    var b := c + Map(BandwidthLine, m.bandwidth);
    OrderKept(c, 3, Map(BandwidthLine, m.bandwidth), 'b', MediaRank);
    OrderKept(b, 4, Map(AttributeLine, m.attributes), 'a', MediaRank);
  }

  lemma MediaFirst(m: Media)
    ensures UpTo([MediaHead(m)] + TitleLines(m), MediaRank, 2)
  {
  }

  /** The printed text of a printable session is a session description's lines in the grammar's order, then the
      lines of each media description in the grammar's order, and an empty last line. */
  lemma PrintedInOrder(s: Session)
    requires Printable(s)
    ensures TextLines(PrintText(s)) == HeaderLines(s) + AllMediaLines(s.media) + [""]
    ensures InOrder(HeaderLines(s), SessionRank)
    ensures forall m :: m in s.media ==> InOrder(MediaLines(m), MediaRank)
  {
    hide HeaderLines, MediaLines, PrintText, TextLines, AllMediaLines, InOrder;
    OriginLineUnbroken(s.origin);
    PrintedLines(s);
    HeaderInOrder(s);
    forall m | m in s.media ensures InOrder(MediaLines(m), MediaRank) {
      MediaInOrder(m);
    }
  }
}
