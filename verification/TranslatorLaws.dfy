/** What the two conversions of session descriptions undo, keep and add. */
module TranslatorLaws {
  import opened Common
  import opened Text
  import opened Translator

  // ---------------------------------------------------------------- the profile strings

  /** Only the first character of SAVP and of SAVPF is a 'U'. */
  lemma ProfilesAreBorderless()
    ensures Borderless(SAVP) && Borderless(SAVPF) && Borderless(AVP)
  {
    assert forall i :: 1 <= i < |SAVP| ==> SAVP[i] != 'U';
    assert forall i :: 1 <= i < |SAVPF| ==> SAVPF[i] != 'U';
    assert forall i :: 1 <= i < |AVP| ==> AVP[i] != 'R';
    UniqueHeadIsBorderless(SAVP);
    UniqueHeadIsBorderless(SAVPF);
    UniqueHeadIsBorderless(AVP);
  }

  lemma UniqueHeadIsBorderless(p: string)
    requires |p| > 0 && forall i :: 1 <= i < |p| ==> p[i] != p[0]
    ensures Borderless(p)
  {
    forall m | 1 <= m < |p| ensures p[|p| - m..] != p[..m] {
      assert p[|p| - m..][0] == p[|p| - m] && p[..m][0] == p[0];
    }
  }

  lemma MatchedChar(s: string, p: string, i: nat, k: nat)
    requires MatchAt(s, p, i) && k < |p|
    ensures s[i + k] == p[k]
  {
  }

  /** An occurrence of SAVP and one of AVP never overlap. */
  lemma ProfilesDoNotOverlap(s: string, p: nat, i: nat)
    requires MatchAt(s, SAVP, p) && MatchAt(s, AVP, i)
    ensures p + |SAVP| <= i || i + |AVP| <= p
  {
    if p <= i < p + |SAVP| {
      MatchedChar(s, SAVP, p, i - p);
      MatchedChar(s, AVP, i, 0);
      assert i == p + 8;
      MatchedChar(s, SAVP, p, 12);
      MatchedChar(s, AVP, i, 4);
    } else if i < p < i + |AVP| {
      MatchedChar(s, SAVP, p, 0);
      MatchedChar(s, AVP, i, p - i);
    }
  }

  lemma SavpfHoldsSavp(s: string, i: nat)
    requires MatchAt(s, SAVPF, i)
    ensures MatchAt(s, SAVP, i)
  {
    assert s[i..i + |SAVP|] == s[i..i + |SAVPF|][..|SAVP|] == SAVPF[..|SAVP|] == SAVP;
  }

  lemma ContainsSides(a: string, mid: string, b: string, p: string)
    requires Contains(a, p) || Contains(b, p)
    ensures Contains(a + mid + b, p)
  {
    if Contains(a, p) {
      var i: nat :| MatchAt(a, p, i);
      ShiftedMatch(a, mid + b, p, i);
      assert a + (mid + b) == a + mid + b;
      assert MatchAt(a + mid + b, p, i);
    } else {
      var i: nat :| MatchAt(b, p, i);
      ShiftedMatch(a + mid, b, p, i);
      assert MatchAt(a + mid + b, p, |a + mid| + i);
    }
  }

  /** SAVP on either side of an AVP lies wholly on that side. */
  lemma SavpBesideAvp(a: string, b: string)
    ensures Contains(a + AVP + b, SAVP) <==> Contains(a, SAVP) || Contains(b, SAVP)
  {
    var s := a + AVP + b;
    if Contains(s, SAVP) {
      var p: nat :| MatchAt(s, SAVP, p);
      assert s[|a|..|a| + |AVP|] == AVP;
      ProfilesDoNotOverlap(s, p, |a|);
      if p + |SAVP| <= |a| {
        ShiftedMatch(a, AVP + b, SAVP, p);
        assert a + (AVP + b) == s;
        assert MatchAt(a, SAVP, p);
      } else {
        ShiftedMatch(a + AVP, b, SAVP, p - |a + AVP|);
        assert MatchAt(b, SAVP, p - |a + AVP|);
      }
    } else if Contains(a, SAVP) || Contains(b, SAVP) {
      ContainsSides(a, AVP, b, SAVP);
    }
  }

  // ---------------------------------------------------------------- one line, there and back

  lemma ReplaceLength(s: string, was: string, now: string)
    ensures |ReplaceFirst(s, was, now)| == |s| + (if Contains(s, was) then |now| - |was| else 0)
    ensures !Contains(s, was) ==> ReplaceFirst(s, was, now) == s
  {
  }

  lemma NoSavpfWithoutSavp(s: string)
    requires !Contains(s, SAVP)
    ensures !Contains(s, SAVPF)
  {
    if Contains(s, SAVPF) {
      var i: nat :| MatchAt(s, SAVPF, i);
      SavpfHoldsSavp(s, i);
    }
  }

  /** Downgrading changes a line exactly when it holds SAVP, and then shortens it. */
  lemma DowngradeShortens(line: string)
    ensures if Contains(line, SAVP) then |DowngradeProfile(line)| < |line| else DowngradeProfile(line) == line
  {
    var one := ReplaceFirst(line, SAVPF, AVP);
    ReplaceLength(line, SAVPF, AVP);
    ReplaceLength(one, SAVP, AVP);
    if !Contains(line, SAVP) {
      NoSavpfWithoutSavp(line);
    }
  }

  /** The upgraded line loses exactly one SAVPF again; what is left holds SAVP when the line did. */
  lemma FirstSavpfAfterUpgrade(a: string, b: string)
    ensures var u := a + SAVPF + b; var one := ReplaceFirst(u, SAVPF, AVP);
            && (!Contains(a, SAVP) ==> one == a + AVP + b)
            && (Contains(a, SAVP) || Contains(b, SAVP) ==> Contains(one, SAVP))
            && |one| == |u| - 10
  {
    hide MatchAt;
    var u := a + SAVPF + b;
    ProfilesAreBorderless();
    assert MatchAt(u, SAVPF, |a|) by { WrittenMatches(a, SAVPF, b); }
    var k := Index(u, SAVPF).value;
    if !Contains(a, SAVP) {
      NoSavpfWithoutSavp(a);
      FirstIsTheWritten(a, SAVPF, b);
    }
    if k == |a| {
      assert u[..k] == a && u[k + |SAVPF|..] == b;
      SavpBesideAvp(a, b);
    } else {
      EarlierSavpf(a, b, k);
    }
  }

  lemma WrittenMatches(a: string, p: string, b: string)
    ensures MatchAt(a + p + b, p, |a|)
  {
  }

  /** A SAVPF found before the written one lies wholly before it. */
  lemma EarlierSavpf(a: string, b: string, k: nat)
    requires k < |a| && Index(a + SAVPF + b, SAVPF) == Some(k)
    ensures var u := a + SAVPF + b; var one := ReplaceFirst(u, SAVPF, AVP);
            Contains(one, SAVP) && |one| == |u| - 10
  {
    hide MatchAt;
    var u := a + SAVPF + b;
    WrittenMatches(a, SAVPF, b);
    if k + |SAVPF| > |a| {
      MatchedChar(u, SAVPF, |a|, 0);
      MatchedChar(u, SAVPF, k, |a| - k);
    }
    var mid := a[k + |SAVPF|..];
    assert u[k + |SAVPF|..] == mid + SAVPF + b && u[..k] == a[..k];
    WrittenMatches(mid, SAVPF, b);
    SavpfHoldsSavp(mid + SAVPF + b, |mid|);
    SavpBesideAvp(a[..k], mid + SAVPF + b);
  }

  /** A media line comes back from the round trip exactly when it names no SAVP profile. */
  lemma LineRoundTrip(line: string)
    ensures DowngradeProfile(UpgradeProfile(line)) == line <==> !Contains(line, SAVP)
  {
    hide DowngradeProfile;
    match Index(line, AVP)
    case None => DowngradeShortens(line);
    case Some(i) =>
      var a, b := line[..i], line[i + |AVP|..];
      var u := a + SAVPF + b;
      assert line == a + AVP + b && UpgradeProfile(line) == u;
      SavpBesideAvp(a, b);
      FirstSavpfAfterUpgrade(a, b);
      SecondReplacement(u, line);
  }

  lemma SecondReplacement(u: string, line: string)
    requires |u| == |line| + 10
    requires var one := ReplaceFirst(u, SAVPF, AVP);
             && |one| == |line|
             && (!Contains(line, SAVP) ==> one == line)
             && (Contains(line, SAVP) ==> Contains(one, SAVP))
    ensures DowngradeProfile(u) == line <==> !Contains(line, SAVP)
  {
  }

  // ---------------------------------------------------------------- whole texts

  lemma ReplaceStaysUnbroken(s: string, was: string, now: string)
    requires Unbroken(s) && '\r' !in now && now != "" && now[0] != '\n'
    ensures Unbroken(ReplaceFirst(s, was, now))
  {
    hide Contains;
    match Index(s, was)
    case None =>
    case Some(i) =>
      var a, b := s[..i], s[i + |was|..];
      PartUnbroken(s, 0, i);
      PartUnbroken(s, i + |was|, |s|);
      assert a == s[0..i] && b == s[i + |was|..|s|];
      NoCrlfWithoutCr(now);
      assert now[|now| - 1] in now;
      NoCrlfConcat(a, now);
      NoCrlfConcat(a + now, b);
  }

  lemma ProfilesStayUnbroken(line: string)
    requires Unbroken(line)
    ensures Unbroken(Downgrade(line)) && Unbroken(Upgrade(line))
  {
    hide Unbroken;
    ReplaceStaysUnbroken(line, SAVPF, AVP);
    ReplaceStaysUnbroken(ReplaceFirst(line, SAVPF, AVP), SAVP, AVP);
    ReplaceStaysUnbroken(line, AVP, SAVPF);
  }

  lemma SipLinesUnbroken(lines: seq<string>)
    requires forall l :: l in lines ==> Unbroken(l)
    ensures forall l :: l in SipLines(lines) ==> Unbroken(l)
  {
    hide Unbroken, Downgrade;
    var kept := Filter(Kept, lines);
    FilterMembers(Kept, lines);
    forall l | l in kept ensures Unbroken(Downgrade(l)) { ProfilesStayUnbroken(l); }
  }

  lemma {:induction false} WebRtcLinesUnbroken(lines: seq<string>, n: nat)
    requires n <= |lines| && forall l :: l in lines ==> Unbroken(l)
    ensures forall l :: l in WebRtcLines(lines, n) ==> Unbroken(l)
    ensures |WebRtcLines(lines, n)| >= n
  {
    hide Unbroken, Upgrade, Downgrade, Stripped, FirstRtcp, ZeroDigest;
    if n == 0 {
    } else {
      WebRtcLinesUnbroken(lines, n - 1);
      ProfilesStayUnbroken(lines[n - 1]);
      PairUnbroken();
      var before := WebRtcLines(lines, n - 1);
      assert forall l :: l in WebRtcLines(lines, n) ==>
        l in before || l == Upgrade(lines[n - 1]) || l == SETUP || l == FINGERPRINT;
    }
  }

  lemma PairUnbroken()
    ensures Unbroken(SETUP) && Unbroken(FINGERPRINT) && Stripped(SETUP) && Stripped(FINGERPRINT)
  {
    hide Stripped, ZeroDigest;
    NoCrlfWithoutCr(SETUP);
    NoCrlfWithoutCr(FINGERPRINT);
    PairIsStripped(ZeroDigest(32));
  }

  lemma PairIsStripped(digest: string)
    ensures Stripped("a=setup:actpass") && Stripped("a=fingerprint:sha-256 " + digest)
  {
  }

  /** Joined lines split into themselves; no lines at all split into one empty line. */
  lemma LinesOfJoin(lines: seq<string>)
    requires forall l :: l in lines ==> Unbroken(l)
    ensures Split(Join(lines, CRLF), CRLF) == if lines == [] then [""] else lines
  {
    CrlfIsBorderless();
    if lines == [] {
      NoCrlfWithoutCr("");
    } else {
      SplitOfJoin(lines, CRLF);
    }
  }

  function There(line: string): string { Downgrade(Upgrade(line)) }

  /** Converting back strips exactly the inserted lines and whatever was stripped of the original. */
  lemma {:induction false} BackStripsInserted(lines: seq<string>, n: nat)
    requires n <= |lines|
    ensures SipLines(WebRtcLines(lines, n)) == Map(There, Filter(Kept, lines[..n]))
  {
    hide Upgrade, Stripped, FirstRtcp, Filter, Map, SipLines, There;
    if n == 0 {
      assert lines[..0] == [];
      NothingFiltered();
    } else {
      BackStripsInserted(lines, n - 1);
      PairUnbroken();
      FilterSnoc(Kept, lines, n - 1);
      BackStep(WebRtcLines(lines, n - 1), lines[n - 1], if FirstRtcp(lines, n - 1) then [SETUP, FINGERPRINT] else [],
               Filter(Kept, lines[..n - 1]));
    }
  }

  lemma BackStep(before: seq<string>, line: string, pair: seq<string>, kept: seq<string>)
    requires pair == [] || (pair == [SETUP, FINGERPRINT] && !Kept(SETUP) && !Kept(FINGERPRINT))
    requires SipLines(before) == Map(There, kept)
    ensures SipLines(before + [Upgrade(line)] + pair) == Map(There, kept + (if Kept(line) then [line] else []))
  {
    hide Upgrade, Downgrade, Stripped, Filter, Map;
    UpgradeKeepsPrefixes(line);
    KeptOfLine(before, Upgrade(line), pair);
    MapOneMore(Downgrade, Filter(Kept, before), Upgrade(line));
    MapOneMore(There, kept, line);
    assert kept + [] == kept;
  }

  lemma NothingFiltered()
    ensures SipLines([]) == [] && Map(There, Filter(Kept, [])) == []
  {
  }

  lemma MapOneMore(f: string -> string, lines: seq<string>, line: string)
    ensures Map(f, lines + [line]) == Map(f, lines) + [f(line)]
  {
  }

  /** The pair put in behind a line is filtered out again. */
  lemma KeptOfLine(before: seq<string>, line: string, pair: seq<string>)
    requires pair == [] || (pair == [SETUP, FINGERPRINT] && !Kept(SETUP) && !Kept(FINGERPRINT))
    ensures Filter(Kept, before + [line] + pair)
            == if Kept(line) then Filter(Kept, before) + [line] else Filter(Kept, before)
  {
    hide Stripped, Filter;
    FilterConcat(Kept, before + [line], pair);
    FilterConcat(Kept, before, [line]);
    FilterOne(Kept, line);
    PairIsFiltered(pair);
  }

  lemma FilterOne<A>(p: A -> bool, x: A)
    ensures Filter(p, [x]) == if p(x) then [x] else []
  {
  }

  lemma PairIsFiltered(pair: seq<string>)
    requires pair == [] || (pair == [SETUP, FINGERPRINT] && !Kept(SETUP) && !Kept(FINGERPRINT))
    ensures Filter(Kept, pair) == []
  {
    if pair != [] {
      FilterOne(Kept, SETUP);
      FilterConcat(Kept, [SETUP], [FINGERPRINT]);
      FilterOne(Kept, FINGERPRINT);
    }
  }

  lemma ElementwiseThere(lines: seq<string>)
    ensures Map(There, lines) == lines <==> forall l :: l in lines ==> There(l) == l
  {
  }

  /** Converting a SIP description to WebRTC and back gives it back exactly when it holds no line that is
      stripped and no media line that names a SAVP profile. */
  lemma ConversionRoundTrip(text: string)
    ensures ToSip(ToWebRtc(text)) == text
       <==> forall l :: l in Split(text, CRLF) ==> !Stripped(l) && (IsMediaLine(l) ==> !Contains(l, SAVP))
  {
    hide Upgrade, Downgrade, Stripped, SipLines, WebRtcLines, Unbroken, There;
    var lines := Split(text, CRLF);
    SplitHasUnbrokenLines(text);
    WebRtcLinesUnbroken(lines, |lines|);
    LinesOfJoin(WebRtcLines(lines, |lines|));
    assert lines[..|lines|] == lines;
    BackStripsInserted(lines, |lines|);
    var back := Map(There, Filter(Kept, lines));
    assert ToSip(ToWebRtc(text)) == Join(back, CRLF);
    forall l ensures There(l) == l <==> (IsMediaLine(l) ==> !Contains(l, SAVP)) { ThereSame(l); }
    FilterMembers(Kept, lines);
    FilterKeepsAll(Kept, lines);
    ElementwiseThere(lines);
    if forall l :: l in lines ==> !Stripped(l) {
      assert Filter(Kept, lines) == lines;
    }
    JoinOfSplit(text, CRLF);
    WebRtcLinesUnbroken(lines, |lines|);
    SipLinesUnbroken(WebRtcLines(lines, |lines|));
    LinesOfJoin(back);
    if Join(back, CRLF) == text {
      BackIsWhole(lines, back);
    }
  }

  /** When the texts are equal the filter dropped nothing: the only text without lines is the empty one. */
  lemma BackIsWhole(lines: seq<string>, back: seq<string>)
    requires |lines| > 0 && back == Map(There, Filter(Kept, lines))
    requires lines == if back == [] then [""] else back
    ensures back == lines && Filter(Kept, lines) == lines
  {
    hide Stripped, There;
    FilterMembers(Kept, lines);
    FilterKeepsAll(Kept, lines);
    EmptyLineIsKept();
    assert lines == [""] ==> lines[0] in Filter(Kept, lines);
  }

  lemma EmptyLineIsKept()
    ensures Kept("")
  {
  }

  lemma SplitHasUnbrokenLines(text: string)
    ensures forall l :: l in Split(text, CRLF) ==> Unbroken(l)
  {
    SplitPartsLackSeparator(text, CRLF);
  }

  lemma ThereSame(line: string)
    ensures There(line) == line <==> (IsMediaLine(line) ==> !Contains(line, SAVP))
  {
    if IsMediaLine(line) {
      UpgradeKeepsPrefixes(line);
      LineRoundTrip(line);
    }
  }

  // ---------------------------------------------------------------- where the DTLS pair goes

  /** The section of the media line at `j` ends before line `e`. */
  ghost predicate IsSection(lines: seq<string>, j: nat, e: nat)
  {
    && j < e <= |lines| && HasPrefix(lines[j], "m=")
    && (forall k :: j < k < e ==> !HasPrefix(lines[k], "m="))
    && (e < |lines| ==> HasPrefix(lines[e], "m="))
  }

  /** In a media section the pair is inserted after one line only, the first `a=rtcp:` line, if there is
      one. */
  lemma OnePairPerSection(lines: seq<string>, j: nat, e: nat, i: nat)
    requires IsSection(lines, j, e) && j <= i < e
    ensures FirstRtcp(lines, i) <==>
              HasPrefix(lines[i], "a=rtcp:") && forall k :: j <= k < i ==> !HasPrefix(lines[k], "a=rtcp:")
  {
    MediaLineIsKept(lines[j]);
    if FirstRtcp(lines, i) {
      var m :| 0 <= m < i && IsMediaLine(lines[m]) && forall k :: m < k < i ==> !IsRtcpLine(lines[k]);
      assert m <= j;
    }
    if IsRtcpLine(lines[i]) && forall k :: j <= k < i ==> !IsRtcpLine(lines[k]) {
      assert forall k :: j < k < i ==> !IsRtcpLine(lines[k]);
    }
  }

  /** Outside every media section, before the first media line, nothing is inserted. */
  lemma NoPairBeforeMedia(lines: seq<string>, i: nat)
    requires i < |lines| && forall k :: 0 <= k <= i ==> !HasPrefix(lines[k], "m=")
    ensures !FirstRtcp(lines, i)
  {
  }

  /** The WebRTC text consists of all lines in order, each in its WebRTC form, with the pair put in. */
  lemma WebRtcTextLines(text: string)
    ensures var lines := Split(text, CRLF);
            Split(ToWebRtc(text), CRLF) == WebRtcLines(lines, |lines|)
  {
    hide Unbroken, WebRtcLines;
    var lines := Split(text, CRLF);
    SplitHasUnbrokenLines(text);
    WebRtcLinesUnbroken(lines, |lines|);
    LinesOfJoin(WebRtcLines(lines, |lines|));
  }

  /** The SIP text consists of the lines that are not stripped, in order, each in its SIP form. */
  lemma SipTextLines(text: string)
    ensures var kept := Map(Downgrade, Filter(Kept, Split(text, CRLF)));
            Split(ToSip(text), CRLF) == if kept == [] then [""] else kept
  {
    hide Downgrade, Kept, Unbroken;
    SplitHasUnbrokenLines(text);
    SipLinesUnbroken(Split(text, CRLF));
    LinesOfJoin(SipLines(Split(text, CRLF)));
  }

  /** The first `a=rtcp:` lines of media sections among the first `n` lines. */
  ghost function Pairs(lines: seq<string>, n: nat): set<nat>
    requires n <= |lines|
  {
    set i: nat | i < n && FirstRtcp(lines, i)
  }

  lemma PairsNext(lines: seq<string>, n: nat)
    requires n < |lines|
    ensures |Pairs(lines, n + 1)| == |Pairs(lines, n)| + (if FirstRtcp(lines, n) then 1 else 0)
  {
    hide FirstRtcp;
    assert Pairs(lines, n + 1) == Pairs(lines, n) + (if FirstRtcp(lines, n) then {n} else {});
  }

  /** Where line `i` stands among the lines made: its pair, if it has one, right behind it. */
  ghost predicate StandsAt(lines: seq<string>, i: nat, out: seq<string>)
    requires i < |lines|
  {
    var k := i + 2 * |Pairs(lines, i)|;
    && k < |out| && out[k] == Upgrade(lines[i])
    && (FirstRtcp(lines, i) ==> k + 2 < |out| && out[k + 1] == SETUP && out[k + 2] == FINGERPRINT)
  }

  lemma {:induction false} LinesStand(lines: seq<string>, n: nat)
    requires n <= |lines|
    ensures var out := WebRtcLines(lines, n);
            |out| == n + 2 * |Pairs(lines, n)| && forall i: nat :: i < n ==> StandsAt(lines, i, out)
  {
    hide FirstRtcp, Upgrade, Pairs, StandsAt, ZeroDigest;
    if n == 0 {
      NoPairs(lines);
    } else {
      LinesStand(lines, n - 1);
      OneLineMore(lines, n - 1, WebRtcLines(lines, n - 1));
    }
  }

  lemma OneLineMore(lines: seq<string>, n: nat, before: seq<string>)
    requires n < |lines| && |before| == n + 2 * |Pairs(lines, n)|
    requires forall i: nat :: i < n ==> StandsAt(lines, i, before)
    ensures var pair := if FirstRtcp(lines, n) then [SETUP, FINGERPRINT] else [];
            var out := before + [Upgrade(lines[n])] + pair;
            |out| == n + 1 + 2 * |Pairs(lines, n + 1)| && forall i: nat :: i < n + 1 ==> StandsAt(lines, i, out)
  {
    hide FirstRtcp, Upgrade, Pairs, StandsAt, ZeroDigest;
    var pair := if FirstRtcp(lines, n) then [SETUP, FINGERPRINT] else [];
    PairsNext(lines, n);
    StandsLast(lines, n, before);
    forall i: nat | i < n ensures StandsAt(lines, i, before + [Upgrade(lines[n])] + pair) {
      StandsStill(lines, i, before, [Upgrade(lines[n])]);
      StandsStill(lines, i, before + [Upgrade(lines[n])], pair);
    }
  }

  lemma StandsStill(lines: seq<string>, i: nat, out: seq<string>, more: seq<string>)
    requires i < |lines| && StandsAt(lines, i, out)
    ensures StandsAt(lines, i, out + more)
  {
    hide FirstRtcp, Upgrade, Pairs;
  }

  lemma StandsLast(lines: seq<string>, i: nat, before: seq<string>)
    requires i < |lines| && |before| == i + 2 * |Pairs(lines, i)|
    ensures var pair := if FirstRtcp(lines, i) then [SETUP, FINGERPRINT] else [];
            StandsAt(lines, i, before + [Upgrade(lines[i])] + pair)
  {
    hide FirstRtcp, Upgrade, Pairs, ZeroDigest;
  }

  lemma NoPairs(lines: seq<string>)
    ensures Pairs(lines, 0) == {}
  {
  }

  lemma {:induction false} DigestIsZero(n: nat)
    requires n > 0
    ensures var d := ZeroDigest(n);
            |d| == 3 * n - 1 && forall j :: 0 <= j < |d| ==> d[j] == if j % 3 == 2 then ':' else '0'
  {
    if n > 1 { DigestIsZero(n - 1); }
  }

  /** The line in its WebRTC form: the first profile name of a media line is exchanged, and no other line changes. */
  lemma UpgradedLine(line: string)
    ensures Upgrade(line) ==
            if |line| >= 2 && line[0] == 'm' && line[1] == '=' then ReplaceFirst(line, "RTP/AVP", "UDP/TLS/RTP/SAVPF")
            else line
  {
    hide ReplaceFirst;
    TwoCharacters(line);
  }

  lemma TwoCharacters(line: string)
    ensures HasPrefix(line, "m=") <==> |line| >= 2 && line[0] == 'm' && line[1] == '='
  {
    if |line| >= 2 { assert line[..2] == [line[0], line[1]]; }
  }

  /** Line by line what the WebRTC text holds: as many lines more as there are pairs; each line in its place, and
      right behind the first `a=rtcp:` line of a media section the setup and fingerprint lines. */
  lemma PairsArePutIn(text: string, i: nat)
    requires i < |Split(text, "\r\n")|
    ensures var lines, out := Split(text, "\r\n"), Split(ToWebRtc(text), "\r\n");
            var k := i + 2 * |Pairs(lines, i)|;
            && |out| == |lines| + 2 * |Pairs(lines, |lines|)| && k < |out|
            && out[k] == (if |lines[i]| >= 2 && lines[i][0] == 'm' && lines[i][1] == '='
                          then ReplaceFirst(lines[i], "RTP/AVP", "UDP/TLS/RTP/SAVPF") else lines[i])
            && (FirstRtcp(lines, i) ==>
                  && k + 2 < |out| && out[k + 1] == "a=setup:actpass"
                  && |out[k + 2]| == 22 + 95 && out[k + 2][..22] == "a=fingerprint:sha-256 "
                  && forall j :: 0 <= j < 95 ==> out[k + 2][22 + j] == if j % 3 == 2 then ':' else '0')
  {
    hide Upgrade, FirstRtcp, Pairs, ReplaceFirst, WebRtcLines, ToWebRtc;
    var lines := Split(text, CRLF);
    WebRtcTextLines(text);
    LinesStand(lines, |lines|);
    assert StandsAt(lines, i, WebRtcLines(lines, |lines|));
    UpgradedLine(lines[i]);
    DigestIsZero(32);
  }

  /** The line in its SIP form. */
  lemma DowngradedLine(line: string)
    ensures Downgrade(line) ==
            if |line| >= 2 && line[0] == 'm' && line[1] == '='
            then ReplaceFirst(ReplaceFirst(line, "UDP/TLS/RTP/SAVPF", "RTP/AVP"), "UDP/TLS/RTP/SAVP", "RTP/AVP")
            else line
  {
    hide ReplaceFirst;
    TwoCharacters(line);
  }

  /** Line by line what the SIP text holds, as long as any line is kept: exactly the lines that do not begin in one of
      five ways, in order, each in its SIP form. */
  lemma StrippedIsLeftOut(text: string) returns (places: seq<nat>)
    ensures var lines, out := Split(text, "\r\n"), Split(ToSip(text), "\r\n");
            && (places == [] ==> out == [""])
            && (places != [] ==> |out| == |places|)
            && (forall k :: 0 <= k < |places| ==> places[k] < |lines| && out[k] == Downgrade(lines[places[k]]))
            && (forall k, l :: 0 <= k < l < |places| ==> places[k] < places[l])
            && (forall i: nat :: i < |lines| ==>
                  (i !in places <==>
                     || HasPrefix(lines[i], "a=candidate:") || HasPrefix(lines[i], "a=fingerprint:")
                     || HasPrefix(lines[i], "a=crypto:") || HasPrefix(lines[i], "a=setup:")
                     || HasPrefix(lines[i], "a=ice-")))
  {
    hide Downgrade, Filter, HasPrefix, ToSip;
    var lines := Split(text, CRLF);
    SipTextLines(text);
    places := FilterPlaces(Kept, lines);
  }

  // ---------------------------------------------------------------- converting twice

  lemma NoSavpBeforeAvp(a: string, b: string)
    requires !Contains(a, SAVP)
    ensures forall i: nat :: i < |a + AVP| ==> !MatchAt(a + AVP + b, SAVP, i)
  {
    var s := a + AVP + b;
    assert s[|a|..|a| + |AVP|] == AVP && a + (AVP + b) == s;
    forall i: nat | i < |a + AVP| ensures !MatchAt(s, SAVP, i) {
      ShiftedMatch(a, AVP + b, SAVP, i);
      if MatchAt(s, SAVP, i) {
        ProfilesDoNotOverlap(s, i, |a|);
      }
    }
  }

  /** An AVP neither is nor completes an occurrence of SAVP. */
  lemma SavpCountAroundAvp(a: string, b: string)
    ensures Count(a + AVP + b, SAVP) == Count(a, SAVP) + Count(b, SAVP)
  {
    hide Count, MatchAt;
    ProfilesAreBorderless();
    forall c: string ensures Adds(c, AVP, b, SAVP, 0) {
      if !Contains(c, SAVP) {
        NoSavpBeforeAvp(c, b);
        CountAfter(c + AVP, b, SAVP);
      }
    }
    CountAround(a, AVP, b, SAVP, 0);
  }

  lemma OneSavpf(a: string, b: string)
    ensures Adds(a, SAVPF, b, SAVP, 1)
  {
    hide Count;
    assert SAVPF == SAVP + "F";
    assert a + SAVPF + b == a + SAVP + ("F" + b);
    forall i: nat | i < 1 ensures !MatchAt("F" + b, SAVP, i) {
      assert |SAVP| <= |"F" + b| ==> ("F" + b)[..|SAVP|][0] == 'F';
    }
    ProfilesAreBorderless();
    CountAfter("F", b, SAVP);
    if !Contains(a, SAVP) { CountStep(a, "F" + b, SAVP); }
  }

  /** The whole profile name with its final F counts once. */
  lemma SavpCountAroundSavpf(a: string, b: string)
    ensures Count(a + SAVPF + b, SAVP) == Count(a, SAVP) + 1 + Count(b, SAVP)
  {
    hide Count;
    ProfilesAreBorderless();
    forall c: string ensures Adds(c, SAVPF, b, SAVP, 1) { OneSavpf(c, b); }
    CountAround(a, SAVPF, b, SAVP, 1);
  }

  /** Each of the two replacements takes one occurrence of SAVP away, if it finds its text. */
  lemma DowngradeCount(line: string)
    ensures Count(DowngradeProfile(line), SAVP) ==
            var n := Count(line, SAVP) - (if Contains(line, SAVPF) then 1 else 0);
            if n == 0 then 0 else n - 1
  {
    hide Count, ReplaceFirst;
    SavpfReplaced(line);
    SavpReplaced(ReplaceFirst(line, SAVPF, AVP));
  }

  lemma SavpfReplaced(line: string)
    ensures Count(ReplaceFirst(line, SAVPF, AVP), SAVP) == Count(line, SAVP) - (if Contains(line, SAVPF) then 1 else 0)
  {
    hide Count;
    match Index(line, SAVPF)
    case None =>
    case Some(k) =>
      var a, b := line[..k], line[k + |SAVPF|..];
      PartsAround(line, k, SAVPF);
      SavpCountAroundSavpf(a, b);
      SavpCountAroundAvp(a, b);
  }

  lemma SavpReplaced(line: string)
    ensures Count(ReplaceFirst(line, SAVP, AVP), SAVP) == if Count(line, SAVP) == 0 then 0 else Count(line, SAVP) - 1
  {
    hide Count;
    CountZero(line, SAVP);
    match Index(line, SAVP)
    case None =>
    case Some(k) =>
      var a, b := line[..k], line[k + |SAVP|..];
      PartsAround(line, k, SAVP);
      ProfilesAreBorderless();
      CountStep(a, b, SAVP);
      SavpCountAroundAvp(a, b);
  }

  /** A second conversion leaves the line alone: at most one SAVP, or two of which one is a SAVPF. */
  predicate Settles(line: string)
  {
    Count(line, SAVP) <= 1 || (Count(line, SAVP) == 2 && Index(line, SAVPF).Some?)
  }

  lemma DowngradeTwice(line: string)
    ensures Downgrade(Downgrade(line)) == Downgrade(line) <==> (IsMediaLine(line) ==> Settles(line))
  {
    hide DowngradeProfile, Count;
    if IsMediaLine(line) {
      DowngradeKeepsPrefixes(line);
      var d := DowngradeProfile(line);
      DowngradeShortens(d);
      DowngradeCount(line);
      CountZero(d, SAVP);
      CountZero(line, SAVP);
      if Contains(line, SAVPF) {
        var i: nat :| MatchAt(line, SAVPF, i);
        SavpfHoldsSavp(line, i);
      }
    }
  }

  /** Converting to SIP a second time changes nothing exactly when every media line settles at once. */
  lemma ConversionTwice(text: string)
    ensures ToSip(ToSip(text)) == ToSip(text)
       <==> forall l :: l in Split(text, CRLF) && IsMediaLine(l) ==> Settles(l)
  {
    hide Downgrade, Stripped, Unbroken, Settles;
    var lines := Split(text, CRLF);
    var kept := Filter(Kept, lines);
    var once := Map(Downgrade, kept);
    SipTextLines(text);
    FilterMembers(Kept, lines);
    if once == [] {
      EmptyTextConverts();
      forall l | IsMediaLine(l) ensures Kept(l) { MediaLineIsKept(l); }
      assert kept == [];
    } else {
      forall l | l in kept ensures Kept(Downgrade(l)) { DowngradeKeepsPrefixes(l); }
      FilterKeepsAll(Kept, once);
      var twice := Map(Downgrade, once);
      assert ToSip(ToSip(text)) == Join(twice, CRLF);
      forall l
        ensures Downgrade(Downgrade(l)) == Downgrade(l) <==> (IsMediaLine(l) ==> Settles(l))
      {
        DowngradeTwice(l);
      }
      forall l | IsMediaLine(l) ensures Kept(l) { MediaLineIsKept(l); }
      SplitHasUnbrokenLines(text);
      SipLinesUnbroken(lines);
      FilterMembers(Kept, once);
      SipLinesUnbroken(once);
      LinesOfJoin(once);
      LinesOfJoin(twice);
      TwiceIsOnce(kept);
    }
  }

  lemma TwiceIsOnce(kept: seq<string>)
    ensures var once := Map(Downgrade, kept);
            Map(Downgrade, once) == once <==> forall l :: l in kept ==> Downgrade(Downgrade(l)) == Downgrade(l)
  {
  }

  lemma EmptyTextConverts()
    ensures ToSip("") == ""
  {
    hide Downgrade, Stripped, Split, Filter, Map, Join;
    EmptyTextIsOneLine();
    EmptyLineIsKept();
    FilterOne(Kept, "");
    MapOneMore(Downgrade, [], "");
    assert [] + [""] == [""];
    NotMedia();
  }

  lemma EmptyTextIsOneLine()
    ensures Split("", CRLF) == [""] && Join([""], CRLF) == ""
    ensures Map(Downgrade, []) == []
  {
  }

  lemma NotMedia()
    ensures Downgrade("") == ""
  {
  }
}
