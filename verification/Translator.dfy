/** Conversion of session descriptions between WebRTC and SIP, line by line. */
module Translator {
  import opened Common
  import opened Text

  const SAVPF: string := "UDP/TLS/RTP/SAVPF"
  const SAVP: string := "UDP/TLS/RTP/SAVP"
  const AVP: string := "RTP/AVP"
  const SETUP: string := "a=setup:actpass"
  const FINGERPRINT: string := "a=fingerprint:sha-256 " + ZeroDigest(32)

  /** A digest of `n` zero bytes, in hexadecimal with colons between the bytes. */
  function ZeroDigest(n: nat): (digest: string)
    ensures '\r' !in digest
  {
    if n == 0 then "" else if n == 1 then "00" else "00:" + ZeroDigest(n - 1)
  }

  /** The lines only WebRTC understands. */
  predicate Stripped(line: string)
  {
    || HasPrefix(line, "a=candidate:") || HasPrefix(line, "a=fingerprint:") || HasPrefix(line, "a=crypto:")
    || HasPrefix(line, "a=setup:") || HasPrefix(line, "a=ice-")
  }

  predicate Kept(line: string) { !Stripped(line) }

  predicate IsMediaLine(line: string) { HasPrefix(line, "m=") }

  predicate IsRtcpLine(line: string) { HasPrefix(line, "a=rtcp:") }

  function DowngradeProfile(line: string): string
  {
    ReplaceFirst(ReplaceFirst(line, SAVPF, AVP), SAVP, AVP)
  }

  function Downgrade(line: string): string
  {
    if IsMediaLine(line) then DowngradeProfile(line) else line
  }

  function UpgradeProfile(line: string): string { ReplaceFirst(line, AVP, SAVPF) }

  function Upgrade(line: string): string
  {
    if IsMediaLine(line) then UpgradeProfile(line) else line
  }

  /** The lines that stay, each in its SIP form. */
  function SipLines(lines: seq<string>): seq<string>
  {
    Map(Downgrade, Filter(Kept, lines))
  }

  /** A media section is open before line `i` and has had no `a=rtcp:` line yet. */
  ghost predicate AwaitsRtcp(lines: seq<string>, i: nat)
    requires i <= |lines|
  {
    exists j :: 0 <= j < i && IsMediaLine(lines[j]) && forall k :: j < k < i ==> !IsRtcpLine(lines[k])
  }

  /** Line `i` is the first `a=rtcp:` line of its media section. */
  ghost predicate FirstRtcp(lines: seq<string>, i: nat)
    requires i < |lines|
  {
    IsRtcpLine(lines[i]) && AwaitsRtcp(lines, i)
  }

  /** The lines before `n`, each in its WebRTC form, with the DTLS pair after each first `a=rtcp:` line. */
  ghost function WebRtcLines(lines: seq<string>, n: nat): seq<string>
    requires n <= |lines|
  {
    if n == 0 then []
    else WebRtcLines(lines, n - 1) + [Upgrade(lines[n - 1])]
         + (if FirstRtcp(lines, n - 1) then [SETUP, FINGERPRINT] else [])
  }

  function ToSip(text: string): string { Join(SipLines(Split(text, CRLF)), CRLF) }

  ghost function ToWebRtc(text: string): string
  {
    var lines := Split(text, CRLF);
    Join(WebRtcLines(lines, |lines|), CRLF)
  }

  method ConvertWebRTCSDPToSIP(webrtcSDP: string) returns (sipSDP: string)
    ensures sipSDP == ToSip(webrtcSDP)
  {
    var lines := Split(webrtcSDP, CRLF);
    var result: seq<string> := [];
    for i := 0 to |lines|
      invariant result == SipLines(lines[..i])
    {
      FilterSnoc(Kept, lines, i);
      var line := lines[i];
      if HasPrefix(line, "a=candidate:") {
        continue;
      }
      if HasPrefix(line, "a=fingerprint:") {
        continue;
      }
      if HasPrefix(line, "a=crypto:") {
        continue;
      }
      if HasPrefix(line, "a=setup:") {
        continue;
      }
      if HasPrefix(line, "a=ice-") {
        continue;
      }
      if HasPrefix(line, "m=") {
        line := ReplaceFirst(line, "UDP/TLS/RTP/SAVPF", "RTP/AVP");
        line := ReplaceFirst(line, "UDP/TLS/RTP/SAVP", "RTP/AVP");
      }
      MapConcat(Downgrade, Filter(Kept, lines[..i]), [lines[i]]);
      result := result + [line];
    }
    assert lines[..|lines|] == lines;
    sipSDP := Join(result, CRLF);
  }

  method ConvertSIPSDPToWebRTC(sipSDP: string) returns (webrtcSDP: string)
    ensures webrtcSDP == ToWebRtc(sipSDP)
  {
    var lines := Split(sipSDP, CRLF);
    var result: seq<string> := [];
    var mediaSection := false;
    for i := 0 to |lines|
      invariant result == WebRtcLines(lines, i)
      invariant mediaSection <==> AwaitsRtcp(lines, i)
    {
      var line := lines[i];
      AwaitsRtcpNext(lines, i);
      UpgradeKeepsPrefixes(line);
      if HasPrefix(line, "m=") {
        mediaSection := true;
        MediaLineIsKept(line);
        line := ReplaceFirst(line, "RTP/AVP", "UDP/TLS/RTP/SAVPF");
      }
      result := result + [line];
      if mediaSection && HasPrefix(line, "a=rtcp:") {
        result := result + ["a=setup:actpass"];
        result := result + [FINGERPRINT];
        mediaSection := false;
      }
    }
    webrtcSDP := Join(result, CRLF);
  }

  lemma AwaitsRtcpNext(lines: seq<string>, i: nat)
    requires i < |lines|
    ensures AwaitsRtcp(lines, i + 1) <==> IsMediaLine(lines[i]) || (AwaitsRtcp(lines, i) && !IsRtcpLine(lines[i]))
  {
  }

  /** Replacing a profile leaves the first two characters of a media line alone. */
  lemma ReplaceKeepsPrefix(line: string, was: string, now: string)
    requires IsMediaLine(line) && |was| > 0 && was[0] != 'm' && was[0] != '='
    ensures IsMediaLine(ReplaceFirst(line, was, now))
    ensures !IsRtcpLine(ReplaceFirst(line, was, now)) && !Stripped(ReplaceFirst(line, was, now))
  {
    var r := ReplaceFirst(line, was, now);
    assert line[0] == line[..2][0] == 'm' && line[1] == line[..2][1] == '=';
    match Index(line, was)
    case None =>
    case Some(i) =>
      assert line[i] == line[i..i + |was|][0] == was[0];
      assert i >= 2;
      assert r[..2] == line[..2];
  }

  lemma MediaLineIsKept(line: string)
    requires IsMediaLine(line)
    ensures !Stripped(line) && !IsRtcpLine(line)
  {
    assert line[..2][0] == 'm';
  }

  lemma UpgradeKeepsPrefixes(line: string)
    ensures IsMediaLine(Upgrade(line)) <==> IsMediaLine(line)
    ensures IsRtcpLine(Upgrade(line)) <==> IsRtcpLine(line)
    ensures Stripped(Upgrade(line)) <==> Stripped(line)
  {
    if IsMediaLine(line) {
      ReplaceKeepsPrefix(line, AVP, SAVPF);
      MediaLineIsKept(line);
    }
  }

  lemma DowngradeKeepsPrefixes(line: string)
    ensures IsMediaLine(Downgrade(line)) <==> IsMediaLine(line)
    ensures Stripped(Downgrade(line)) <==> Stripped(line)
  {
    if IsMediaLine(line) {
      ReplaceKeepsPrefix(line, SAVPF, AVP);
      ReplaceKeepsPrefix(ReplaceFirst(line, SAVPF, AVP), SAVP, AVP);
      MediaLineIsKept(line);
    }
  }
}
