/** IP addresses as bytes and the text Go's `net.IP.String` prints for them. */
module IpAddresses {
  import opened Common
  import opened Text
  import opened Uuids

  /** Four bytes, or sixteen. */
  predicate IsIp(bytes: seq<int>)
  {
    (|bytes| == 4 || |bytes| == 16) && forall i :: 0 <= i < |bytes| ==> 0 <= bytes[i] < 256
  }

  function Dotted(bytes: seq<int>): string
    requires |bytes| == 4
  {
    Itoa(bytes[0]) + "." + Itoa(bytes[1]) + "." + Itoa(bytes[2]) + "." + Itoa(bytes[3])
  }

  /** An IPv4 address in sixteen bytes. */
  predicate IsMapped(bytes: seq<int>)
    requires |bytes| == 16
  {
    (forall i :: 0 <= i < 10 ==> bytes[i] == 0) && bytes[10] == 255 && bytes[11] == 255
  }

  predicate IsIp6(bytes: seq<int>) { IsIp(bytes) && |bytes| == 16 }

  function Group(bytes: seq<int>, k: nat): nat
    requires IsIp6(bytes) && k < 8
  {
    bytes[2 * k] * 256 + bytes[2 * k + 1]
  }

  /** Hexadecimal without leading zeros. */
  function HexNumber(n: nat): string
  {
    if n < 16 then [HexDigit(n)] else HexNumber(n / 16) + [HexDigit(n % 16)]
  }

  /** Where the run of zero groups from `i` on ends. */
  function RunEnd(bytes: seq<int>, i: nat): (end: nat)
    requires IsIp6(bytes) && i <= 8
    ensures i <= end <= 8
    decreases 8 - i
  {
    if i == 8 || Group(bytes, i) != 0 then i else RunEnd(bytes, i + 1)
  }

  /** The first of the longest runs of at least two zero groups, given the best before `i`; empty if there is none. */
  function LongestRun(bytes: seq<int>, i: nat, start: nat, end: nat): (run: (nat, nat))
    requires IsIp6(bytes) && i <= 8 && start <= end <= 8
    ensures run.0 <= run.1 <= 8
    decreases 8 - i
  {
    if i == 8 then (start, end)
    else
      var j := RunEnd(bytes, i);
      if j - i >= 2 && j - i > end - start then LongestRun(bytes, i + 1, i, j) else LongestRun(bytes, i + 1, start, end)
  }

  /** The groups from `i` on, the run shortened to two colons. */
  function GroupsText(bytes: seq<int>, run: (nat, nat), i: nat): string
    requires IsIp6(bytes) && run.0 <= run.1 <= 8
    decreases 8 - i
  {
    if i >= 8 then ""
    else if i == run.0 < run.1 then
      "::" + (if run.1 == 8 then "" else HexNumber(Group(bytes, run.1)) + GroupsText(bytes, run, run.1 + 1))
    else (if i > 0 then ":" else "") + HexNumber(Group(bytes, i)) + GroupsText(bytes, run, i + 1)
  }

  function IpText(bytes: seq<int>): string
    requires IsIp(bytes)
  {
    if |bytes| == 4 then Dotted(bytes)
    else if IsMapped(bytes) then Dotted(bytes[12..])
    else GroupsText(bytes, LongestRun(bytes, 0, 0, 0), 0)
  }

  /** The address with its last byte replaced. */
  function WithLast(base: seq<int>, last: int): (ip: seq<int>)
    requires IsIp(base)
    ensures 0 <= last < 256 ==> IsIp(ip)
  {
    base[|base| - 1 := last]
  }

  // ---------------------------------------------------------------- different hosts print differently

  lemma {:induction false} HexNumberInjective(a: nat, b: nat)
    requires HexNumber(a) == HexNumber(b)
    ensures a == b
    decreases a + b
  {
    if a < 16 && b < 16 {
      HexDigitInjective(a, b);
    } else {
      assert |HexNumber(a)| == |HexNumber(b)|;
      LongerNumber(a);
      LongerNumber(b);
      var x, y := HexNumber(a), HexNumber(b);
      assert x[..|x| - 1] == HexNumber(a / 16) && y[..|y| - 1] == HexNumber(b / 16);
      assert x[|x| - 1] == HexDigit(a % 16) && y[|y| - 1] == HexDigit(b % 16);
      HexDigitInjective(a % 16, b % 16);
      HexNumberInjective(a / 16, b / 16);
    }
  }

  lemma LongerNumber(n: nat)
    ensures |HexNumber(n)| == 1 <==> n < 16
  {
  }

  /** Both hosts have a last group that is not zero, and the same groups before it. */
  predicate SameNetwork(a: seq<int>, b: seq<int>)
    requires IsIp6(a) && IsIp6(b)
  {
    a[..15] == b[..15] && a[15] > 0 && b[15] > 0
  }

  lemma SameGroups(a: seq<int>, b: seq<int>, k: nat)
    requires IsIp6(a) && IsIp6(b) && SameNetwork(a, b) && k < 8
    ensures k < 7 ==> Group(a, k) == Group(b, k)
    ensures k == 7 ==> Group(a, k) > 0 && Group(b, k) > 0
  {
    assert a[2 * k] == a[..15][2 * k] && b[2 * k] == b[..15][2 * k];
    if k < 7 {
      assert a[2 * k + 1] == a[..15][2 * k + 1] && b[2 * k + 1] == b[..15][2 * k + 1];
    }
  }

  lemma {:induction false} SameRunEnd(a: seq<int>, b: seq<int>, i: nat)
    requires IsIp6(a) && IsIp6(b) && SameNetwork(a, b) && i < 8
    ensures RunEnd(a, i) == RunEnd(b, i) <= 7
    decreases 8 - i
  {
    hide Group, SameNetwork;
    SameGroups(a, b, i);
    if i == 7 {
    } else {
      SameRunEnd(a, b, i + 1);
    }
  }

  lemma {:induction false} SameLongestRun(a: seq<int>, b: seq<int>, i: nat, start: nat, end: nat)
    requires IsIp6(a) && IsIp6(b) && SameNetwork(a, b) && i <= 8 && start <= end <= 7
    ensures LongestRun(a, i, start, end) == LongestRun(b, i, start, end)
    ensures LongestRun(a, i, start, end).1 <= 7
    decreases 8 - i
  {
    hide RunEnd, SameNetwork;
    if i == 8 {
    } else {
      SameRunEnd(a, b, i);
      var j := RunEnd(a, i);
      if j - i >= 2 && j - i > end - start {
        SameLongestRun(a, b, i + 1, i, j);
      } else {
        SameLongestRun(a, b, i + 1, start, end);
      }
    }
  }

  lemma SameTail(head: string, x: string, y: string)
    requires head + x == head + y
    ensures x == y
  {
    assert (head + x)[|head|..] == x && (head + y)[|head|..] == y;
  }

  /** The separator before the groups from `i` on, and the group they begin with. */
  function Separator(run: (nat, nat), i: nat): string { if i == run.0 < run.1 then "::" else if i > 0 then ":" else "" }

  function FirstShown(run: (nat, nat), i: nat): nat { if i == run.0 < run.1 then run.1 else i }

  lemma GroupsBegin(bytes: seq<int>, run: (nat, nat), i: nat)
    requires IsIp6(bytes) && run.0 <= run.1 <= 7 && i <= 7
    ensures var k := FirstShown(run, i);
            GroupsText(bytes, run, i) ==
            Separator(run, i) + (HexNumber(Group(bytes, k)) + GroupsText(bytes, run, k + 1))
  {
    hide HexNumber, Group;
  }

  lemma NoGroups(bytes: seq<int>, run: (nat, nat))
    requires IsIp6(bytes) && run.0 <= run.1 <= 7
    ensures GroupsText(bytes, run, 8) == ""
  {
  }

  lemma {:induction false} SameLastGroup(a: seq<int>, b: seq<int>, run: (nat, nat), i: nat)
    requires IsIp6(a) && IsIp6(b) && SameNetwork(a, b) && run.0 <= run.1 <= 7 && i <= 7
    requires GroupsText(a, run, i) == GroupsText(b, run, i)
    ensures Group(a, 7) == Group(b, 7)
    decreases 8 - i
  {
    hide Group, SameNetwork, HexNumber, GroupsText, Separator;
    var k := FirstShown(run, i);
    var g, h := HexNumber(Group(a, k)), HexNumber(Group(b, k));
    var x, y := GroupsText(a, run, k + 1), GroupsText(b, run, k + 1);
    GroupsBegin(a, run, i);
    GroupsBegin(b, run, i);
    SameTail(Separator(run, i), g + x, h + y);
    if k == 7 {
      NoGroups(a, run);
      NoGroups(b, run);
      assert g + "" == g && h + "" == h;
      HexNumberInjective(Group(a, 7), Group(b, 7));
    } else {
      SameGroups(a, b, k);
      SameTail(g, x, y);
      SameLastGroup(a, b, run, k + 1);
    }
  }

  lemma DottedInjective(a: seq<int>, b: seq<int>)
    requires |a| == |b| == 4 && a[..3] == b[..3] && 0 <= a[3] < 256 && 0 <= b[3] < 256 && Dotted(a) == Dotted(b)
    ensures a[3] == b[3]
  {
    hide Itoa, Atoi;
    assert a[0] == a[..3][0] && a[1] == a[..3][1] && a[2] == a[..3][2];
    assert b[0] == b[..3][0] && b[1] == b[..3][1] && b[2] == b[..3][2];
    SameTail(Itoa(a[0]) + "." + Itoa(a[1]) + "." + Itoa(a[2]) + ".", Itoa(a[3]), Itoa(b[3]));
    AtoiOfItoa(a[3]);
    AtoiOfItoa(b[3]);
  }

  /** Of one network, hosts with different last bytes other than zero print differently. */
  lemma HostsPrintApart(base: seq<int>, i: int, j: int)
    requires IsIp(base) && 1 <= i < 256 && 1 <= j < 256 && IpText(WithLast(base, i)) == IpText(WithLast(base, j))
    ensures i == j
  {
    hide Dotted, GroupsText, LongestRun, Group;
    var a, b := WithLast(base, i), WithLast(base, j);
    if |base| == 4 {
      assert a[..3] == b[..3];
      DottedInjective(a, b);
    } else if IsMapped(base) {
      assert a[12..][..3] == b[12..][..3];
      DottedInjective(a[12..], b[12..]);
    } else {
      assert a[..15] == b[..15];
      SameLongestRun(a, b, 0, 0, 0);
      SameLastGroup(a, b, LongestRun(a, 0, 0, 0), 0);
      LastGroups(a, b);
    }
  }

  lemma LastGroups(a: seq<int>, b: seq<int>)
    requires IsIp6(a) && IsIp6(b) && SameNetwork(a, b) && Group(a, 7) == Group(b, 7)
    ensures a[15] == b[15]
  {
    assert a[14] == a[..15][14] == b[..15][14] == b[14];
  }

  // ---------------------------------------------------------------- the text of an address

  /** Four decimal numbers with dots between them. */
  lemma TextOfFour(a: int, b: int, c: int, d: int)
    requires 0 <= a < 256 && 0 <= b < 256 && 0 <= c < 256 && 0 <= d < 256
    ensures IsIp([a, b, c, d])
    ensures IpText([a, b, c, d]) == Itoa(a) + "." + Itoa(b) + "." + Itoa(c) + "." + Itoa(d)
  {
    hide Itoa;
  }

  /** Hexadecimal notation: sixteen digits, and one more digit behind sixteen times the number. */
  lemma HexNumberIsHexadecimal(n: nat, d: nat)
    requires d < 16
    ensures HexNumber(d) == ["0123456789abcdef"[d]]
    ensures n > 0 ==> HexNumber(16 * n + d) == HexNumber(n) + ["0123456789abcdef"[d]]
  {
    assert "0123456789abcdef"[d] == HexDigit(d);
    if n > 0 { assert (16 * n + d) / 16 == n && (16 * n + d) % 16 == d; }
  }

  /** Two or more zero groups from `s` up to `e`. */
  predicate IsRun(bytes: seq<int>, s: nat, e: nat)
    requires IsIp6(bytes)
  {
    s + 2 <= e <= 8 && forall k: nat :: s <= k < e ==> Group(bytes, k) == 0
  }

  lemma RunEndIs(bytes: seq<int>, i: nat)
    requires IsIp6(bytes) && i <= 8
    ensures var e := RunEnd(bytes, i);
            && (forall k: nat :: i <= k < e ==> Group(bytes, k) == 0)
            && (e < 8 ==> Group(bytes, e) != 0)
    decreases 8 - i
  {
    hide Group;
    if i < 8 && Group(bytes, i) == 0 { RunEndIs(bytes, i + 1); }
  }

  /** Of the runs that begin before `i`, none is longer than this one, and those of its length do not begin earlier;
      without any there is none. */
  ghost predicate IsBest(bytes: seq<int>, i: nat, s: nat, e: nat)
    requires IsIp6(bytes) && s <= e <= 8
  {
    && (s < e ==> IsRun(bytes, s, e) && s < i)
    && (forall x: nat, y: nat :: x < i && IsRun(bytes, x, y) ==> y - x <= e - s && (y - x == e - s ==> s <= x))
  }

  lemma {:induction false} LongestRunIsBest(bytes: seq<int>, i: nat, s: nat, e: nat)
    requires IsIp6(bytes) && i <= 8 && s <= e <= 8 && IsBest(bytes, i, s, e)
    ensures var run := LongestRun(bytes, i, s, e); IsBest(bytes, 8, run.0, run.1)
    decreases 8 - i
  {
    hide Group, IsBest;
    if i < 8 {
      BestNext(bytes, i, s, e);
      var j := RunEnd(bytes, i);
      if j - i >= 2 && j - i > e - s {
        LongestRunIsBest(bytes, i + 1, i, j);
      } else {
        LongestRunIsBest(bytes, i + 1, s, e);
      }
    }
  }

  lemma BestNext(bytes: seq<int>, i: nat, s: nat, e: nat)
    requires IsIp6(bytes) && i < 8 && s <= e <= 8 && IsBest(bytes, i, s, e)
    ensures var j := RunEnd(bytes, i);
            if j - i >= 2 && j - i > e - s then IsBest(bytes, i + 1, i, j) else IsBest(bytes, i + 1, s, e)
  {
    hide Group;
    var j := RunEnd(bytes, i);
    RunEndIs(bytes, i);
    forall y: nat | IsRun(bytes, i, y) ensures y <= j {
      ZerosReachEnd(bytes, i, y);
    }
  }

  lemma {:induction false} ZerosReachEnd(bytes: seq<int>, i: nat, y: nat)
    requires IsIp6(bytes) && i <= y <= 8 && forall k: nat :: i <= k < y ==> Group(bytes, k) == 0
    ensures y <= RunEnd(bytes, i)
    decreases 8 - i
  {
    hide Group;
    if i < y { ZerosReachEnd(bytes, i + 1, y); }
  }

  /** The eight groups in hexadecimal. */
  function GroupTexts(bytes: seq<int>): (texts: seq<string>)
    requires IsIp6(bytes)
    ensures |texts| == 8
  {
    seq(8, k requires 0 <= k < 8 => HexNumber(256 * bytes[2 * k] + bytes[2 * k + 1]))
  }

  lemma GroupBehind(bytes: seq<int>, run: (nat, nat), i: nat)
    requires IsIp6(bytes) && run.0 <= run.1 <= 8 && i < 8 && (run.0 < run.1 ==> run.1 <= i)
    ensures GroupsText(bytes, run, i) ==
            (if i > 0 then ":" else "") + GroupTexts(bytes)[i] + GroupsText(bytes, run, i + 1)
  {
    hide HexNumber;
    assert GroupTexts(bytes)[i] == HexNumber(Group(bytes, i));
  }

  lemma NothingBehind(bytes: seq<int>, run: (nat, nat))
    requires IsIp6(bytes) && run.0 <= run.1 <= 8
    ensures GroupsText(bytes, run, 8) == ""
  {
  }

  /** From a group behind the run on: a colon before each group. */
  lemma {:induction false} TextBehind(bytes: seq<int>, run: (nat, nat), i: nat)
    requires IsIp6(bytes) && run.0 <= run.1 <= 8 && i < 8 && (run.0 < run.1 ==> run.1 <= i)
    ensures GroupsText(bytes, run, i) == (if i > 0 then ":" else "") + Join(GroupTexts(bytes)[i..8], ":")
    decreases 8 - i
  {
    hide HexNumber, Join, GroupsText, GroupTexts;
    var texts := GroupTexts(bytes);
    GroupBehind(bytes, run, i);
    JoinFrom(texts, i, 8);
    if i == 7 {
      NothingBehind(bytes, run);
      assert texts[8..8] == [];
      JoinNothing();
    } else {
      TextBehind(bytes, run, i + 1);
    }
  }

  lemma JoinFrom(texts: seq<string>, i: nat, e: nat)
    requires i < e <= |texts|
    ensures Join(texts[i..e], ":") == texts[i] + ((if i + 1 < e then ":" else "") + Join(texts[i + 1..e], ":"))
  {
    hide Join;
    JoinCons(texts[i], texts[i + 1..e], ":");
    assert texts[i..e] == [texts[i]] + texts[i + 1..e];
    if i + 1 == e { JoinNothing(); }
  }

  lemma GroupAfterRun(bytes: seq<int>, run: (nat, nat))
    requires IsIp6(bytes) && run.0 < run.1 <= 8
    ensures GroupsText(bytes, run, run.0) ==
            "::" + if run.1 == 8 then "" else GroupTexts(bytes)[run.1] + GroupsText(bytes, run, run.1 + 1)
  {
    hide HexNumber;
    assert run.1 < 8 ==> GroupTexts(bytes)[run.1] == HexNumber(Group(bytes, run.1));
  }

  /** The run itself and what is behind it. */
  lemma TextFromRun(bytes: seq<int>, run: (nat, nat))
    requires IsIp6(bytes) && run.0 < run.1 <= 8
    ensures GroupsText(bytes, run, run.0) == "::" + Join(GroupTexts(bytes)[run.1..8], ":")
  {
    hide HexNumber, Join, GroupsText, GroupTexts;
    var texts := GroupTexts(bytes);
    GroupAfterRun(bytes, run);
    JoinNothing();
    assert texts[8..8] == [];
    if run.1 == 8 {
    } else {
      JoinFrom(texts, run.1, 8);
      if run.1 == 7 {
        NothingBehind(bytes, run);
      } else {
        TextBehind(bytes, run, run.1 + 1);
      }
    }
  }

  lemma GroupBefore(bytes: seq<int>, run: (nat, nat), i: nat)
    requires IsIp6(bytes) && i < run.0 < run.1 <= 8
    ensures GroupsText(bytes, run, i) ==
            (if i > 0 then ":" else "") + GroupTexts(bytes)[i] + GroupsText(bytes, run, i + 1)
  {
    hide HexNumber;
    assert GroupTexts(bytes)[i] == HexNumber(Group(bytes, i));
  }

  /** From a group before the run on. */
  lemma {:induction false} TextBefore(bytes: seq<int>, run: (nat, nat), i: nat)
    requires IsIp6(bytes) && i <= run.0 < run.1 <= 8
    ensures GroupsText(bytes, run, i)
         == (if 0 < i < run.0 then ":" else "") + Join(GroupTexts(bytes)[i..run.0], ":")
            + GroupsText(bytes, run, run.0)
    decreases 8 - i
  {
    hide HexNumber, Join, GroupsText, GroupTexts;
    var texts := GroupTexts(bytes);
    if i == run.0 {
      assert texts[i..run.0] == [];
      JoinNothing();
    } else {
      TextBefore(bytes, run, i + 1);
      GroupBefore(bytes, run, i);
      JoinFrom(texts, i, run.0);
    }
  }

  lemma JoinNothing()
    ensures Join([], ":") == ""
  {
  }

  lemma MappedBegins(ip: seq<int>)
    requires |ip| == 16
    ensures IsMapped(ip) <==> ip[..12] == [0, 0, 0, 0, 0, 0, 0, 0, 0, 0, 255, 255]
  {
    var head := [0, 0, 0, 0, 0, 0, 0, 0, 0, 0, 255, 255];
    if ip[..12] == head {
      assert ip[10] == ip[..12][10] == 255 && ip[11] == ip[..12][11] == 255;
      assert forall i :: 0 <= i < 10 ==> ip[i] == ip[..12][i] == head[i];
    }
  }

  /** Ten zero bytes and two of 255 stand for an IPv4 address, which is printed as that. */
  lemma TextOfMapped(ip: seq<int>)
    requires IsIp(ip) && |ip| == 16 && ip[..12] == [0, 0, 0, 0, 0, 0, 0, 0, 0, 0, 255, 255]
    ensures IsIp(ip[12..]) && IpText(ip) == IpText(ip[12..])
  {
    hide Dotted, IsMapped, GroupsText, LongestRun;
    MappedBegins(ip);
    assert |ip[12..]| == 4;
  }

  /** The text that section 4.2 of RFC 5952 asks for, of every address that stands for no IPv4 address: the groups in
      hexadecimal without leading zeros and with colons between them; the longest run of two or more zero groups, the
      first of those that are as long, shortened to two colons. */
  lemma TextOfSixteen(ip: seq<int>)
    requires |ip| == 16 && (forall i :: 0 <= i < 16 ==> 0 <= ip[i] < 256)
    requires ip[..12] != [0, 0, 0, 0, 0, 0, 0, 0, 0, 0, 255, 255]
    ensures IsIp6(ip)
    ensures var texts := GroupTexts(ip);
            && ((forall s: nat, e: nat :: !IsRun(ip, s, e)) ==> IpText(ip) == Join(texts, ":"))
            && ((exists s: nat, e: nat :: IsRun(ip, s, e)) ==> exists s: nat, e: nat :: IsLongest(ip, s, e))
            && (forall s: nat, e: nat :: IsLongest(ip, s, e) ==>
                  && s < e <= 8
                  && IpText(ip) == Join(texts[..s], ":") + "::" + Join(texts[e..], ":"))
  {
    hide Group, GroupsText, GroupTexts, IsRun, HexNumber, IsMapped, Join, LongestRun, IsBest, IsLongest;
    MappedBegins(ip);
    var run := LongestRun(ip, 0, 0, 0);
    var texts := GroupTexts(ip);
    NoneIsBest(ip);
    LongestRunIsBest(ip, 0, 0, 0);
    if run.0 == run.1 {
      TextBehind(ip, run, 0);
      assert texts[0..8] == texts;
    } else {
      TextBefore(ip, run, 0);
      TextFromRun(ip, run);
      assert texts[0..run.0] == texts[..run.0] && texts[run.1..8] == texts[run.1..];
      BestIsLongest(ip, run.0, run.1);
    }
    if s: nat, e: nat :| IsRun(ip, s, e) { RunIsFound(ip, s, e, run.0, run.1); }
    forall s: nat, e: nat | IsLongest(ip, s, e) ensures s == run.0 && e == run.1 && run.0 < run.1 {
      LongestIsBest(ip, s, e, run.0, run.1);
    }
  }

  /** A run as long as any, and the first of those that are as long. */
  ghost predicate IsLongest(bytes: seq<int>, s: nat, e: nat)
    requires IsIp6(bytes)
  {
    && IsRun(bytes, s, e)
    && forall x: nat, y: nat :: IsRun(bytes, x, y) ==> y - x <= e - s && (y - x == e - s ==> s <= x)
  }

  lemma NoneIsBest(bytes: seq<int>)
    requires IsIp6(bytes)
    ensures IsBest(bytes, 0, 0, 0)
  {
  }

  lemma BestIsLongest(bytes: seq<int>, s: nat, e: nat)
    requires IsIp6(bytes) && s < e <= 8 && IsBest(bytes, 8, s, e)
    ensures IsRun(bytes, s, e) && IsLongest(bytes, s, e)
  {
    hide Group;
  }

  lemma RunIsFound(bytes: seq<int>, s: nat, e: nat, s': nat, e': nat)
    requires IsIp6(bytes) && s' <= e' <= 8 && IsBest(bytes, 8, s', e') && IsRun(bytes, s, e)
    ensures s' < e'
  {
    hide Group;
  }

  lemma LongestIsBest(bytes: seq<int>, s: nat, e: nat, s': nat, e': nat)
    requires IsIp6(bytes) && s' <= e' <= 8 && IsBest(bytes, 8, s', e') && IsLongest(bytes, s, e)
    ensures s == s' < e' == e
  {
    hide Group;
    RunIsFound(bytes, s, e, s', e');
  }
}
