/** The client of the ng control protocol: framing, and the matching of responses to requests by cookie. */
module NgClient {
  import opened Common
  import opened Text
  import opened Uuids

  // ---------------------------------------------------------------- framing

  /** The parts before the first `n - 1` separators, and the rest. */
  function SplitParts(data: string, sep: char, n: int): (parts: seq<string>)
    ensures |parts| > 0
    decreases n
  {
    match Index(data, [sep])
    case None => [data]
    case Some(i) => if n <= 1 then [data] else [data[..i]] + SplitParts(data[i + 1..], sep, n - 1)
  }

  method SplitN(data: string, sep: char, n: int) returns (parts: seq<string>)
    ensures parts == SplitParts(data, sep, n)
  {
    hide SplitParts;
    parts := [];
    var start := 0;
    var i := 0;
    ghost var all := SplitParts(data, sep, n);
    assert data[0..] == data;
    while i < |data| && |parts| < n - 1
      invariant 0 <= start <= i <= |data|
      invariant forall k :: start <= k < i ==> data[k] != sep
      invariant all == parts + SplitParts(data[start..], sep, n - |parts|)
      invariant n > 1 ==> |parts| <= n - 1
    {
      if data[i] == sep {
        SplitAtNext(data, sep, n - |parts|, start, i);
        parts := parts + [data[start..i]];
        start := i + 1;
      }
      i := i + 1;
    }
    SplitNoMore(data[start..], sep, n - |parts|);
    parts := parts + [data[start..]];
  }

  lemma SplitNoMore(rest: string, sep: char, n: int)
    requires n <= 1 || sep !in rest
    ensures SplitParts(rest, sep, n) == [rest]
  {
    CharInContains(rest, sep);
  }

  lemma SplitAtNext(data: string, sep: char, n: int, start: nat, i: nat)
    requires start <= i < |data| && data[i] == sep && n > 1
    requires forall k :: start <= k < i ==> data[k] != sep
    ensures SplitParts(data[start..], sep, n) == [data[start..i]] + SplitParts(data[i + 1..], sep, n - 1)
  {
    var rest := data[start..];
    assert rest[i - start] == sep && rest[..i - start] == data[start..i] && rest[i - start + 1..] == data[i + 1..];
    FirstAt(rest, sep, i - start);
  }

  lemma FirstAt(data: string, sep: char, i: nat)
    requires i < |data| && data[i] == sep && sep !in data[..i]
    ensures Index(data, [sep]) == Some(i)
  {
    assert data[i..i + 1] == [sep];
    forall j: nat | j < i ensures !MatchAt(data, [sep], j) {
      assert data[j..j + 1][0] == data[..i][j];
    }
    IndexIs(data, [sep], i);
  }

  /** Joining the parts restores the data. */
  lemma {:induction false} SplitPartsRestore(data: string, sep: char, n: int)
    ensures Join(SplitParts(data, sep, n), [sep]) == data
    decreases n
  {
    hide Index, Join;
    JoinCons(data, [], [sep]);
    assert [data] + [] == [data];
    match Index(data, [sep])
    case None =>
    case Some(i) =>
      if n > 1 {
        SplitPartsRestore(data[i + 1..], sep, n - 1);
        JoinCons(data[..i], SplitParts(data[i + 1..], sep, n - 1), [sep]);
        PartsAround(data, i, [sep]);
      }
  }

  lemma SplitStep(data: string, sep: char, n: int, i: nat)
    requires Index(data, [sep]) == Some(i) && n > 1
    ensures i < |data| && SplitParts(data, sep, n) == [data[..i]] + SplitParts(data[i + 1..], sep, n - 1)
    ensures sep !in data[..i]
  {
    PartsAround(data, i, [sep]);
    CharInContains(data[..i], sep);
  }

  /** Only the last part can hold the separator, and only when the limit on the number of parts was reached. */
  lemma {:induction false} SplitPartsLack(data: string, sep: char, n: int)
    ensures var parts := SplitParts(data, sep, n);
            && |parts| <= (if n < 1 then 1 else n)
            && (forall i :: 0 <= i < |parts| - 1 ==> sep !in parts[i])
            && (sep in parts[|parts| - 1] ==> |parts| == if n < 1 then 1 else n)
    decreases n
  {
    hide Index, Contains, SplitParts;
    CharInContains(data, sep);
    if n <= 1 || Index(data, [sep]).None? {
      SplitNoMore(data, sep, n);
    } else {
      var i := Index(data, [sep]).value;
      SplitStep(data, sep, n, i);
      var rest := SplitParts(data[i + 1..], sep, n - 1);
      var parts := [data[..i]] + rest;
      SplitPartsLack(data[i + 1..], sep, n - 1);
      assert parts[|parts| - 1] == rest[|rest| - 1];
      forall j | 0 <= j < |parts| - 1 ensures sep !in parts[j] {
        if j > 0 { assert parts[j] == rest[j - 1]; }
      }
    }
  }

  function FormatMessage(cookie: string, json: string): string { cookie + " " + json }

  /** The reader takes a message apart into its cookie and its body exactly when the cookie has no space. */
  lemma FramingRoundTrip(cookie: string, json: string)
    ensures SplitParts(FormatMessage(cookie, json), ' ', 2) == [cookie, json] <==> ' ' !in cookie
  {
    var m := FormatMessage(cookie, json);
    assert m[|cookie|] == ' ' && m[..|cookie|] == cookie && m[|cookie| + 1..] == json;
    if ' ' !in cookie {
      FirstAt(m, ' ', |cookie|);
      assert SplitParts(json, ' ', 1) == [json];
    } else {
      SplitPartsLack(m, ' ', 2);
      var parts := SplitParts(m, ' ', 2);
      assert |parts| == 2 ==> ' ' !in parts[0];
    }
  }

  /** `generateCookie` on the random bytes it draws: the `%x` verb. */
  function Cookie(bytes: seq<int>): string
    requires IsCookieSeed(bytes)
  {
    Hex(bytes)
  }

  predicate IsCookieSeed(bytes: seq<int>)
  {
    |bytes| == 8 && forall i :: 0 <= i < |bytes| ==> 0 <= bytes[i] < 256
  }

  /** The framing of every generated cookie is undone, whatever the body; and different bytes give different cookies
      of sixteen characters. */
  lemma CookiesAreFramed(bytes: seq<int>, other: seq<int>, json: string)
    requires IsCookieSeed(bytes) && IsCookieSeed(other)
    ensures SplitParts(FormatMessage(Cookie(bytes), json), ' ', 2) == [Cookie(bytes), json]
    ensures Cookie(bytes) == Cookie(other) ==> bytes == other
    ensures |Cookie(bytes)| == 16
  {
    hide Hex, SplitParts;
    assert !IsHex(' ');
    FramingRoundTrip(Cookie(bytes), json);
    if Cookie(bytes) == Cookie(other) { HexInjective(bytes, other); }
  }

  // ---------------------------------------------------------------- the client's tables

  datatype Response = Response(result: string, data: string, error: string)

  /** The JSON decoder, which fails on a malformed body. */
  type Decoder = string -> Option<Response>

  /** What a datagram says: a cookie and a response. */
  function Decoded(datagram: string, decode: Decoder): Option<(string, Response)>
  {
    var parts := SplitParts(datagram, ' ', 2);
    if |parts| != 2 then None
    else
      match decode(parts[1])
      case None => None
      case Some(resp) => Some((parts[0], resp))
  }

  /** A send on a channel of capacity one that never blocks: a full channel keeps what it has. */
  function Offered(channel: Option<Response>, resp: Response): Option<Response>
  {
    if channel.None? then Some(resp) else channel
  }

  /** Channels by number, and the number each waiting cookie stands for. */
  datatype Tables = Tables(store: map<string, nat>, channels: seq<Option<Response>>)

  function Routed(t: Tables, datagram: string, decode: Decoder): Tables
  {
    match Decoded(datagram, decode)
    case None => t
    case Some((cookie, resp)) =>
      if cookie in t.store && t.store[cookie] < |t.channels|
      then t.(channels := t.channels[t.store[cookie] := Offered(t.channels[t.store[cookie]], resp)])
      else t
  }

  /** A genuine reply is a cookie, a space and a body: its response is offered to the channel that waits under that
      cookie, which keeps an earlier response it may hold, and nothing else changes. */
  lemma ReplyIsRouted(t: Tables, cookie: string, json: string, decode: Decoder, resp: Response)
    requires ' ' !in cookie && decode(json) == Some(resp)
    ensures var n := Routed(t, cookie + " " + json, decode);
            && n.store == t.store && |n.channels| == |t.channels|
            && (cookie !in t.store ==> n == t)
            && (cookie in t.store && t.store[cookie] < |t.channels| ==>
                  var i := t.store[cookie];
                  && (t.channels[i] == None ==> n.channels[i] == Some(resp))
                  && (t.channels[i] != None ==> n.channels[i] == t.channels[i])
                  && forall j :: 0 <= j < |t.channels| && j != i ==> n.channels[j] == t.channels[j])
  {
    hide SplitParts;
    FramingRoundTrip(cookie, json);
  }

  /** A reply is read exactly when it has a space and what is behind the first one decodes; then the cookie is what
      stands before. */
  lemma ReplyIsRead(datagram: string, decode: Decoder)
    ensures Decoded(datagram, decode).Some? <==>
              exists i :: 0 <= i < |datagram| && datagram[i] == ' ' && ' ' !in datagram[..i]
                          && decode(datagram[i + 1..]).Some?
    ensures forall i :: 0 <= i < |datagram| && datagram[i] == ' ' && ' ' !in datagram[..i]
                        && decode(datagram[i + 1..]).Some? ==>
              Decoded(datagram, decode) == Some((datagram[..i], decode(datagram[i + 1..]).value))
  {
    hide SplitParts, Index, Contains;
    CharInContains(datagram, ' ');
    if ' ' in datagram {
      var k := FirstSpace(datagram);
      FirstAt(datagram, ' ', k);
      SplitStep(datagram, ' ', 2, k);
      SplitNoMore(datagram[k + 1..], ' ', 1);
      assert SplitParts(datagram, ' ', 2) == [datagram[..k], datagram[k + 1..]];
      assert forall i :: k < i <= |datagram| ==> datagram[..i][k] == ' ';
    } else {
      SplitNoMore(datagram, ' ', 2);
    }
  }

  lemma {:induction false} FirstSpace(s: string) returns (i: nat)
    requires ' ' in s
    ensures i < |s| && s[i] == ' ' && ' ' !in s[..i] && forall j :: 0 <= j < i ==> s[j] != ' '
  {
    if s[0] == ' ' {
      i := 0;
    } else {
      var k := FirstSpace(s[1..]);
      i := k + 1;
      assert s[..i] == [s[0]] + s[1..][..k];
    }
  }

  /** A datagram that is not read changes nothing. */
  lemma UnreadIsDropped(t: Tables, datagram: string, decode: Decoder)
    requires forall i :: 0 <= i < |datagram| && datagram[i] == ' ' ==> decode(datagram[i + 1..]) == None
    ensures Decoded(datagram, decode) == None && Routed(t, datagram, decode) == t
  {
    hide Decoded;
    ReplyIsRead(datagram, decode);
  }

  class Client {
    var cookieStore: map<string, nat>
    var channels: seq<Option<Response>>
    var closed: bool

    function View(): Tables
      reads this
    {
      Tables(cookieStore, channels)
    }

    predicate Valid()
      reads this
    {
      forall c :: c in cookieStore ==> cookieStore[c] < |channels|
    }

    constructor ()
      ensures Valid() && View() == Tables(map[], []) && !closed
    {
      cookieStore, channels, closed := map[], [], false;
    }

    /** The start of `Send`: a new channel under the cookie, unless the client is closed. */
    method Register(cookie: string) returns (channel: Option<nat>)
      requires Valid()
      modifies this`cookieStore, this`channels
      ensures Valid() && channel == (if closed then None else Some(|old(channels)|))
      ensures View() == if closed then old(View())
                        else Tables(old(cookieStore)[cookie := |old(channels)|], old(channels) + [None])
    {
      if closed {
        return None;
      }
      channel := Some(|channels|);
      channels := channels + [None];
      cookieStore := cookieStore[cookie := channel.value];
    }

    /** What `Close` does under the lock. */
    method MarkClosed()
      modifies this`closed
      ensures closed
    {
      closed := true;
    }

    /** The end of `Send`, whatever it returns. */
    method Unregister(cookie: string)
      requires Valid()
      modifies this`cookieStore
      ensures Valid() && View() == Tables(old(cookieStore) - {cookie}, old(channels))
    {
      cookieStore := cookieStore - {cookie};
    }

    /** `ok` is false for a datagram that does not parse. */
    method HandleResponse(datagram: string, decode: Decoder) returns (ok: bool)
      requires Valid()
      modifies this`channels
      ensures Valid() && View() == Routed(old(View()), datagram, decode)
      ensures ok <==> Decoded(datagram, decode).Some?
    {
      var parts := SplitN(datagram, ' ', 2);
      if |parts| != 2 {
        return false;
      }
      var cookie := parts[0];
      var resp := decode(parts[1]);
      if resp.None? {
        return false;
      }
      if cookie in cookieStore {
        var i := cookieStore[cookie];
        if channels[i].None? {
          channels := channels[i := Some(resp.value)];
        }
        assert channels == old(channels)[i := Offered(old(channels)[i], resp.value)];
      }
      return true;
    }
  }
}
