/** The parts of Go's `strings` and `strconv` packages the services rely on.
    A Go string is modelled as a sequence of characters. */
module Text {
  import opened Common

  const CRLF: string := "\r\n"

  const MIN_INT64: int := -0x8000_0000_0000_0000
  const MAX_INT64: int := 0x7FFF_FFFF_FFFF_FFFF

  // ---------------------------------------------------------------- substrings

  predicate MatchAt(s: string, p: string, i: nat)
  {
    i + |p| <= |s| && s[i..i + |p|] == p
  }

  ghost predicate Contains(s: string, p: string)
  {
    exists i: nat :: MatchAt(s, p, i)
  }

  /** No proper prefix of `p` is also a suffix of it: two occurrences never overlap. */
  ghost predicate Borderless(p: string)
  {
    |p| > 0 && forall m :: 1 <= m < |p| ==> p[|p| - m..] != p[..m]
  }

  /** The first position at or after `from` where `p` occurs. */
  function Find(s: string, p: string, from: nat): (r: Option<nat>)
    ensures r.None? ==> forall j: nat :: from <= j ==> !MatchAt(s, p, j)
    ensures r.Some? ==> from <= r.value && MatchAt(s, p, r.value)
    ensures r.Some? ==> forall j: nat :: from <= j < r.value ==> !MatchAt(s, p, j)
    decreases |s| - from
  {
    if from + |p| > |s| then None
    else if MatchAt(s, p, from) then Some(from)
    else Find(s, p, from + 1)
  }

  function Index(s: string, p: string): (r: Option<nat>)
    ensures r.None? <==> !Contains(s, p)
    ensures r.Some? ==> MatchAt(s, p, r.value)
    ensures r.Some? ==> forall j: nat :: j < r.value ==> !MatchAt(s, p, j)
  {
    Find(s, p, 0)
  }

  /** `strings.Replace(s, old, new, 1)`. */
  function ReplaceFirst(s: string, was: string, now: string): string
  {
    match Index(s, was)
    case None => s
    case Some(i) => s[..i] + now + s[i + |was|..]
  }

  predicate HasPrefix(s: string, p: string)
  {
    |p| <= |s| && s[..|p|] == p
  }

  lemma IndexIs(s: string, p: string, i: nat)
    requires MatchAt(s, p, i)
    requires forall j: nat :: j < i ==> !MatchAt(s, p, j)
    ensures Index(s, p) == Some(i)
  {
  }

  /** When `l` does not contain a borderless `p`, the first `p` in `l + p + r` is the one written. */
  lemma FirstIsTheWritten(l: string, p: string, r: string)
    requires Borderless(p) && !Contains(l, p)
    ensures Index(l + p + r, p) == Some(|l|)
  {
    var s := l + p + r;
    assert s[|l|..|l| + |p|] == p;
    forall j: nat | j < |l| ensures !MatchAt(s, p, j) {
      if j + |p| <= |l| {
        assert s[j..j + |p|] == l[j..j + |p|];
        assert !MatchAt(l, p, j);
      } else {
        var m := j + |p| - |l|;
        assert p[|p| - m..] != p[..m];
        var k :| 0 <= k < m && p[|p| - m + k] != p[k];
        assert s[|l| + k] == s[|l|..|l| + |p|][k] == p[k];
        assert j + |p| <= |s| ==> s[j..j + |p|][|p| - m + k] == p[k];
      }
    }
    IndexIs(s, p, |l|);
  }

  lemma ContainsInPart(s: string, lo: nat, hi: nat, p: string)
    requires lo <= hi <= |s| && Contains(s[lo..hi], p)
    ensures Contains(s, p)
  {
    var m := s[lo..hi];
    var i: nat :| MatchAt(m, p, i);
    var k := lo + i;
    forall j | 0 <= j < |p| ensures s[k + j] == p[j] {
      assert m[i + j] == m[i..i + |p|][j];
    }
    assert s[k..k + |p|] == p;
    assert MatchAt(s, p, k);
  }

  lemma CharInContains(s: string, c: char)
    ensures Contains(s, [c]) <==> c in s
  {
    if c in s {
      var i :| 0 <= i < |s| && s[i] == c;
      assert s[i..i + 1] == [c];
      assert MatchAt(s, [c], i);
    }
    if Contains(s, [c]) {
      var i: nat :| MatchAt(s, [c], i);
      assert s[i] == s[i..i + 1][0] == c;
    }
  }

  lemma BorderlessIsSome(p: string)
    requires Borderless(p)
    ensures |p| > 0
  {
  }

  lemma CrlfIsBorderless()
    ensures Borderless(CRLF)
  {
    assert CRLF[1..] == ['\n'] && CRLF[..1] == ['\r'];
    forall m | 1 <= m < |CRLF| ensures CRLF[|CRLF| - m..] != CRLF[..m] {
      assert m == 1;
    }
  }

  /** A single line: no line break inside. */
  ghost predicate Unbroken(s: string) { !Contains(s, CRLF) }

  /** A string with no CRLF and no leading LF keeps that when a prefix with no CRLF is put before it,
      unless the prefix ends in CR. */
  lemma NoCrlfConcat(a: string, b: string)
    requires !Contains(a, CRLF) && !Contains(b, CRLF)
    requires a == "" || a[|a| - 1] != '\r' || b == "" || b[0] != '\n'
    ensures !Contains(a + b, CRLF)
  {
    var s := a + b;
    assert CRLF[0] == '\r' && CRLF[1] == '\n';
    forall i: nat ensures !MatchAt(s, CRLF, i) {
      if i + 2 <= |a| {
        assert s[i..i + 2] == a[i..i + 2];
        assert !MatchAt(a, CRLF, i);
      } else if |a| <= i {
        assert i + 2 <= |s| ==> s[i..i + 2] == b[i - |a|..i - |a| + 2];
        assert !MatchAt(b, CRLF, i - |a|);
      } else if i + 2 <= |s| {
        assert s[i..i + 2][0] == a[|a| - 1] && s[i..i + 2][1] == b[0];
      }
    }
  }

  lemma NoCrlfWithoutCr(s: string)
    requires '\r' !in s
    ensures !Contains(s, CRLF)
  {
    assert CRLF[0] == '\r';
    forall i: nat ensures !MatchAt(s, CRLF, i) {
      assert i + 2 <= |s| ==> s[i..i + 2][0] == s[i];
    }
  }

  lemma PartUnbroken(s: string, lo: nat, hi: nat)
    requires lo <= hi <= |s| && Unbroken(s)
    ensures Unbroken(s[lo..hi])
  {
    if Contains(s[lo..hi], CRLF) {
      ContainsInPart(s, lo, hi, CRLF);
    }
  }

  lemma PartsAround(s: string, k: nat, p: string)
    requires Index(s, p) == Some(k)
    ensures k + |p| <= |s| && s == s[..k] + p + s[k + |p|..]
    ensures |p| > 0 ==> !Contains(s[..k], p)
  {
    forall i: nat ensures |p| > 0 ==> !MatchAt(s[..k], p, i) {
      if i + |p| <= k {
        assert s[..k][i..i + |p|] == s[i..i + |p|];
        assert i < k ==> !MatchAt(s, p, i);
      }
    }
  }

  // ---------------------------------------------------------------- split and join

  /** `strings.Split(s, sep)`. */
  function Split(s: string, sep: string): (parts: seq<string>)
    requires |sep| > 0
    ensures |parts| > 0
    decreases |s|
  {
    match Index(s, sep)
    case None => [s]
    case Some(i) => [s[..i]] + Split(s[i + |sep|..], sep)
  }

  /** `strings.Join(parts, sep)`. */
  function Join(parts: seq<string>, sep: string): string
  {
    if |parts| == 0 then ""
    else if |parts| == 1 then parts[0]
    else parts[0] + sep + Join(parts[1..], sep)
  }

  /** `strings.SplitN(s, sep, 2)`. */
  function SplitTwo(s: string, sep: string): (parts: seq<string>)
    requires |sep| > 0
    ensures |parts| == 1 || |parts| == 2
    ensures |parts| == 1 ==> parts[0] == s
  {
    match Index(s, sep)
    case None => [s]
    case Some(i) => [s[..i], s[i + |sep|..]]
  }

  lemma JoinCons(first: string, rest: seq<string>, sep: string)
    ensures Join([first] + rest, sep) == if rest == [] then first else first + sep + Join(rest, sep)
  {
  }

  lemma {:induction false} JoinOfSplit(s: string, sep: string)
    requires |sep| > 0
    ensures Join(Split(s, sep), sep) == s
    decreases |s|
  {
    hide MatchAt, Contains, Join;
    JoinCons(s, [], sep);
    assert [s] + [] == [s];
    match Index(s, sep)
    case None =>
    case Some(i) =>
      PartsAround(s, i, sep);
      JoinOfSplit(s[i + |sep|..], sep);
      JoinCons(s[..i], Split(s[i + |sep|..], sep), sep);
  }

  lemma {:induction false} SplitOfJoin(parts: seq<string>, sep: string)
    requires Borderless(sep) && |parts| > 0
    requires forall l :: l in parts ==> !Contains(l, sep)
    ensures Split(Join(parts, sep), sep) == parts
  {
    hide Contains, Borderless, Index;
    BorderlessIsSome(sep);
    if |parts| == 1 {
      assert parts == [parts[0]];
      assert Index(parts[0], sep) == None;
    } else {
      SplitOfJoin(parts[1..], sep);
      SplitWritten(parts[0], sep, Join(parts[1..], sep));
      assert [parts[0]] + parts[1..] == parts;
    }
  }

  lemma SplitWritten(l: string, sep: string, r: string)
    requires Borderless(sep) && !Contains(l, sep)
    ensures Split(l + sep + r, sep) == [l] + Split(r, sep)
  {
    hide Contains;
    FirstIsTheWritten(l, sep, r);
    var s := l + sep + r;
    assert s[..|l|] == l && s[|l| + |sep|..] == r;
  }

  lemma {:induction false} SplitPartsLackSeparator(s: string, sep: string)
    requires |sep| > 0
    ensures forall l :: l in Split(s, sep) ==> !Contains(l, sep)
    decreases |s|
  {
    hide Contains, MatchAt;
    match Index(s, sep)
    case None =>
    case Some(i) =>
      PartsAround(s, i, sep);
      SplitPartsLackSeparator(s[i + |sep|..], sep);
  }

  /** Every part of a split is a piece of the text, so what the text lacks the parts lack. */
  lemma {:induction false} SplitPartsInherit(s: string, sep: string, p: string)
    requires |sep| > 0 && !Contains(s, p)
    ensures forall l :: l in Split(s, sep) ==> !Contains(l, p)
    decreases |s|
  {
    match Index(s, sep)
    case None =>
    case Some(i) =>
      var rest := s[i + |sep|..];
      if Contains(rest, p) {
        assert rest == s[i + |sep|..|s|];
        ContainsInPart(s, i + |sep|, |s|, p);
      }
      SplitPartsInherit(rest, sep, p);
      if Contains(s[..i], p) {
        assert s[..i] == s[0..i];
        ContainsInPart(s, 0, i, p);
      }
  }

  lemma {:induction false} JoinAppend(a: seq<string>, b: seq<string>, sep: string)
    requires |a| > 0 && |b| > 0
    ensures Join(a + b, sep) == Join(a, sep) + sep + Join(b, sep)
  {
    if |a| == 1 {
      assert (a + b)[1..] == b;
    } else {
      JoinAppend(a[1..], b, sep);
      assert (a + b)[1..] == a[1..] + b;
    }
  }

  /** `strings.Count(s, p)`. */
  function Count(s: string, p: string): nat
    requires |p| > 0
  {
    |Split(s, p)| - 1
  }

  lemma CountZero(s: string, p: string)
    requires |p| > 0
    ensures Count(s, p) == 0 <==> !Contains(s, p)
  {
  }

  lemma CountStep(a: string, b: string, p: string)
    requires Borderless(p) && !Contains(a, p)
    ensures Count(a + p + b, p) == 1 + Count(b, p)
    ensures Count(a, p) == 0
  {
    hide Contains;
    SplitWritten(a, p, b);
  }

  lemma ShiftedMatch(a: string, b: string, p: string, i: nat)
    ensures MatchAt(a + b, p, |a| + i) <==> MatchAt(b, p, i)
    ensures i + |p| <= |a| ==> (MatchAt(a + b, p, i) <==> MatchAt(a, p, i))
  {
  }

  /** Text in front that no occurrence touches does not change the count. */
  lemma CountAfter(front: string, b: string, p: string)
    requires |p| > 0 && forall i: nat :: i < |front| ==> !MatchAt(front + b, p, i)
    ensures Count(front + b, p) == Count(b, p)
  {
    hide MatchAt;
    var s := front + b;
    forall i: nat ensures i >= |front| ==> (MatchAt(s, p, i) <==> MatchAt(b, p, i - |front|)) {
      if i >= |front| { ShiftedMatch(front, b, p, i - |front|); }
    }
    match Index(b, p)
    case None => assert !Contains(s, p);
    case Some(k) =>
      ShiftedMatch(front, b, p, k);
      IndexIs(s, p, |front| + k);
      assert s[|front| + k + |p|..] == b[k + |p|..] by { PartsAround(b, k, p); }
  }

  /** Behind a text without `p`, `x` counts as `n` occurrences. */
  ghost predicate Adds(a: string, x: string, b: string, p: string, n: nat)
    requires |p| > 0
  {
    !Contains(a, p) ==> Count(a + x + b, p) == n + Count(b, p)
  }

  lemma {:induction false} CountAround(a: string, x: string, b: string, p: string, n: nat)
    requires Borderless(p) && forall c :: Adds(c, x, b, p, n)
    ensures Count(a + x + b, p) == Count(a, p) + n + Count(b, p)
    decreases |a|
  {
    hide Count, Borderless;
    BorderlessIsSome(p);
    CountZero(a, p);
    match Index(a, p)
    case None => assert Adds(a, x, b, p, n);
    case Some(k) =>
      PartsAround(a, k, p);
      var c, d := a[..k], a[k + |p|..];
      assert a + x + b == c + p + (d + x + b);
      CountStep(c, d, p);
      CountStep(c, d + x + b, p);
      CountAround(d, x, b, p, n);
  }

  // ---------------------------------------------------------------- white space

  /** `unicode.IsSpace`. */
  predicate IsSpace(c: char)
  {
    var n := c as int;
    || 9 <= n <= 13 || n == 0x20 || n == 0x85 || n == 0xA0
    || n == 0x1680 || 0x2000 <= n <= 0x200A || n == 0x2028 || n == 0x2029
    || n == 0x202F || n == 0x205F || n == 0x3000
  }

  predicate IsToken(s: string)
  {
    s != "" && forall c :: c in s ==> !IsSpace(c)
  }

  predicate EndsInSpace(s: string)
  {
    s != "" && IsSpace(s[|s| - 1])
  }

  function TrimLeft(s: string): (r: string)
    ensures |r| <= |s| && r == s[|s| - |r|..]
    ensures r != "" ==> !IsSpace(r[0])
    ensures forall i :: 0 <= i < |s| - |r| ==> IsSpace(s[i])
  {
    if s != "" && IsSpace(s[0]) then TrimLeft(s[1..]) else s
  }

  function TrimRight(s: string): (r: string)
    ensures |r| <= |s| && r == s[..|r|]
    ensures !EndsInSpace(r)
    ensures forall i :: |r| <= i < |s| ==> IsSpace(s[i])
  {
    if EndsInSpace(s) then TrimRight(s[..|s| - 1]) else s
  }

  /** `strings.TrimSpace`. */
  function TrimSpace(s: string): string
  {
    TrimRight(TrimLeft(s))
  }

  /** The length of the longest prefix without white space. */
  function TokenLength(s: string): (n: nat)
    ensures n <= |s|
    ensures forall c :: c in s[..n] ==> !IsSpace(c)
    ensures n < |s| ==> IsSpace(s[n])
  {
    if s == "" || IsSpace(s[0]) then 0
    else
      assert s[..1 + TokenLength(s[1..])] == [s[0]] + s[1..][..TokenLength(s[1..])];
      1 + TokenLength(s[1..])
  }

  /** `strings.Fields`. */
  function Fields(s: string): (fields: seq<string>)
    ensures forall f :: f in fields ==> IsToken(f)
    decreases |s|
  {
    var t := TrimLeft(s);
    if t == "" then []
    else
      var n := TokenLength(t);
      [t[..n]] + Fields(t[n..])
  }

  lemma TrimLeftIs(s: string)
    requires s == "" || !IsSpace(s[0])
    ensures TrimLeft(s) == s
  {}

  lemma TrimRightIs(s: string)
    requires !EndsInSpace(s)
    ensures TrimRight(s) == s
  {}

  lemma {:induction false} TrimRightDropsSpace(s: string, w: string)
    requires forall c :: c in w ==> IsSpace(c)
    ensures TrimRight(s + w) == TrimRight(s)
    decreases |w|
  {
    if w == "" {
      assert s + w == s;
    } else {
      TrimRightDropsSpace(s, w[..|w| - 1]);
      assert (s + w)[..|s + w| - 1] == s + w[..|w| - 1];
      assert w[|w| - 1] in w;
    }
  }

  /** Trimming on the right reaches into the second part only when that is not all white space. */
  lemma {:induction false} TrimRightPrefix(a: string, b: string)
    requires a != "" && !IsSpace(a[|a| - 1])
    ensures TrimRight(a + b) == a + TrimRight(b)
    decreases |b|
  {
    if EndsInSpace(b) {
      assert (a + b)[..|a + b| - 1] == a + b[..|b| - 1];
      TrimRightPrefix(a, b[..|b| - 1]);
    } else {
      assert !EndsInSpace(a + b);
    }
  }

  lemma TrimSpaceEnds(s: string)
    ensures var r := TrimSpace(s); !EndsInSpace(r) && (r != "" ==> !IsSpace(r[0]))
  {
  }

  lemma TrimSpaceInherits(s: string, p: string)
    requires !Contains(s, p)
    ensures !Contains(TrimSpace(s), p)
  {
    var l := TrimLeft(s);
    var r := TrimRight(l);
    if Contains(r, p) {
      assert r == s[|s| - |l|..|s| - |l| + |r|];
      ContainsInPart(s, |s| - |l|, |s| - |l| + |r|, p);
    }
  }

  lemma {:induction false} TokenLengthOf(tok: string, rest: string)
    requires forall c :: c in tok ==> !IsSpace(c)
    requires rest == "" || IsSpace(rest[0])
    ensures TokenLength(tok + rest) == |tok|
  {
    if tok == "" {
      assert tok + rest == rest;
    } else {
      assert (tok + rest)[1..] == tok[1..] + rest;
      assert tok[0] in tok;
      TokenLengthOf(tok[1..], rest);
    }
  }

  lemma NoFields()
    ensures Fields("") == []
  {
  }

  lemma FieldsOfToken(tok: string)
    requires IsToken(tok)
    ensures Fields(tok) == [tok]
  {
    assert tok[0] in tok;
    TokenLengthOf(tok, "");
    assert tok + "" == tok;
    assert tok[|tok|..] == "" && tok[..|tok|] == tok;
    assert Fields("") == [];
  }

  lemma FieldsCons(tok: string, rest: string)
    requires IsToken(tok)
    ensures Fields(tok + " " + rest) == [tok] + Fields(rest)
  {
    var s := tok + " " + rest;
    assert s[0] == tok[0] && tok[0] in tok;
    assert s == tok + (" " + rest);
    TokenLengthOf(tok, " " + rest);
    assert s[..|tok|] == tok && s[|tok|..] == " " + rest;
    assert TrimLeft(" " + rest) == TrimLeft(rest) by {
      assert (" " + rest)[1..] == rest;
    }
    assert Fields(" " + rest) == Fields(rest);
  }

  lemma {:induction false} FieldsOfJoin(tokens: seq<string>)
    requires forall t :: t in tokens ==> IsToken(t)
    ensures Fields(Join(tokens, " ")) == tokens
  {
    hide Fields, IsToken;
    if tokens == [] {
      NoFields();
    } else if |tokens| == 1 {
      FieldsOfToken(tokens[0]);
    } else {
      var rest := Join(tokens[1..], " ");
      FieldsOfJoin(tokens[1..]);
      FieldsCons(tokens[0], rest);
      assert Join(tokens, " ") == tokens[0] + " " + rest;
      assert tokens == [tokens[0]] + tokens[1..];
    }
  }

  lemma {:induction false} TokensJoinTidy(tokens: seq<string>)
    requires |tokens| > 0 && forall t :: t in tokens ==> IsToken(t)
    ensures var s := Join(tokens, " "); !EndsInSpace(s) && s != "" && '\r' !in s
  {
    assert IsToken(tokens[0]);
    assert IsSpace('\r');
    assert tokens[0][|tokens[0]| - 1] in tokens[0];
    if |tokens| <= 1 {
    } else {
      TokensJoinTidy(tokens[1..]);
    }
  }

  // ---------------------------------------------------------------- decimal integers

  predicate IsDigit(c: char) { '0' <= c <= '9' }

  predicate AllDigits(s: string)
  {
    forall c :: c in s ==> IsDigit(c)
  }

  function Digit(d: nat): (c: char)
    requires d < 10
    ensures IsDigit(c) && c as int - '0' as int == d
  {
    ('0' as int + d) as char
  }

  function Digits(n: nat): (s: string)
    ensures s != "" && AllDigits(s)
  {
    if n < 10 then [Digit(n)] else Digits(n / 10) + [Digit(n % 10)]
  }

  function DigitsValue(s: string): (v: nat)
    requires AllDigits(s)
  {
    if s == "" then 0
    else
      assert forall c :: c in s[..|s| - 1] ==> c in s;
      assert IsDigit(s[|s| - 1]);
      10 * DigitsValue(s[..|s| - 1]) + (s[|s| - 1] as int - '0' as int)
  }

  /** `strconv.Itoa` and the `%d` verb. */
  function Itoa(n: int): (s: string)
    ensures IsToken(s)
  {
    if n < 0 then "-" + Digits(-n) else Digits(n)
  }

  /** `strconv.Atoi` on a 64-bit platform: an optional sign, decimal digits, and no overflow. */
  function Atoi(s: string): (r: Option<int>)
    ensures r.Some? ==> MIN_INT64 <= r.value <= MAX_INT64
  {
    var signed := s != "" && (s[0] == '-' || s[0] == '+');
    var digits := if signed then s[1..] else s;
    if digits == "" || !AllDigits(digits) then None
    else
      var v: int := if signed && s[0] == '-' then -1 * DigitsValue(digits) else DigitsValue(digits);
      if MIN_INT64 <= v <= MAX_INT64 then Some(v) else None
  }

  lemma {:induction false} DigitsRoundTrip(n: nat)
    ensures DigitsValue(Digits(n)) == n
  {
    var s := Digits(n);
    if n < 10 {
      assert s[..0] == "";
    } else {
      DigitsRoundTrip(n / 10);
      assert s[..|s| - 1] == Digits(n / 10);
    }
  }

  /** Printing an in-range integer and reading it back gives the integer. */
  lemma AtoiOfItoa(n: int)
    requires MIN_INT64 <= n <= MAX_INT64
    ensures Atoi(Itoa(n)) == Some(n)
  {
    hide Digits, DigitsValue;
    var s := Itoa(n);
    if n < 0 {
      DigitsRoundTrip(-n);
      assert s[1..] == Digits(-n);
    } else {
      DigitsRoundTrip(n);
      assert s[0] in s && IsDigit(s[0]);
    }
  }

  lemma ItoaLacks(n: int, c: char)
    requires c != '-' && !IsDigit(c)
    ensures c !in Itoa(n)
  {
  }

  /** The printed form is decimal notation: the ten digits, one more digit behind tenfold the number, and the sign. */
  lemma ItoaIsDecimal(n: int, d: nat)
    requires d < 10
    ensures Itoa(d) == ["0123456789"[d]]
    ensures n > 0 ==> Itoa(10 * n + d) == Itoa(n) + ["0123456789"[d]] && Itoa(-n) == "-" + Itoa(n)
  {
    assert "0123456789"[d] == Digit(d);
    if n > 0 { assert (10 * n + d) / 10 == n && (10 * n + d) % 10 == d; }
  }

  function Zeros(n: nat): string { seq(n, _ => '0') }

  lemma {:induction false} ZerosBefore(z: nat, s: string)
    requires AllDigits(s)
    ensures AllDigits(Zeros(z) + s) && DigitsValue(Zeros(z) + s) == DigitsValue(s)
    decreases |s| + z
  {
    if s != "" {
      var init := s[..|s| - 1];
      assert (Zeros(z) + s)[..z + |s| - 1] == Zeros(z) + init;
      ZerosBefore(z, init);
    } else if z > 0 {
      assert (Zeros(z) + s)[..z - 1] == Zeros(z - 1) + s;
      ZerosBefore(z - 1, s);
    } else {
      assert Zeros(0) + s == "";
    }
  }

  /** Any digits are zeros and the printed form of their value. */
  lemma {:induction false} DigitsAreNumeral(s: string) returns (z: nat)
    requires s != "" && AllDigits(s)
    ensures s == Zeros(z) + Digits(DigitsValue(s))
    decreases |s|
  {
    var init, last := s[..|s| - 1], s[|s| - 1];
    assert last in s;
    var d := last as int - '0' as int;
    assert Digit(d) == last;
    if init == "" {
      z := 0;
      assert s == [last] && Zeros(0) + s == s;
    } else {
      var before := DigitsAreNumeral(init);
      var v := DigitsValue(init);
      if v == 0 {
        z := before + 1;
        assert Zeros(before) + "0" == Zeros(z);
      } else {
        z := before;
        assert (10 * v + d) / 10 == v && (10 * v + d) % 10 == d;
      }
    }
  }

  /** `Atoi` reads exactly the decimal notations of the 64-bit integers: any number of zeros before the digits, and a
      plus or minus or no sign before them. */
  lemma AtoiExactly(s: string, n: int)
    ensures Atoi(s) == Some(n) <==>
              && -0x8000_0000_0000_0000 <= n <= 0x7FFF_FFFF_FFFF_FFFF
              && exists z: nat ::
                   || (n >= 0 && s == Zeros(z) + Itoa(n)) || (n >= 0 && s == "+" + (Zeros(z) + Itoa(n)))
                   || (n <= 0 && s == "-" + (Zeros(z) + Itoa(-n)))
  {
    hide Digits, DigitsValue;
    if Atoi(s) == Some(n) {
      var digits := if s[0] == '-' || s[0] == '+' then s[1..] else s;
      var z := DigitsAreNumeral(digits);
      assert s == digits || s == [s[0]] + digits;
    }
    forall z: nat, m: nat
      ensures AllDigits(Zeros(z) + Digits(m)) && DigitsValue(Zeros(z) + Digits(m)) == m
    {
      ZerosBefore(z, Digits(m));
      DigitsRoundTrip(m);
    }
    if z: nat :| n >= 0 && s == Zeros(z) + Itoa(n) {
      assert s[0] in s;
    } else if z: nat :| n >= 0 && s == "+" + (Zeros(z) + Itoa(n)) {
      assert s[1..] == Zeros(z) + Itoa(n);
    } else if z: nat :| n <= 0 && s == "-" + (Zeros(z) + Itoa(-n)) {
      assert s[1..] == Zeros(z) + Itoa(-n);
    }
  }

  /** The characters with the White_Space property of Unicode. */
  lemma SpacesAre(c: char)
    ensures IsSpace(c) <==>
              c in {'\t', '\n', '\U{000B}', '\U{000C}', '\r', ' ', '\U{0085}', '\U{00A0}', '\U{1680}',
                    '\U{2000}', '\U{2001}', '\U{2002}', '\U{2003}', '\U{2004}', '\U{2005}', '\U{2006}',
                    '\U{2007}', '\U{2008}', '\U{2009}', '\U{200A}', '\U{2028}', '\U{2029}', '\U{202F}',
                    '\U{205F}', '\U{3000}'}
  {
  }

  /** Only the first occurrence is replaced, and nothing where there is none. */
  lemma ReplaceFirstIs(a: string, was: string, b: string, now: string)
    requires forall j: nat :: j < |a| ==> !MatchAt(a + was + b, was, j)
    ensures ReplaceFirst(a + was + b, was, now) == a + now + b
  {
    var s := a + was + b;
    assert s[|a|..|a| + |was|] == was && s[..|a|] == a && s[|a| + |was|..] == b;
    IndexIs(s, was, |a|);
  }
}
