/** The indexes agree with a linear scan over the bounded log. */
module LogAggregatorLaws {
  import opened Common
  import opened Text
  import opened Uuids
  import opened LogAggregator

  // ---------------------------------------------------------------- keys tell their kinds and values apart

  lemma PrefixedKeys(a: string, b: string)
    ensures LevelKey(a) == LevelKey(b) <==> a == b
    ensures SourceKey(a) == SourceKey(b) <==> a == b
    ensures LevelKey(a) != SourceKey(b)
    ensures forall t :: TagKey(t) != LevelKey(a) && TagKey(t) != SourceKey(b)
  {
    assert LevelKey(a)[6..] == a && LevelKey(b)[6..] == b;
    assert SourceKey(a)[7..] == a && SourceKey(b)[7..] == b;
    assert LevelKey(a)[0] == 'l' && SourceKey(b)[0] == 's';
    assert forall t :: TagKey(t)[0] == 't';
  }

  /** A tenant key is never a level, source or tag key. */
  lemma TenantKeysApart(u: Uuid, s: string)
    ensures TenantKey(u) != LevelKey(s) && TenantKey(u) != SourceKey(s) && TenantKey(u) != TagKey(s)
  {
  }

  // ---------------------------------------------------------------- what an index list should hold

  function Occurrences(keys: seq<string>, k: string): nat
  {
    if keys == [] then 0 else (if keys[0] == k then 1 else 0) + Occurrences(keys[1..], k)
  }

  function Repeat(e: Entry, n: nat): seq<Entry>
  {
    if n == 0 then [] else [e] + Repeat(e, n - 1)
  }

  /** The entries under a key in the order of the log, each as often as it has the key. */
  function Indexed(entries: seq<Entry>, k: string): seq<Entry>
  {
    if entries == [] then []
    else
      var last := entries[|entries| - 1];
      Indexed(entries[..|entries| - 1], k) + Repeat(last, Occurrences(KeysOf(last), k))
  }

  /** Every index list is what a scan of the log gives. */
  ghost predicate Agrees(log: Log)
  {
    forall k :: ListAt(log.index, k) == Indexed(log.entries, k)
  }

  lemma {:induction false} AddedList(index: Indexes, e: Entry, keys: seq<string>, k: string)
    ensures ListAt(AddKeys(index, e, keys), k) == ListAt(index, k) + Repeat(e, Occurrences(keys, k))
    decreases |keys|
  {
    hide Repeat;
    if keys == [] {
      assert Repeat(e, 0) == [] by { RepeatUnfolds(e, 0); }
    } else {
      var next := index[keys[0] := ListAt(index, keys[0]) + [e]];
      AddedList(next, e, keys[1..], k);
      var n := Occurrences(keys[1..], k);
      if keys[0] == k {
        RepeatUnfolds(e, n + 1);
        assert ListAt(index, k) + [e] + Repeat(e, n) == ListAt(index, k) + ([e] + Repeat(e, n));
      } else {
        assert ListAt(next, k) == ListAt(index, k) && Occurrences(keys, k) == n;
      }
    }
  }

  lemma RepeatUnfolds(e: Entry, n: nat)
    ensures Repeat(e, n) == if n == 0 then [] else [e] + Repeat(e, n - 1)
  {
  }

  lemma RemoveHead(e: Entry, rest: seq<Entry>)
    ensures RemoveFirst([e] + rest, e) == rest
  {
  }

  /** Removing the oldest entry finds it at the head of each of its lists, whatever the identifiers are. */
  lemma {:induction false} RemovedList(index: Indexes, e: Entry, keys: seq<string>, k: string, n: nat, rest: seq<Entry>)
    requires n >= Occurrences(keys, k) && ListAt(index, k) == Repeat(e, n) + rest
    ensures ListAt(RemoveKeys(index, e, keys), k) == Repeat(e, n - Occurrences(keys, k)) + rest
    decreases |keys|
  {
    if keys == [] {
    } else {
      var h := keys[0];
      var next := if h in index then index[h := RemoveFirst(index[h], e)] else index;
      if h == k {
        assert ListAt(index, k) == [e] + (Repeat(e, n - 1) + rest);
        RemoveHead(e, Repeat(e, n - 1) + rest);
        RemovedList(next, e, keys[1..], k, n - 1, rest);
      } else {
        RemovedList(next, e, keys[1..], k, n, rest);
      }
    }
  }

  lemma {:induction false} IndexedHead(e: Entry, rest: seq<Entry>, k: string)
    ensures Indexed([e] + rest, k) == Repeat(e, Occurrences(KeysOf(e), k)) + Indexed(rest, k)
    decreases |rest|
  {
    hide KeysOf;
    var all := [e] + rest;
    if rest == [] {
      assert all == [e] && all[..0] == [];
    } else {
      IndexedHead(e, rest[..|rest| - 1], k);
      assert all[..|all| - 1] == [e] + rest[..|rest| - 1];
    }
  }

  lemma IndexedSnoc(entries: seq<Entry>, e: Entry, k: string)
    ensures Indexed(entries + [e], k) == Indexed(entries, k) + Repeat(e, Occurrences(KeysOf(e), k))
  {
  }

  lemma AddingAgrees(log: Log, e: Entry, bufferSize: nat)
    requires Agrees(log) && bufferSize >= 1
    ensures Agrees(Added(log, e, bufferSize))
  {
    hide KeysOf, AddKeys, RemoveKeys, Indexed, Repeat, Occurrences, ListAt;
    var entries := log.entries + [e];
    forall k ensures ListAt(Added(log, e, bufferSize).index, k) == Indexed(Added(log, e, bufferSize).entries, k) {
      if |entries| > bufferSize {
        var oldest, rest := log.entries[0], log.entries[1..];
        assert log.entries == [oldest] + rest && entries[1..] == rest + [e] && entries[0] == oldest;
        IndexedHead(oldest, rest, k);
        RemovedList(log.index, oldest, KeysOf(oldest), k, Occurrences(KeysOf(oldest), k), Indexed(rest, k));
        RepeatUnfolds(oldest, 0);
        assert [] + Indexed(rest, k) == Indexed(rest, k);
        AddedList(RemoveKeys(log.index, oldest, KeysOf(oldest)), e, KeysOf(e), k);
        IndexedSnoc(rest, e, k);
      } else {
        AddedList(log.index, e, KeysOf(e), k);
        IndexedSnoc(log.entries, e, k);
      }
    }
  }

  // ---------------------------------------------------------------- what a query should answer

  /** All conditions of the filter, the tenant included. */
  predicate Wanted(e: Entry, f: LogFilter)
  {
    (f.tenantId.Some? ==> e.tenantId == f.tenantId.value) && Matches(e, f)
  }

  function Wants(f: LogFilter): Entry -> bool { e => Wanted(e, f) }

  function OfTenant(u: Uuid): Entry -> bool { (e: Entry) => e.tenantId == u }
  function OfLevel(level: string): Entry -> bool { (e: Entry) => e.level == level }
  function OfSource(source: string): Entry -> bool { (e: Entry) => e.source == source }

  lemma {:induction false} TagKeysHold(tags: seq<string>, k: string)
    requires forall t :: TagKey(t) != k
    ensures Occurrences(Map(TagKey, tags), k) == 0
    decreases |tags|
  {
    if tags == [] {
    } else {
      MapCons(TagKey, tags);
      TagKeysHold(tags[1..], k);
      assert ([TagKey(tags[0])] + Map(TagKey, tags[1..]))[1..] == Map(TagKey, tags[1..]);
    }
  }

  lemma KeyCount(e: Entry, k: string)
    requires forall t :: TagKey(t) != k
    ensures Occurrences(KeysOf(e), k) == (if TenantKey(e.tenantId) == k then 1 else 0)
              + (if LevelKey(e.level) == k then 1 else 0) + (if SourceKey(e.source) == k then 1 else 0)
  {
    hide UuidText, LevelKey, SourceKey, TagKey;
    var keys, tags := KeysOf(e), Map(TagKey, e.tags);
    TagKeysHold(e.tags, k);
    var two, one := [LevelKey(e.level), SourceKey(e.source)] + tags, [SourceKey(e.source)] + tags;
    assert keys[1..] == two && two[1..] == one && one[1..] == tags;
    assert Occurrences(one, k) == (if SourceKey(e.source) == k then 1 else 0);
    assert Occurrences(two, k) == (if LevelKey(e.level) == k then 1 else 0) + Occurrences(one, k);
  }

  lemma TenantCount(e: Entry, u: Uuid)
    ensures Occurrences(KeysOf(e), TenantKey(u)) == if e.tenantId == u then 1 else 0
  {
    hide Occurrences, KeysOf, UuidText, LevelKey, SourceKey, TagKey;
    forall t ensures TagKey(t) != TenantKey(u) { TenantKeysApart(u, t); }
    KeyCount(e, TenantKey(u));
    TenantKeysApart(u, e.level);
    TenantKeysApart(u, e.source);
    if UuidText(e.tenantId) == UuidText(u) { UuidTextInjective(e.tenantId, u); }
  }

  lemma LevelCount(e: Entry, level: string)
    ensures Occurrences(KeysOf(e), LevelKey(level)) == if e.level == level then 1 else 0
  {
    hide Occurrences, KeysOf, UuidText, LevelKey, SourceKey, TagKey;
    PrefixedKeys(level, e.source);
    PrefixedKeys(e.level, level);
    KeyCount(e, LevelKey(level));
    TenantKeysApart(e.tenantId, level);
  }

  lemma SourceCount(e: Entry, source: string)
    ensures Occurrences(KeysOf(e), SourceKey(source)) == if e.source == source then 1 else 0
  {
    hide Occurrences, KeysOf, UuidText, LevelKey, SourceKey, TagKey;
    PrefixedKeys(e.level, source);
    PrefixedKeys(e.source, source);
    KeyCount(e, SourceKey(source));
    TenantKeysApart(e.tenantId, source);
  }

  lemma {:induction false} IndexedIsFilter(entries: seq<Entry>, k: string, has: Entry -> bool)
    requires forall e :: e in entries ==> Occurrences(KeysOf(e), k) == if has(e) then 1 else 0
    ensures Indexed(entries, k) == Filter(has, entries)
    decreases |entries|
  {
    hide KeysOf, Occurrences;
    if entries == [] {
    } else {
      var init, last := entries[..|entries| - 1], entries[|entries| - 1];
      IndexedIsFilter(init, k, has);
      assert Repeat(last, 1) == [last] by { assert Repeat(last, 0) == []; }
    }
  }

  /** On a log whose indexes agree with it, a query answers what a scan of the log with all conditions does. */
  lemma AnswerIsScan(log: Log, f: LogFilter)
    requires Agrees(log)
    ensures Answer(log, f) == Filter(Wants(f), log.entries)
  {
    hide KeysOf, Occurrences, Filter, Indexed;
    var es := log.entries;
    if f.tenantId.Some? {
      var u := f.tenantId.value;
      forall e ensures Occurrences(KeysOf(e), TenantKey(u)) == if OfTenant(u)(e) then 1 else 0 { TenantCount(e, u); }
      IndexedIsFilter(es, TenantKey(u), OfTenant(u));
      FilterFilter(Matching(f), OfTenant(u), Wants(f), es);
    } else if f.level != "" {
      forall e
        ensures Occurrences(KeysOf(e), LevelKey(f.level)) == if OfLevel(f.level)(e) then 1 else 0
      {
        LevelCount(e, f.level);
      }
      IndexedIsFilter(es, LevelKey(f.level), OfLevel(f.level));
      FilterFilter(Matching(f), OfLevel(f.level), Wants(f), es);
    } else if f.source != "" {
      forall e
        ensures Occurrences(KeysOf(e), SourceKey(f.source)) == if OfSource(f.source)(e) then 1 else 0
      {
        SourceCount(e, f.source);
      }
      IndexedIsFilter(es, SourceKey(f.source), OfSource(f.source));
      FilterFilter(Matching(f), OfSource(f.source), Wants(f), es);
    } else {
      FilterSame(Matching(f), Wants(f), es);
    }
  }

  lemma {:induction false} FilterSame(p: Entry -> bool, q: Entry -> bool, xs: seq<Entry>)
    requires forall x :: x in xs ==> p(x) == q(x)
    ensures Filter(p, xs) == Filter(q, xs)
    decreases |xs|
  {
    if xs == [] {
    } else {
      FilterSame(p, q, xs[..|xs| - 1]);
    }
  }

  // ---------------------------------------------------------------- every run

  datatype Op = Record(entry: Entry) | Wipe

  function Run(ops: seq<Op>, bufferSize: nat): Log
  {
    if ops == [] then Log([], map[])
    else
      match ops[|ops| - 1]
      case Record(e) => Added(Run(ops[..|ops| - 1], bufferSize), e, bufferSize)
      case Wipe => Log([], map[])
  }

  /** The entries recorded since the log was last cleared. */
  function Recorded(ops: seq<Op>): seq<Entry>
  {
    if ops == [] then []
    else
      match ops[|ops| - 1]
      case Record(e) => Recorded(ops[..|ops| - 1]) + [e]
      case Wipe => []
  }

  function Latest(entries: seq<Entry>, n: nat): seq<Entry>
  {
    if |entries| <= n then entries else entries[|entries| - n..]
  }

  lemma LatestSnoc(entries: seq<Entry>, e: Entry, n: nat)
    requires n >= 1
    ensures var l := Latest(entries, n) + [e];
            Latest(entries + [e], n) == if |l| > n then l[1..] else l
  {
  }

  lemma {:induction false} RunAgrees(ops: seq<Op>, bufferSize: nat)
    requires bufferSize >= 1
    ensures Agrees(Run(ops, bufferSize)) && Run(ops, bufferSize).entries == Latest(Recorded(ops), bufferSize)
    decreases |ops|
  {
    hide Agrees;
    if ops == [] || ops[|ops| - 1].Wipe? {
      EmptyAgrees();
    } else {
      var init := ops[..|ops| - 1];
      RunAgrees(init, bufferSize);
      AddingAgrees(Run(init, bufferSize), ops[|ops| - 1].entry, bufferSize);
      LatestSnoc(Recorded(init), ops[|ops| - 1].entry, bufferSize);
    }
  }

  lemma EmptyAgrees()
    ensures Agrees(Log([], map[]))
  {
  }

  /** With no room at all the indexes still keep an entry the log has already let go. */
  lemma NoRoomDisagrees(e: Entry)
    ensures var f := LogFilter(Some(e.tenantId), "", "", [], None, None, "");
            Answer(Run([Record(e)], 0), f) != []
  {
    hide KeysOf;
    var f := LogFilter(Some(e.tenantId), "", "", [], None, None, "");
    var ops := [Record(e)];
    assert ops[..0] == [];
    var empty: Log := Log([], map[]);
    var k := TenantKey(e.tenantId);
    EmptyRemoval(e, KeysOf(e));
    assert [e][0] == e && [] + [e] == [e];
    assert Run(ops, 0) == Log([e][1..], AddKeys(map[], e, KeysOf(e)));
    AddedList(map[], e, KeysOf(e), k);
    TenantCount(e, e.tenantId);
    assert Repeat(e, 1) == [e] by { assert Repeat(e, 0) == []; }
    assert ListAt(Run(ops, 0).index, k) == [e];
    assert Matching(f)(e) && [e][..0] == [];
    assert Filter(Matching(f), [e]) == Filter(Matching(f), []) + [e];
  }

  lemma {:induction false} EmptyRemoval(e: Entry, keys: seq<string>)
    ensures RemoveKeys(map[], e, keys) == map[]
    decreases |keys|
  {
    if keys == [] {
    } else {
      EmptyRemoval(e, keys[1..]);
    }
  }

  /** After any run of entries and clears, a query answers exactly the entries that satisfy all conditions
      among the last `bufferSize` recorded since the last clear, in order; and that is so exactly when the
      buffer has room for an entry. */
  lemma QueriesAreScans(bufferSize: nat)
    ensures (forall ops, f :: Answer(Run(ops, bufferSize), f) == Filter(Wants(f), Latest(Recorded(ops), bufferSize)))
       <==> bufferSize >= 1
  {
    hide Answer, Agrees, Added;
    if bufferSize >= 1 {
      forall ops, f ensures Answer(Run(ops, bufferSize), f) == Filter(Wants(f), Latest(Recorded(ops), bufferSize)) {
        RunAgrees(ops, bufferSize);
        AnswerIsScan(Run(ops, bufferSize), f);
      }
    } else {
      var id: Uuid := seq(16, _ => 0);
      var e := Entry(id, id, "", "", 0, "", []);
      var f := LogFilter(Some(e.tenantId), "", "", [], None, None, "");
      NoRoomDisagrees(e);
      var ops := [Record(e)];
      assert Latest(Recorded(ops), 0) == [];
      assert Filter(Wants(f), []) == [];
      assert Answer(Run(ops, bufferSize), f) != Filter(Wants(f), Latest(Recorded(ops), bufferSize));
    }
  }

  /** What a filter asks, condition by condition: an entry is in the answer exactly when it is one of the entries still
      kept, of the tenant, level and source asked for, stamped within the times, with the text somewhere in its
      message and every tag among its tags. */
  lemma QueryMembers(ops: seq<Op>, bufferSize: nat, f: LogFilter, e: Entry)
    requires bufferSize >= 1
    ensures e in Answer(Run(ops, bufferSize), f) <==>
              && e in Latest(Recorded(ops), bufferSize)
              && (f.tenantId == None || f.tenantId == Some(e.tenantId))
              && (f.level == "" || f.level == e.level)
              && (f.source == "" || f.source == e.source)
              && (f.startTime == None || f.startTime.value <= e.timestamp)
              && (f.endTime == None || e.timestamp <= f.endTime.value)
              && (exists i :: 0 <= i <= |e.message| - |f.message| && e.message[i..][..|f.message|] == f.message)
              && (forall tag :: tag in f.tags ==> tag in e.tags)
  {
    hide Answer, Run, Latest, Recorded;
    RunAgrees(ops, bufferSize);
    AnswerIsScan(Run(ops, bufferSize), f);
    FilterMembers(Wants(f), Latest(Recorded(ops), bufferSize));
    OccurrenceIs(e.message, f.message);
  }

  lemma OccurrenceIs(s: string, p: string)
    ensures (exists i :: 0 <= i <= |s| - |p| && s[i..][..|p|] == p) <==> p == "" || Index(s, p).Some?
  {
    forall i: nat | i + |p| <= |s| ensures s[i..][..|p|] == s[i..i + |p|] {
    }
    if p == "" {
      assert s[0..][..|p|] == p;
    } else if Contains(s, p) {
      var i: nat :| MatchAt(s, p, i);
      assert s[i..][..|p|] == p;
    } else if exists i :: 0 <= i <= |s| - |p| && s[i..][..|p|] == p {
      var i: nat :| i <= |s| - |p| && s[i..][..|p|] == p;
      assert MatchAt(s, p, i);
    }
  }

  /** And they come in the order of the log, each as often as it is there. */
  lemma QueryOrder(ops: seq<Op>, bufferSize: nat, f: LogFilter) returns (places: seq<nat>)
    requires bufferSize >= 1
    ensures var latest, answer := Latest(Recorded(ops), bufferSize), Answer(Run(ops, bufferSize), f);
            Picks(answer, latest, places) && forall i: nat :: i < |latest| ==> (i in places <==> latest[i] in answer)
  {
    hide Answer, Run, Latest, Recorded, Wanted;
    var latest := Latest(Recorded(ops), bufferSize);
    RunAgrees(ops, bufferSize);
    AnswerIsScan(Run(ops, bufferSize), f);
    places := FilterPlaces(Wants(f), latest);
    FilterMembers(Wants(f), latest);
  }

  /** The indexes hold what their keys say, in every run: those of tags too, which no query reads. */
  lemma IndexMembers(ops: seq<Op>, bufferSize: nat, e: Entry, key: string)
    requires bufferSize >= 1
    ensures e in ListAt(Run(ops, bufferSize).index, key) <==>
              && e in Latest(Recorded(ops), bufferSize)
              && (key == UuidText(e.tenantId) || key == "level:" + e.level || key == "source:" + e.source
                  || exists tag :: tag in e.tags && key == "tag:" + tag)
  {
    hide Run, Latest, Recorded, KeysOf;
    RunAgrees(ops, bufferSize);
    IndexedMembers(Latest(Recorded(ops), bufferSize), e, key);
    KeysAre(e, key);
  }

  lemma {:induction false} IndexedMembers(entries: seq<Entry>, e: Entry, k: string)
    ensures e in Indexed(entries, k) <==> e in entries && k in KeysOf(e)
    decreases |entries|
  {
    hide KeysOf;
    if entries == [] {
    } else {
      var init, last := entries[..|entries| - 1], entries[|entries| - 1];
      IndexedMembers(init, e, k);
      assert e in entries <==> e in init || e == last;
      RepeatMembers(last, Occurrences(KeysOf(last), k), e);
      OccurrencesMembers(KeysOf(last), k);
    }
  }

  lemma {:induction false} RepeatMembers(e: Entry, n: nat, x: Entry)
    ensures x in Repeat(e, n) <==> n > 0 && x == e
  {
    if n > 0 { RepeatMembers(e, n - 1, x); }
  }

  lemma {:induction false} OccurrencesMembers(keys: seq<string>, k: string)
    ensures Occurrences(keys, k) > 0 <==> k in keys
  {
    if keys != [] { OccurrencesMembers(keys[1..], k); }
  }

  lemma KeysAre(e: Entry, key: string)
    ensures key in KeysOf(e) <==>
              || key == UuidText(e.tenantId) || key == "level:" + e.level || key == "source:" + e.source
              || exists tag :: tag in e.tags && key == "tag:" + tag
  {
    hide UuidText;
    var tags := Map(TagKey, e.tags);
    assert key in KeysOf(e) <==>
      key == TenantKey(e.tenantId) || key == LevelKey(e.level) || key == SourceKey(e.source) || key in tags;
    if key in tags {
      var i :| 0 <= i < |tags| && tags[i] == key;
      assert e.tags[i] in e.tags && key == "tag:" + e.tags[i];
    }
    if exists tag :: tag in e.tags && key == "tag:" + tag {
      var tag :| tag in e.tags && key == "tag:" + tag;
      var i :| 0 <= i < |e.tags| && e.tags[i] == tag;
      assert tags[i] == key;
    }
  }
}
