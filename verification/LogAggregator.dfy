/** The bounded log and its indexes by tenant, level, source and tag. */
module LogAggregator {
  import opened Common
  import opened Text
  import opened Uuids

  // ---------------------------------------------------------------- entries and filters

  datatype Entry = Entry(
    id: Uuid, tenantId: Uuid, level: string, message: string, timestamp: int, source: string, tags: seq<string>)

  /** An empty string or list, like an absent value, asks for nothing. */
  datatype LogFilter = LogFilter(
    tenantId: Option<Uuid>, level: string, source: string, tags: seq<string>,
    startTime: Option<int>, endTime: Option<int>, message: string)

  function TenantKey(u: Uuid): string { UuidText(u) }
  function LevelKey(level: string): string { "level:" + level }
  function SourceKey(source: string): string { "source:" + source }
  function TagKey(tag: string): string { "tag:" + tag }

  /** The keys an entry is indexed under, a repeated tag repeating its key. */
  function KeysOf(e: Entry): seq<string>
  {
    [TenantKey(e.tenantId), LevelKey(e.level), SourceKey(e.source)] + Map(TagKey, e.tags)
  }

  /** The filter's conditions other than the tenant. */
  predicate Matches(e: Entry, f: LogFilter)
  {
    && (f.startTime.Some? ==> f.startTime.value <= e.timestamp)
    && (f.endTime.Some? ==> e.timestamp <= f.endTime.value)
    && (f.level != "" ==> e.level == f.level)
    && (f.source != "" ==> e.source == f.source)
    && (f.message != "" ==> Index(e.message, f.message).Some?)
    && (forall t :: t in f.tags ==> t in e.tags)
  }

  function Matching(f: LogFilter): Entry -> bool { e => Matches(e, f) }

  // ---------------------------------------------------------------- the log as a value

  type Indexes = map<string, seq<Entry>>

  datatype Log = Log(entries: seq<Entry>, index: Indexes)

  function ListAt(index: Indexes, k: string): seq<Entry>
  {
    if k in index then index[k] else []
  }

  function AddKeys(index: Indexes, e: Entry, keys: seq<string>): Indexes
    decreases |keys|
  {
    if keys == [] then index
    else AddKeys(index[keys[0] := ListAt(index, keys[0]) + [e]], e, keys[1..])
  }

  /** Without the first entry that has the target's identifier. */
  function RemoveFirst(entries: seq<Entry>, target: Entry): seq<Entry>
  {
    if entries == [] then []
    else if entries[0].id == target.id then entries[1..]
    else [entries[0]] + RemoveFirst(entries[1..], target)
  }

  function RemoveKeys(index: Indexes, e: Entry, keys: seq<string>): Indexes
    decreases |keys|
  {
    if keys == [] then index
    else
      var k := keys[0];
      RemoveKeys(if k in index then index[k := RemoveFirst(index[k], e)] else index, e, keys[1..])
  }

  function Added(log: Log, e: Entry, bufferSize: nat): Log
  {
    var entries := log.entries + [e];
    if |entries| > bufferSize
    then Log(entries[1..], AddKeys(RemoveKeys(log.index, entries[0], KeysOf(entries[0])), e, KeysOf(e)))
    else Log(entries, AddKeys(log.index, e, KeysOf(e)))
  }

  function Candidates(log: Log, f: LogFilter): seq<Entry>
  {
    if f.tenantId.Some? then ListAt(log.index, TenantKey(f.tenantId.value))
    else if f.level != "" then ListAt(log.index, LevelKey(f.level))
    else if f.source != "" then ListAt(log.index, SourceKey(f.source))
    else log.entries
  }

  function Answer(log: Log, f: LogFilter): seq<Entry>
  {
    Filter(Matching(f), Candidates(log, f))
  }

  // ---------------------------------------------------------------- the object

  class LogAggregator {
    const bufferSize: nat
    var entries: seq<Entry>
    var index: Indexes
    /** How many processors were added, and the calls made of them, each with its entry. */
    var processors: nat
    var processed: seq<(nat, Entry)>

    function View(): Log
      reads this
    {
      Log(entries, index)
    }

    constructor (bufferSize: nat)
      ensures this.bufferSize == bufferSize && View() == Log([], map[]) && processors == 0 && processed == []
    {
      this.bufferSize := bufferSize;
      entries, index, processors, processed := [], map[], 0, [];
    }

    method AddProcessor()
      modifies this`processors
      ensures processors == old(processors) + 1
    {
      processors := processors + 1;
    }

    /** Every processor gets the entry, in the order they were added; one that fails stops none of the others. */
    method AddEntry(entry: Entry)
      modifies this`entries, this`index, this`processed
      ensures View() == Added(old(View()), entry, bufferSize)
      ensures processed == old(processed) + seq(processors, i => (i, entry))
    {
      entries := entries + [entry];
      if |entries| > bufferSize {
        var oldEntry := entries[0];
        entries := entries[1..];
        RemoveFromIndex(oldEntry);
      }
      AddToIndex(entry);
      ProcessEntry(entry);
    }

    method ProcessEntry(entry: Entry)
      modifies this`processed
      ensures processed == old(processed) + seq(processors, i => (i, entry))
    {
      for i := 0 to processors
        invariant processed == old(processed) + seq(i, k => (k, entry))
      {
        processed := processed + [(i, entry)];
      }
    }

    method Append(key: string, entry: Entry)
      modifies this`index
      ensures index == old(index)[key := ListAt(old(index), key) + [entry]]
    {
      if key in index {
        index := index[key := index[key] + [entry]];
      } else {
        assert ListAt(index, key) + [entry] == [entry];
        index := index[key := [entry]];
      }
    }

    method AddToIndex(entry: Entry)
      modifies this`index
      ensures index == AddKeys(old(index), entry, KeysOf(entry))
    {
      ghost var keys := KeysOf(entry);
      ghost var goal := AddKeys(index, entry, keys);
      assert keys[0..] == keys;
      AddKeysNext(index, entry, keys, 0);
      Append(TenantKey(entry.tenantId), entry);
      AddKeysNext(index, entry, keys, 1);
      Append(LevelKey(entry.level), entry);
      AddKeysNext(index, entry, keys, 2);
      Append(SourceKey(entry.source), entry);
      for i := 0 to |entry.tags|
        invariant AddKeys(index, entry, keys[i + 3..]) == goal
      {
        AddKeysNext(index, entry, keys, i + 3);
        Append(TagKey(entry.tags[i]), entry);
      }
    }

    method RemoveAt(key: string, entry: Entry)
      modifies this`index
      ensures index == if key in old(index) then old(index)[key := RemoveFirst(old(index)[key], entry)] else old(index)
    {
      if key in index {
        var list := RemoveEntryFromSlice(index[key], entry);
        index := index[key := list];
      }
    }

    method RemoveFromIndex(entry: Entry)
      modifies this`index
      ensures index == RemoveKeys(old(index), entry, KeysOf(entry))
    {
      ghost var keys := KeysOf(entry);
      ghost var goal := RemoveKeys(index, entry, keys);
      assert keys[0..] == keys;
      RemoveKeysNext(index, entry, keys, 0);
      RemoveAt(TenantKey(entry.tenantId), entry);
      RemoveKeysNext(index, entry, keys, 1);
      RemoveAt(LevelKey(entry.level), entry);
      RemoveKeysNext(index, entry, keys, 2);
      RemoveAt(SourceKey(entry.source), entry);
      for i := 0 to |entry.tags|
        invariant RemoveKeys(index, entry, keys[i + 3..]) == goal
      {
        RemoveKeysNext(index, entry, keys, i + 3);
        RemoveAt(TagKey(entry.tags[i]), entry);
      }
    }

    method Query(filter: LogFilter) returns (results: seq<Entry>)
      ensures results == Answer(View(), filter)
    {
      results := [];
      var candidates: seq<Entry>;
      if filter.tenantId.Some? {
        candidates := ListAt(index, TenantKey(filter.tenantId.value));
      } else if filter.level != "" {
        candidates := ListAt(index, LevelKey(filter.level));
      } else if filter.source != "" {
        candidates := ListAt(index, SourceKey(filter.source));
      } else {
        candidates := entries;
      }
      for i := 0 to |candidates|
        invariant results == Filter(Matching(filter), candidates[..i])
      {
        FilterSnoc(Matching(filter), candidates, i);
        var matches := MatchesFilter(candidates[i], filter);
        if matches {
          results := results + [candidates[i]];
        }
      }
      assert candidates[..|candidates|] == candidates;
    }

    method Clear()
      modifies this`entries, this`index
      ensures View() == Log([], map[])
    {
      entries := [];
      index := map[];
    }
  }

  lemma AddKeysNext(index: Indexes, e: Entry, keys: seq<string>, i: nat)
    requires i < |keys|
    ensures AddKeys(index, e, keys[i..]) == AddKeys(index[keys[i] := ListAt(index, keys[i]) + [e]], e, keys[i + 1..])
  {
  }

  lemma RemoveKeysNext(index: Indexes, e: Entry, keys: seq<string>, i: nat)
    requires i < |keys|
    ensures RemoveKeys(index, e, keys[i..]) ==
            var shorter := if keys[i] in index then index[keys[i] := RemoveFirst(index[keys[i]], e)] else index;
            RemoveKeys(shorter, e, keys[i + 1..])
  {
  }

  lemma RemoveFirstNext(entries: seq<Entry>, target: Entry)
    requires entries != []
    ensures RemoveFirst(entries, target) ==
            if entries[0].id == target.id then entries[1..] else [entries[0]] + RemoveFirst(entries[1..], target)
  {
  }

  lemma NothingToRemove(target: Entry)
    ensures RemoveFirst([], target) == []
  {
  }

  method RemoveEntryFromSlice(entries: seq<Entry>, target: Entry) returns (rest: seq<Entry>)
    ensures rest == RemoveFirst(entries, target)
  {
    hide RemoveFirst;
    assert entries[0..] == entries && entries[..0] == [];
    for i := 0 to |entries|
      invariant RemoveFirst(entries, target) == entries[..i] + RemoveFirst(entries[i..], target)
    {
      RemoveFirstNext(entries[i..], target);
      assert entries[i..][0] == entries[i] && entries[i..][1..] == entries[i + 1..];
      if entries[i].id == target.id {
        return entries[..i] + entries[i + 1..];
      }
      assert entries[..i] + ([entries[i]] + RemoveFirst(entries[i + 1..], target))
          == entries[..i + 1] + RemoveFirst(entries[i + 1..], target);
    }
    NothingToRemove(target);
    assert entries[|entries|..] == [] && entries[..|entries|] == entries;
    return entries;
  }

  method MatchesFilter(entry: Entry, filter: LogFilter) returns (matches: bool)
    ensures matches <==> Matches(entry, filter)
  {
    if filter.startTime.Some? && entry.timestamp < filter.startTime.value {
      return false;
    }
    if filter.endTime.Some? && entry.timestamp > filter.endTime.value {
      return false;
    }
    if filter.level != "" && entry.level != filter.level {
      return false;
    }
    if filter.source != "" && entry.source != filter.source {
      return false;
    }
    if filter.message != "" {
      var found := ContainsText(entry.message, filter.message);
      if !found {
        return false;
      }
    }
    if |filter.tags| > 0 {
      var entryTags: map<string, bool> := map[];
      for i := 0 to |entry.tags|
        invariant forall t :: t in entryTags <==> t in entry.tags[..i]
      {
        entryTags := entryTags[entry.tags[i] := true];
      }
      assert entry.tags[..|entry.tags|] == entry.tags;
      for i := 0 to |filter.tags|
        invariant forall t :: t in filter.tags[..i] ==> t in entry.tags
      {
        if filter.tags[i] !in entryTags {
          return false;
        }
      }
    }
    return true;
  }

  method ContainsText(s: string, substr: string) returns (found: bool)
    ensures found <==> Contains(s, substr)
  {
    if |s| < |substr| {
      return false;
    }
    if s == substr {
      assert MatchAt(s, substr, 0);
      return true;
    }
    if |s| > |substr| {
      if s[..|substr|] == substr {
        assert MatchAt(s, substr, 0);
        return true;
      }
      if s[|s| - |substr|..] == substr {
        assert MatchAt(s, substr, |s| - |substr|);
        return true;
      }
      found := ContainsSubstring(s, substr);
      return found;
    }
    assert s[0..|substr|] == s;
    return false;
  }

  method ContainsSubstring(s: string, substr: string) returns (found: bool)
    requires |s| >= |substr|
    ensures found <==> Contains(s, substr)
  {
    for i := 0 to |s| - |substr| + 1
      invariant forall j: nat :: j < i ==> !MatchAt(s, substr, j)
    {
      if s[i..i + |substr|] == substr {
        assert MatchAt(s, substr, i);
        return true;
      }
    }
    return false;
  }
}
