/** The cache manager and the transform controller as objects over the shared store:
    the record collection, the file system and the persisted byte counter. */
module TransformController {
  import opened Options
  import opened Sorting
  import opened Utf8
  import opened TransformCache
  import opened TransformSafety
  import opened TransformAccess

  class Store {
    var records: seq<Record>
    var files: map<Path, Bytes>
    /** The number in cache.json; absent while the file has not been written. */
    var savedSize: Option<int>

    constructor ()
      ensures Abs() == EMPTY
    {
      records := [];
      files := map[];
      savedSize := None;
    }

    function Counter(): int
      reads this
    {
      if savedSize.Some? then savedSize.value else 0
    }

    function Abs(): Cache
      reads this
    {
      Cache(records, files, Counter())
    }

    method DeleteChecksum(checksum: string)
      modifies this`records
      ensures records == Filter(Not(HasChecksum({checksum})), old(records))
    {
      records := Filter(Not(HasChecksum({checksum})), records);
    }

    method DeleteTriple(t: Triple)
      modifies this`records
      ensures records == Filter(Not(OfTriple(t)), old(records))
    {
      records := Filter(Not(OfTriple(t)), records);
    }

    method Unlink(p: Path)
      modifies this`files
      ensures files == old(files) - {p}
    {
      files := files - {p};
    }
  }

  lemma {:induction false} DeleteChecksumTwice(a: set<string>, checksum: string, s: seq<Record>)
    ensures Filter(Not(HasChecksum({checksum})), Filter(Not(HasChecksum(a)), s))
      == Filter(Not(HasChecksum(a + {checksum})), s)
  {
    if s != [] {
      DeleteChecksumTwice(a, checksum, s[1..]);
      var keep := Not(HasChecksum(a));
      var rest := Filter(keep, s[1..]);
      if keep(s[0]) {
        assert Filter(keep, s) == [s[0]] + rest;
        assert ([s[0]] + rest)[1..] == rest;
      } else {
        assert Filter(keep, s) == rest;
      }
    }
  }

  lemma {:induction false} MinusTwice(files: map<Path, Bytes>, a: set<Path>, p: Path)
    ensures files - a - {p} == files - (a + {p})
  {
  }

  lemma {:induction false} OneMore(entries: seq<Record>, i: nat)
    requires i < |entries|
    ensures Locations(entries[..i + 1]) == Locations(entries[..i]) + {entries[i].location}
    ensures Checksums(entries[..i + 1]) == Checksums(entries[..i]) + {entries[i].triple.checksum}
    ensures Total(entries[..i + 1]) == Total(entries[..i]) + entries[i].size
  {
    assert entries[..i + 1] == entries[..i] + [entries[i]];
    SumAppend(SizeOf, entries[..i], [entries[i]]);
  }

  class CacheManager {
    const store: Store
    const maxSize: int

    constructor (store: Store, maxSize: int)
      ensures this.store == store && this.maxSize == maxSize
    {
      this.store := store;
      this.maxSize := maxSize;
    }

    method LoadCacheSize() returns (size: int)
      ensures size == store.Counter()
    {
      size := if store.savedSize.Some? then store.savedSize.value else 0;
    }

    method SaveCacheSize(size: int)
      modifies store`savedSize
      ensures store.Counter() == size
    {
      store.savedSize := Some(size);
    }

    method Entries(ofClass: Record -> bool) returns (entries: seq<Record>)
      ensures entries == Filter(ofClass, Sort(Older, store.records))
    {
      var cursor := Sort(Older, store.records);
      entries := [];
      for i := 0 to |cursor|
        invariant entries == Filter(ofClass, cursor[..i])
      {
        assert cursor[..i + 1] == cursor[..i] + [cursor[i]];
        FilterAppend(ofClass, cursor[..i], [cursor[i]]);
        if ofClass(cursor[i]) {
          entries := entries + [cursor[i]];
        }
      }
      assert cursor[..|cursor|] == cursor;
      SortSorted(Older, store.records);
      FilterSorted(Older, ofClass, cursor);
      SortOfSorted(Older, entries);
      entries := Sort(Older, entries);
    }

    static method TakeUntilFreed(all: seq<Record>, bytesNeeded: int) returns (entries: seq<Record>)
      ensures entries == Freeing(all, bytesNeeded)
    {
      entries := [];
      var totalFreed := 0;
      for i := 0 to |all|
        invariant entries + Freeing(all[i..], bytesNeeded - totalFreed) == Freeing(all, bytesNeeded)
      {
        if totalFreed >= bytesNeeded {
          break;
        }
        assert all[i..][1..] == all[i + 1..];
        entries := entries + [all[i]];
        totalFreed := totalFreed + all[i].size;
      }
    }

    method GetLruEntries(bytesNeeded: int) returns (entries: seq<Record>)
      ensures entries == Freeing(EvictionOrder(store.records), bytesNeeded)
    {
      var binaries := Entries(IsBinary);
      var texts := Entries(IsText);
      var others := Entries(IsOther);
      entries := TakeUntilFreed(binaries + texts + others, bytesNeeded);
    }

    method EvictOne(entry: Record)
      modifies store`records, store`files
      ensures store.files == old(store.files) - {entry.location}
      ensures store.records == Filter(Not(HasChecksum({entry.triple.checksum})), old(store.records))
    {
      if entry.location in store.files {
        store.Unlink(entry.location);
      }
      store.DeleteChecksum(entry.triple.checksum);
    }

    method Evict(entries: seq<Record>) returns (locations: seq<Path>, totalFreed: int)
      modifies store`records, store`files
      ensures locations == seq(|entries|, i requires 0 <= i < |entries| => entries[i].location)
      ensures totalFreed == Total(entries)
      ensures store.files == old(store.files) - Locations(entries)
      ensures store.records == Filter(Not(HasChecksum(Checksums(entries))), old(store.records))
    {
      locations := [];
      totalFreed := 0;
      ghost var files, records := store.files, store.records;
      FilterAll(Not(HasChecksum({})), records);
      assert Checksums(entries[..0]) == {};
      for i := 0 to |entries|
        invariant |locations| == i && forall k :: 0 <= k < i ==> locations[k] == entries[k].location
        invariant store.files == files - Locations(entries[..i])
        invariant store.records == Filter(Not(HasChecksum(Checksums(entries[..i]))), records)
        invariant totalFreed == Total(entries[..i])
      {
        OneMore(entries, i);
        MinusTwice(files, Locations(entries[..i]), entries[i].location);
        DeleteChecksumTwice(Checksums(entries[..i]), entries[i].triple.checksum, records);
        EvictOne(entries[i]);
        locations := locations + [entries[i].location];
        totalFreed := totalFreed + entries[i].size;
      }
      assert entries[..|entries|] == entries;
    }

    /** The evicted locations, or nothing when there was no need or nothing to evict. */
    method EnsureSpace(newFileSize: int) returns (evicted: Option<seq<Path>>)
      modifies store
      ensures store.Abs() == TransformCache.EnsureSpace(old(store.Abs()), newFileSize, maxSize)
      ensures var entries := Evicted(old(store.Abs()), newFileSize, maxSize);
              evicted == if entries == [] then None
                         else Some(seq(|entries|, i requires 0 <= i < |entries| => entries[i].location))
    {
      var currentSize := LoadCacheSize();
      if currentSize + newFileSize <= maxSize {
        return None;
      }
      var entries := GetLruEntries(currentSize + newFileSize - maxSize);
      if entries == [] {
        return None;
      }
      assert entries == Evicted(store.Abs(), newFileSize, maxSize);
      var locations, totalFreed := Evict(entries);
      SaveCacheSize(currentSize - totalFreed);
      return Some(locations);
    }

    method AddFile(size: int)
      modifies store`savedSize
      ensures store.Counter() == old(store.Counter()) + size
    {
      var current := LoadCacheSize();
      SaveCacheSize(current + size);
    }

    method RemoveFile(size: int)
      modifies store`savedSize
      ensures store.Counter() == if old(store.Counter()) - size < 0 then 0 else old(store.Counter()) - size
    {
      var current := LoadCacheSize();
      SaveCacheSize(if current - size < 0 then 0 else current - size);
    }
  }

  class Controller {
    const env: Engines
    const store: Store
    const manager: CacheManager

    ghost predicate Valid() { manager.store == store }

    constructor (env: Engines, store: Store, maxSize: int)
      ensures Valid() && this.env == env && this.store == store && manager.maxSize == maxSize
    {
      this.env := env;
      this.store := store;
      this.manager := new CacheManager(store, maxSize);
    }

    method PruneStaleTransform(file: Path, r: Record)
      requires Valid() && file in store.files
      modifies store
      ensures store.Abs() == PruneStale(old(store.Abs()), file, r)
    {
      manager.RemoveFile(|store.files[file]|);
      store.Unlink(file);
      for i := 0 to |r.references|
        invariant store.records == old(store.records)
        invariant store.Counter() == PruneStale(old(store.Abs()), file, r).counter
        invariant store.files
               == old(store.files) - ({file} + set k | 0 <= k < i && r.references[k].FileReference? ::
                 r.references[k].path)
      {
        var reference := r.references[i];
        if reference.FileReference? {
          if reference.path in store.files {
            store.Unlink(reference.path);
          }
        }
      }
      assert ReferencedFiles(r)
          == set k | 0 <= k < |r.references| && r.references[k].FileReference? :: r.references[k].path;
      store.DeleteTriple(r.triple);
    }

    method FindCachedTransform(t: Triple) returns (found: Option<Record>)
      requires Valid()
      modifies store
      ensures (store.Abs(), found) == FindCached(env, old(store.Abs()), Filter(OfTriple(t), old(store.records)))
    {
      var docs := Filter(OfTriple(t), store.records);
      for i := 0 to |docs|
        invariant FindCached(env, store.Abs(), docs[i..]) == FindCached(env, old(store.Abs()), docs)
      {
        var file := FileOf(docs[i]);
        assert docs[i..][1..] == docs[i + 1..];
        if file in store.files {
          if MissingReferences(env, store.Abs(), file, docs[i]) {
            PruneStaleTransform(file, docs[i]);
          } else {
            return Some(docs[i]);
          }
        }
      }
      return None;
    }

    method PerformNewTransform(t: Triple, inputSize: nat, now: int) returns (result: Result<Handle>)
      requires Valid()
      modifies store
      ensures (store.Abs(), result) == PerformNew(env, old(store.Abs()), t, inputSize, now, manager.maxSize)
    {
      var _ := manager.EnsureSpace(inputSize);
      var outcome := env.run(t);
      if outcome.Failed? {
        return Err("engine failed");
      }
      var location := OutputPath(env, t);
      store.files := WithArtifacts(store.files, outcome.artifacts)[location := outcome.content];
      manager.AddFile(|outcome.content|);
      store.records := store.records + [Record(t, location, |outcome.content|, now, outcome.references)];
      return Ok(Handle(CacheKey(t), false));
    }

    method Transform(t: Triple, inputSize: nat, now: int) returns (result: Result<Handle>)
      requires Valid()
      modifies store
      ensures (store.Abs(), result)
        == TransformCache.Transform(env, old(store.Abs()), t, inputSize, now, manager.maxSize)
      ensures Sound(env, old(store.Abs())) && t.Valid() && result.Ok? && result.value.hit ==>
        Stamped(old(store.records), t, now, store.records) && store.files == old(store.files)
    {
      if Sound(env, store.Abs()) && t.Valid() {
        HitDoes(env, store.Abs(), t, inputSize, now, manager.maxSize);
      }
      var cached := FindCachedTransform(t);
      if cached.Some? {
        store.records := Touch(store.records, t, now);
        return Ok(Handle(CacheKey(t), true));
      }
      result := PerformNewTransform(t, inputSize, now);
    }

    method FindMatchingRecord(key: Key) returns (found: Option<Record>)
      ensures found == FindRecord(store.records, key)
    {
      for i := 0 to |store.records|
        invariant FindRecord(store.records[i..], key) == FindRecord(store.records, key)
      {
        assert store.records[i..][1..] == store.records[i + 1..];
        if CacheKey(store.records[i].triple) == key {
          return Some(store.records[i]);
        }
      }
      return None;
    }

    /** The record's file, or whichever file of the key the directory lists. */
    method ResolveCacheFile(key: Key, r: Record) returns (result: Result<Path>)
      modifies store`records
      ensures HasFile(old(store.Abs()), key) ==>
                && result.Ok? && store.records == old(store.records)
                && result.value in store.files && result.value.CacheFile? && result.value.key == key
      ensures !HasFile(old(store.Abs()), key) ==>
                result.Err? && store.records == Filter(Not(OfTriple(r.triple)), old(store.records))
    {
      var file := CacheFile(key, if Suffix(r.location) == "" then "md" else Suffix(r.location));
      if file !in store.files {
        var candidates := set p | p in store.files && p.CacheFile? && p.key == key;
        if HasFile(store.Abs(), key) {
          var p :| p in store.files && p.CacheFile? && p.key == key;
          assert p in candidates;
        }
        if candidates != {} {
          file :| file in candidates;
        }
      }
      if file !in store.files {
        store.DeleteTriple(r.triple);
        return Err("file missing, stale record pruned");
      }
      return Ok(file);
    }

    method GetContentByKey(key: Key, now: int) returns (result: Result<string>)
      requires Valid() && Sound(env, store.Abs())
      modifies store
      ensures store.Abs() == GetContent(old(store.Abs()), key, now).0
      ensures result.Ok? <==> GetContent(old(store.Abs()), key, now).1.Ok?
      ensures result.Ok? ==> result == GetContent(old(store.Abs()), key, now).1
      ensures store.files == old(store.files)
      ensures result.Ok? ==> exists t :: CacheKey(t) == key && Stamped(old(store.records), t, now, store.records)
    {
      ReadStamps(store.Abs(), key, now);
      var found := FindMatchingRecord(key);
      if found.None? {
        return Err("key not in database");
      }
      FindRecordFinds(store.records, key);
      var r := found.value;
      assert RecordFaithful(env, r);
      var file := ResolveCacheFile(key, r);
      if file.Err? {
        return Err(file.error);
      }
      ghost var before := old(store.Abs());
      ResolvedIsFaithful(env, before, r.triple, r);
      assert FileFaithful(env, r.triple, file.value, before.files[file.value]);
      store.records := Touch(store.records, r.triple, now);
      return Opened(store.files[file.value]);
    }

    /** Content by path: transform with the default engine, then read back under the key. */
    method GetContentByPath(t: Triple, inputSize: nat, now: int, later: int) returns (result: Result<string>)
      requires Valid() && Sound(env, store.Abs()) && t.Valid()
      modifies store
      ensures Sound(env, store.Abs())
      ensures result.Ok? <==> env.run(t).Produced? && exists s :: env.run(t).content == Encode(s)
      ensures result.Ok? ==> Some(result.value) == ReadText(env.run(t).content)
    {
      TransformThenGetContent(env, store.Abs(), t, inputSize, now, later, manager.maxSize);
      TransformKeepsSound(env, store.Abs(), t, inputSize, now, manager.maxSize);
      if env.run(t).Produced? {
        DecodesExactly(env.run(t).content);
      }
      var handle := Transform(t, inputSize, now);
      if handle.Err? {
        return Err(handle.error);
      }
      GetContentKeepsSound(env, store.Abs(), handle.value.key, later);
      result := GetContentByKey(handle.value.key, later);
    }
  }
}
