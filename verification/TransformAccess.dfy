/** What one step of the transform cache does to records and files, spelled out, and what an
    access means for eviction. */
module TransformAccess {
  import opened Sorting
  import opened TransformCache
  import opened TransformSafety

  // ---------------------------------------------------------------- access times

  /** The first record of the transform has the time of access, and nothing else is changed. */
  ghost predicate Stamped(before: seq<Record>, t: Triple, now: int, after: seq<Record>) {
    exists i :: 0 <= i < |before| && before[i].triple == t && (forall j :: 0 <= j < i ==> before[j].triple != t)
      && |after| == |before| && after[i].lastAccessed == now
      && after[i] == before[i].(lastAccessed := after[i].lastAccessed)
      && forall j :: 0 <= j < |before| && j != i ==> after[j] == before[j]
  }

  lemma {:induction false} TouchStamps(records: seq<Record>, t: Triple, now: int)
    requires exists r :: r in records && r.triple == t
    ensures Stamped(records, t, now, Touch(records, t, now))
  {
    var after := Touch(records, t, now);
    if records[0].triple == t {
      assert after[1..] == records[1..];
      assert forall j :: 1 <= j < |records| ==> after[j] == after[1..][j - 1];
    } else {
      var r :| r in records && r.triple == t;
      assert r in records[1..];
      TouchStamps(records[1..], t, now);
      StampedCons(records[0], records[1..], t, now, Touch(records[1..], t, now));
      assert records == [records[0]] + records[1..];
    }
  }

  lemma {:induction false} StampedCons(r: Record, before: seq<Record>, t: Triple, now: int, after: seq<Record>)
    requires r.triple != t && Stamped(before, t, now, after)
    ensures Stamped([r] + before, t, now, [r] + after)
  {
    var i :| 0 <= i < |before| && before[i].triple == t && (forall j :: 0 <= j < i ==> before[j].triple != t)
      && |after| == |before| && after[i].lastAccessed == now
      && after[i] == before[i].(lastAccessed := after[i].lastAccessed)
      && forall j :: 0 <= j < |before| && j != i ==> after[j] == before[j];
    var before', after' := [r] + before, [r] + after;
    assert before'[i + 1] == before[i] && after'[i + 1] == after[i];
    forall j | 0 <= j < |before'| && j != i + 1 ensures after'[j] == before'[j] {
      if j > 0 {
        assert after[j - 1] == before[j - 1];
      }
    }
  }

  /** A hit stamps the record and changes nothing else. */
  lemma {:induction false} HitStamps(env: Engines, c: Cache, t: Triple, inputSize: nat, now: int, maxSize: int)
    requires Sound(env, c) && t.Valid()
    requires var result := Transform(env, c, t, inputSize, now, maxSize).1; result.Ok? && result.value.hit
    ensures var d := Transform(env, c, t, inputSize, now, maxSize).0;
      Stamped(c.records, t, now, d.records) && d.files == c.files && d.counter == c.counter
  {
    var docs := Filter(OfTriple(t), c.records);
    RecordsMatch(env, c, t);
    FindCachedOutcome(env, c, t, docs);
    assert docs[0] in docs;
    TouchStamps(c.records, t, now);
  }

  lemma {:induction false} HitDoes(env: Engines, c: Cache, t: Triple, inputSize: nat, now: int, maxSize: int)
    requires Sound(env, c) && t.Valid()
    ensures var (d, result) := Transform(env, c, t, inputSize, now, maxSize);
      result.Ok? && result.value.hit ==> Stamped(c.records, t, now, d.records) && d.files == c.files
  {
    var result := Transform(env, c, t, inputSize, now, maxSize).1;
    if result.Ok? && result.value.hit {
      HitStamps(env, c, t, inputSize, now, maxSize);
    }
  }

  lemma {:induction false} ReadStamps(c: Cache, key: Key, now: int)
    ensures var (d, result) := GetContent(c, key, now);
      result.Ok? ==> exists t :: CacheKey(t) == key && Stamped(c.records, t, now, d.records)
  {
    ContentRequestDoes(c, key, now);
  }

  /** A content request stamps the record when it finds a file, deletes the record when it finds
      none, and changes nothing when it finds no record. */
  lemma {:induction false} ContentRequestDoes(c: Cache, key: Key, now: int)
    ensures var (d, result) := GetContent(c, key, now);
      && d.files == c.files && d.counter == c.counter
      && ((exists r :: r in c.records && CacheKey(r.triple) == key) ==>
            exists r :: r in c.records && CacheKey(r.triple) == key &&
              if exists p :: p in c.files && p.CacheFile? && p.key == key
              then Stamped(c.records, r.triple, now, d.records)
              else result.Err? && d.records == Filter(Not(OfTriple(r.triple)), c.records)
                   && forall x :: x in d.records <==> x in c.records && x.triple != r.triple)
      && ((forall r :: r in c.records ==> CacheKey(r.triple) != key) ==> result.Err? && d.records == c.records)
  {
    FindRecordFinds(c.records, key);
    var found := FindRecord(c.records, key);
    if found.Some? {
      var r := found.value;
      TouchStamps(c.records, r.triple, now);
      FilterMembers(Not(OfTriple(r.triple)), c.records);
      assert HasFile(c, key) <==> exists p :: p in c.files && p.CacheFile? && p.key == key;
    }
  }

  // ---------------------------------------------------------------- a new transform

  /** What a scan leaves that finds nothing: the cache as it was, or one stale entry pruned. */
  ghost predicate Scanned(env: Engines, c: Cache, t: Triple, d: Cache) {
    d == c || exists r :: r in c.records && r.triple == t && FileOf(r) in c.files && Pruned(c, r, d)
  }

  /** The file, the files it refers to and the records of its transform are gone, and the counter has
      fallen by the file's bytes; all else is as it was. */
  ghost predicate Pruned(c: Cache, r: Record, d: Cache)
    requires FileOf(r) in c.files
  {
    && d.counter == c.counter - |c.files[FileOf(r)]|
    && (forall p :: p in d.files <==> p in c.files && p != FileOf(r) && FileReference(p) !in r.references)
    && (forall p :: p in d.files ==> d.files[p] == c.files[p])
    && d.records == Filter(Not(OfTriple(r.triple)), c.records)
    && (forall x :: x in d.records <==> x in c.records && x.triple != r.triple)
  }

  lemma {:induction false} PruneDoes(env: Engines, c: Cache, r: Record)
    requires Sound(env, c) && r in c.records && FileOf(r) in c.files
    ensures Pruned(c, r, PruneStale(c, FileOf(r), r))
  {
    assert RecordFaithful(env, r);
    assert FileFaithful(env, r.triple, FileOf(r), c.files[FileOf(r)]);
    CounterCovers(env, c);
    SumMember(SizeOf, c.records, r);
    FilterMembers(Not(OfTriple(r.triple)), c.records);
    forall p ensures p in ReferencedFiles(r) <==> FileReference(p) in r.references {
      if FileReference(p) in r.references {
        assert FileReference(p).path == p;
      }
    }
  }

  lemma {:induction false} ScanDoes(env: Engines, c: Cache, t: Triple)
    requires Sound(env, c)
    ensures var (d, found) := FindCached(env, c, Filter(OfTriple(t), c.records));
      found.None? ==> Scanned(env, c, t, d)
  {
    var docs := Filter(OfTriple(t), c.records);
    RecordsMatch(env, c, t);
    FindCachedOutcome(env, c, t, docs);
    if docs != [] && FileOf(docs[0]) in c.files {
      assert docs[0] in docs;
      PruneDoes(env, c, docs[0]);
    }
  }

  /** The record, the bytes and the files a new output adds. */
  ghost predicate Added(c: Cache, t: Triple, outcome: Outcome, location: Path, now: int, d: Cache)
    requires outcome.Produced?
  {
    && d.records == c.records + [Record(t, location, |outcome.content|, now, outcome.references)]
    && d.counter == c.counter + |outcome.content|
    && location in d.files && d.files[location] == outcome.content
    && (forall n :: n in outcome.artifacts && Artifact(n) != location ==>
          Artifact(n) in d.files && d.files[Artifact(n)] == outcome.artifacts[n])
    && (forall p :: p != location && !(p.Artifact? && p.name in outcome.artifacts) ==>
          (p in d.files <==> p in c.files) && (p in c.files ==> d.files[p] == c.files[p]))
  }

  lemma {:induction false} PerformNewAdds(env: Engines, c: Cache, t: Triple, inputSize: nat, now: int, maxSize: int)
    ensures var d, room := PerformNew(env, c, t, inputSize, now, maxSize).0, EnsureSpace(c, inputSize, maxSize);
      if env.run(t).Failed? then d == room
      else Added(room, t, env.run(t), CacheFile(CacheKey(t), env.extension(t.engine, t.options)), now, d)
  {
  }

  /** A transform that is no hit scans, makes room for the input, and adds the output if there is one. */
  lemma {:induction false} NewTransformDoes(env: Engines, c: Cache, t: Triple, inputSize: nat, now: int, maxSize: int)
    requires Sound(env, c) && t.Valid()
    requires var result := Transform(env, c, t, inputSize, now, maxSize).1; result.Ok? ==> !result.value.hit
    ensures var d := Transform(env, c, t, inputSize, now, maxSize).0;
      exists scanned :: Scanned(env, c, t, scanned) &&
        var room := EnsureSpace(scanned, inputSize, maxSize);
        if env.run(t).Failed? then d == room
        else Added(room, t, env.run(t), CacheFile(CacheKey(t), env.extension(t.engine, t.options)), now, d)
  {
    var scanned := FindCached(env, c, Filter(OfTriple(t), c.records)).0;
    ScanDoes(env, c, t);
    PerformNewAdds(env, scanned, t, inputSize, now, maxSize);
  }

  /** An output that refers only to artifacts written with it is not stale, so the repeated
      transform is a hit. */
  lemma {:induction false} OwnArtifactsAreThere(env: Engines, c: Cache, t: Triple, inputSize: nat, now: int,
                                                inputSize': nat, now': int, maxSize: int)
    requires Sound(env, c) && t.Valid() && env.run(t).Produced? && SoughtPath(env, t) == OutputPath(env, t)
    requires env.run(t).references != [] && forall ref :: ref in env.run(t).references && ref.FileReference? ==>
               ref.path.Artifact? && ref.path.name in env.run(t).artifacts
    requires !Transform(env, c, t, inputSize, now, maxSize).1.value.hit
    ensures var d := Transform(env, c, t, inputSize, now, maxSize).0;
      var again := Transform(env, d, t, inputSize', now', maxSize).1;
      again.Ok? && again.value.hit
  {
    RepeatHitsExactly(env, c, t, inputSize, now, inputSize', now', maxSize);
    NewTransformDoes(env, c, t, inputSize, now, maxSize);
  }

  // ---------------------------------------------------------------- what an access is worth

  lemma {:induction false} NotBehind(order: seq<Record>, i: nat, j: nat)
    requires Sorted(EvictedBefore, order) && i < |order| && j < |order| && !EvictedBefore(order[j], order[i])
    ensures i <= j
  {
  }

  /** Of two records of a class, the one used later stands behind in the order of eviction. */
  lemma {:induction false} LaterUsedIsBehind(records: seq<Record>, i: nat, j: nat)
    requires i < |EvictionOrder(records)| && j < |EvictionOrder(records)|
    requires var x, y := EvictionOrder(records)[i], EvictionOrder(records)[j];
             Class(x) == Class(y) && x.lastAccessed < y.lastAccessed
    ensures i < j
  {
    EvictionOrderSorted(records);
    NotBehind(EvictionOrder(records), i, j);
  }

  /** A record is evicted only along with those of the classes before, and those of its class that
      were used before it. */
  lemma {:induction false} EvictedAfterOthers(c: Cache, incoming: int, maxSize: int, used: Record, other: Record)
    requires used in Evicted(c, incoming, maxSize) && other in c.records
    requires Class(other) < Class(used) || (Class(other) == Class(used) && other.lastAccessed < used.lastAccessed)
    ensures other in Evicted(c, incoming, maxSize)
  {
    var order, evicted := EvictionOrder(c.records), Evicted(c, incoming, maxSize);
    EvictedIsShortestPrefix(c, incoming, maxSize);
    EvictionOrderPermutes(c.records);
    EvictionOrderSorted(c.records);
    SameMembers(c.records, order, other);
    var i :| 0 <= i < |order| && order[i] == other;
    var j :| 0 <= j < |evicted| && evicted[j] == used;
    NotBehind(order, i, j);
    assert evicted[i] == other;
  }

  /** A transform that hits later than any access before keeps its record from the next eviction,
      until all others of its class are evicted. */
  lemma {:induction false} HitIsEvictedLast(env: Engines, c: Cache, t: Triple, inputSize: nat, now: int, maxSize: int,
                                            incoming: int)
    requires Sound(env, c) && t.Valid() && forall r :: r in c.records ==> r.lastAccessed < now
    requires var result := Transform(env, c, t, inputSize, now, maxSize).1; result.Ok? && result.value.hit
    ensures var d := Transform(env, c, t, inputSize, now, maxSize).0;
      exists used :: used in d.records && used.triple == t && used.lastAccessed == now
        && (used in Evicted(d, incoming, maxSize) ==>
              forall r :: r in d.records && Class(r) == Class(used) ==> r in Evicted(d, incoming, maxSize))
  {
    var d := Transform(env, c, t, inputSize, now, maxSize).0;
    HitStamps(env, c, t, inputSize, now, maxSize);
    var i := StampedAt(c.records, t, now, d.records);
    var used := d.records[i];
    if used in Evicted(d, incoming, maxSize) {
      forall r | r in d.records && Class(r) == Class(used) ensures r in Evicted(d, incoming, maxSize) {
        var j :| 0 <= j < |d.records| && d.records[j] == r;
        if j != i {
          assert r == c.records[j];
          EvictedAfterOthers(d, incoming, maxSize, used, r);
        }
      }
    }
  }

  lemma {:induction false} StampedAt(before: seq<Record>, t: Triple, now: int, after: seq<Record>) returns (i: nat)
    requires Stamped(before, t, now, after)
    ensures i < |before| == |after| && after[i].triple == t && after[i].lastAccessed == now
    ensures forall j :: 0 <= j < |before| && j != i ==> after[j] == before[j]
  {
    i :| 0 <= i < |before| && before[i].triple == t && (forall j :: 0 <= j < i ==> before[j].triple != t)
      && |after| == |before| && after[i].lastAccessed == now
      && after[i] == before[i].(lastAccessed := after[i].lastAccessed)
      && forall j :: 0 <= j < |before| && j != i ==> after[j] == before[j];
  }
}
