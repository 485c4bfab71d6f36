/** What every run of the transform cache keeps: cached contents are the engines' outputs,
    the byte counter covers the records and the files no record names any more, and
    eviction frees what it promises. */
module TransformSafety {
  import opened Options
  import opened Sorting
  import opened Text
  import opened Utf8
  import opened TransformCache

  // ---------------------------------------------------------------- eviction order

  /** Rank of the eviction classes. */
  function Class(r: Record): nat {
    if Suffix(r.location) == "bin" then 0 else if Suffix(r.location) == "txt" then 1 else 2
  }

  predicate EvictedBefore(a: Record, b: Record) {
    Class(a) < Class(b) || (Class(a) == Class(b) && a.lastAccessed <= b.lastAccessed)
  }

  lemma {:induction false} ClassSorted(p: Record -> bool, s: seq<Record>, n: nat)
    requires Sorted(Older, s) && forall r :: p(r) <==> Class(r) == n
    ensures Sorted(EvictedBefore, Filter(p, s))
    ensures forall r :: r in Filter(p, s) ==> Class(r) == n
  {
    FilterSorted(Older, p, s);
    FilterMembers(p, s);
    var f := Filter(p, s);
    forall i, j | 0 <= i < j < |f| ensures EvictedBefore(f[i], f[j]) {
      assert f[i] in f && f[j] in f;
    }
  }

  lemma {:induction false} AppendSorted(a: seq<Record>, b: seq<Record>)
    requires Sorted(EvictedBefore, a) && Sorted(EvictedBefore, b)
    requires forall x, y :: x in a && y in b ==> Class(x) < Class(y)
    ensures Sorted(EvictedBefore, a + b)
  {
    forall i, j | 0 <= i < j < |a + b| ensures EvictedBefore((a + b)[i], (a + b)[j]) {
      if i < |a| <= j {
        assert a[i] in a && b[j - |a|] in b;
      }
    }
  }

  /** The eviction order lists every record once: by class, and by age within a class. */
  lemma {:induction false} EvictionOrderSorted(records: seq<Record>)
    ensures Sorted(EvictedBefore, EvictionOrder(records))
  {
    var s := Sort(Older, records);
    SortSorted(Older, records);
    ClassSorted(IsBinary, s, 0);
    ClassSorted(IsText, s, 1);
    ClassSorted(IsOther, s, 2);
    AppendSorted(Filter(IsBinary, s), Filter(IsText, s));
    AppendSorted(Filter(IsBinary, s) + Filter(IsText, s), Filter(IsOther, s));
  }

  lemma {:induction false} EvictionOrderPermutes(records: seq<Record>)
    ensures multiset(EvictionOrder(records)) == multiset(records)
  {
    var s := Sort(Older, records);
    SortMultiset(Older, records);
    var m := multiset(EvictionOrder(records));
    forall x ensures m[x] == multiset(s)[x] {
      FilterMultiset(IsBinary, s, x);
      FilterMultiset(IsText, s, x);
      FilterMultiset(IsOther, s, x);
    }
    assert m == multiset(s);
  }

  lemma {:induction false} FreeingIsPrefix(order: seq<Record>, needed: int)
    ensures |Freeing(order, needed)| <= |order| && Freeing(order, needed) == order[..|Freeing(order, needed)|]
    ensures Total(Freeing(order, needed)) >= needed || Freeing(order, needed) == order
  {
    if order != [] && needed > 0 {
      FreeingIsPrefix(order[1..], needed - order[0].size);
    }
  }

  lemma {:induction false} FreeingIsShortest(order: seq<Record>, needed: int, k: nat)
    requires k < |Freeing(order, needed)| <= |order|
    ensures Total(order[..k]) < needed
  {
    FreeingIsPrefix(order, needed);
    if k > 0 {
      FreeingIsPrefix(order[1..], needed - order[0].size);
      FreeingIsShortest(order[1..], needed - order[0].size, k - 1);
      assert order[..k][1..] == order[1..][..k - 1];
    }
  }

  /** The evicted entries are the shortest prefix of the eviction order that frees the
      shortfall, or all entries when no prefix does. */
  lemma {:induction false} EvictedIsShortestPrefix(c: Cache, incoming: int, maxSize: int)
    ensures var order, evicted := EvictionOrder(c.records), Evicted(c, incoming, maxSize);
            var needed := c.counter + incoming - maxSize;
            && |evicted| <= |order| && evicted == order[..|evicted|]
            && (Total(evicted) >= needed || evicted == order)
            && forall k :: 0 <= k < |evicted| ==> Total(order[..k]) < needed
  {
    var order, evicted := EvictionOrder(c.records), Evicted(c, incoming, maxSize);
    var needed := c.counter + incoming - maxSize;
    FreeingIsPrefix(order, needed);
    forall k | 0 <= k < |evicted| ensures Total(order[..k]) < needed {
      FreeingIsShortest(order, needed, k);
    }
  }

  // ---------------------------------------------------------------- the counter

  /** The records deleted beside the evicted ones, for sharing a checksum with them. */
  function Collateral(c: Cache, incoming: int, maxSize: int): seq<Record> {
    var order, evicted := EvictionOrder(c.records), Evicted(c, incoming, maxSize);
    if |evicted| <= |order| then Filter(HasChecksum(Checksums(evicted)), order[|evicted|..]) else []
  }

  lemma {:induction false} EvictionTotals(c: Cache, incoming: int, maxSize: int)
    ensures Total(c.records)
         == Total(EnsureSpace(c, incoming, maxSize).records) + Total(Evicted(c, incoming, maxSize))
          + Total(Collateral(c, incoming, maxSize))
  {
    var order, evicted := EvictionOrder(c.records), Evicted(c, incoming, maxSize);
    EvictedIsShortestPrefix(c, incoming, maxSize);
    EvictionOrderPermutes(c.records);
    var p, rest := HasChecksum(Checksums(evicted)), order[|evicted|..];
    assert order == evicted + rest;
    FilterAll(p, evicted);
    FilterAll(p, rest);
    if evicted == [] {
      assert Collateral(c, incoming, maxSize) == [];
    } else {
      SumSplit(SizeOf, p, c.records);
      FilterPermuted(p, c.records, order);
      SumPermuted(SizeOf, Filter(p, c.records), Filter(p, order));
      FilterAppend(p, evicted, rest);
      SumAppend(SizeOf, evicted, Filter(p, rest));
    }
  }

  /** How far the counter is above the recorded sizes. */
  function Drift(c: Cache): int { c.counter - Total(c.records) }

  /** Eviction widens the gap by exactly the sizes of the records deleted on the side. */
  lemma {:induction false} EvictionDrift(c: Cache, incoming: int, maxSize: int)
    ensures Drift(EnsureSpace(c, incoming, maxSize)) == Drift(c) + Total(Collateral(c, incoming, maxSize))
  {
    EvictionTotals(c, incoming, maxSize);
  }

  ghost predicate DistinctChecksums(records: seq<Record>) {
    forall i, j :: 0 <= i < j < |records| ==> records[i].triple.checksum != records[j].triple.checksum
  }

  lemma {:induction false} ChecksumsPermuted(a: seq<Record>, b: seq<Record>)
    requires multiset(a) == multiset(b) && DistinctChecksums(a)
    ensures DistinctChecksums(b)
  {
    DistinctPermuted(a, b);
    forall i, j | 0 <= i < j < |b| ensures b[i].triple.checksum != b[j].triple.checksum {
      assert b[i] in multiset(a) && b[j] in multiset(a);
      var k :| 0 <= k < |a| && a[k] == b[i];
      var l :| 0 <= l < |a| && a[l] == b[j];
      assert k != l;
    }
  }

  lemma {:induction false} RestIsApart(order: seq<Record>, n: nat, r: Record)
    requires DistinctChecksums(order) && n <= |order| && r in order[n..]
    ensures r.triple.checksum !in Checksums(order[..n])
  {
    var k :| 0 <= k < |order[n..]| && order[n..][k] == r;
    forall e | e in order[..n] ensures e.triple.checksum != r.triple.checksum {
      var i :| 0 <= i < n && order[..n][i] == e;
      assert order[i] == e && order[n + k] == r;
    }
  }

  /** While checksums are pairwise distinct, eviction deletes nothing on the side. */
  lemma {:induction false} DistinctMeansNoCollateral(c: Cache, incoming: int, maxSize: int)
    requires DistinctChecksums(c.records)
    ensures Drift(EnsureSpace(c, incoming, maxSize)) == Drift(c)
  {
    var order, evicted := EvictionOrder(c.records), Evicted(c, incoming, maxSize);
    EvictedIsShortestPrefix(c, incoming, maxSize);
    EvictionOrderPermutes(c.records);
    ChecksumsPermuted(c.records, order);
    var rest := order[|evicted|..];
    forall r | r in rest ensures r.triple.checksum !in Checksums(evicted) {
      RestIsApart(order, |evicted|, r);
    }
    FilterAll(HasChecksum(Checksums(evicted)), rest);
    EvictionDrift(c, incoming, maxSize);
  }

  /** A new transform moves the gap only through its eviction. */
  lemma {:induction false} NewTransformDrift(env: Engines, c: Cache, t: Triple, inputSize: nat, now: int,
                                             maxSize: int)
    ensures Drift(PerformNew(env, c, t, inputSize, now, maxSize).0)
         == Drift(c) + Total(Collateral(c, inputSize, maxSize))
  {
    EvictionDrift(c, inputSize, maxSize);
    if env.run(t).Produced? {
      SumAppend(SizeOf, EnsureSpace(c, inputSize, maxSize).records, [NewRecord(env, t, now)]);
    }
  }

  lemma {:induction false} TwoInOrder(a: Record, b: Record)
    requires IsBinary(a) && IsText(b)
    ensures EvictionOrder([a, b]) == [a, b]
  {
    assert Sort(Older, [b]) == [b];
    assert [a, b][1..] == [b] && [b, a][1..] == [a];
    assert [b][1..] == [];
    assert Insert(Older, a, [b]) == [a, b] || Insert(Older, a, [b]) == [b, a];
    assert Sort(Older, [a, b]) == [a, b] || Sort(Older, [a, b]) == [b, a];
    TwoByClass(a, b, [a, b]);
    TwoByClass(a, b, [b, a]);
  }

  lemma {:induction false} TwoByClass(a: Record, b: Record, s: seq<Record>)
    requires IsBinary(a) && IsText(b) && (s == [a, b] || s == [b, a])
    ensures Filter(IsBinary, s) == [a] && Filter(IsText, s) == [b] && Filter(IsOther, s) == []
  {
    assert s == [s[0]] + [s[1]];
    FilterAppend(IsBinary, [s[0]], [s[1]]);
    FilterAppend(IsText, [s[0]], [s[1]]);
    FilterAppend(IsOther, [s[0]], [s[1]]);
  }

  /** Two engines on one file: evicting the binary also deletes the text's record, whose
      bytes stay counted with no record left. */
  lemma {:induction false} SiblingDeletedUncounted(a: Record, b: Record, files: map<Path, Bytes>)
    requires IsBinary(a) && IsText(b) && a.triple.checksum == b.triple.checksum && a.size > 0
    ensures var c := EnsureSpace(Cache([a, b], files, a.size + b.size), a.size, a.size + b.size);
            c.records == [] && c.counter == b.size
  {
    TwoInOrder(a, b);
    assert [a, b][1..] == [b];
    assert Freeing([b], 0) == [];
    assert Freeing([a, b], a.size) == [a];
    assert Total([a]) == SizeOf(a) + Sum(SizeOf, [a][1..]);
    FilterAll(Not(HasChecksum(Checksums([a]))), [a, b]);
  }

  /** Making room succeeds exactly when the recorded sizes cover the shortfall. */
  lemma {:induction false} EnsureSpaceFits(c: Cache, incoming: int, maxSize: int)
    ensures EnsureSpace(c, incoming, maxSize).counter + incoming <= maxSize
            <==> Total(c.records) >= c.counter + incoming - maxSize
  {
    SumNonNegative(SizeOf, c.records);
    EvictedIsShortestPrefix(c, incoming, maxSize);
    EvictionTotals(c, incoming, maxSize);
    SumNonNegative(SizeOf, EnsureSpace(c, incoming, maxSize).records);
    SumNonNegative(SizeOf, Collateral(c, incoming, maxSize));
    var order, evicted := EvictionOrder(c.records), Evicted(c, incoming, maxSize);
    if c.counter + incoming > maxSize && evicted == order {
      EvictionOrderPermutes(c.records);
      SumPermuted(SizeOf, c.records, order);
    }
  }

  // ---------------------------------------------------------------- bytes on disk

  ghost function Weight(files: map<Path, Bytes>): nat {
    if files == map[] then 0 else
      var p :| p in files;
      |files[p]| + Weight(files - {p})
  }

  lemma {:induction false} BytesWithout(files: map<Path, Bytes>, p: Path)
    requires p in files
    ensures Weight(files) == |files[p]| + Weight(files - {p})
    decreases |files|
  {
    var q :| q in files && Weight(files) == |files[q]| + Weight(files - {q});
    if q != p {
      BytesWithout(files - {q}, p);
      BytesWithout(files - {p}, q);
      assert files - {q} - {p} == files - {p} - {q};
    }
  }

  ghost predicate Within(a: map<Path, Bytes>, b: map<Path, Bytes>) {
    forall p :: p in a ==> p in b && a[p] == b[p]
  }

  lemma {:induction false} BytesWithin(a: map<Path, Bytes>, b: map<Path, Bytes>)
    requires Within(a, b)
    ensures Weight(a) <= Weight(b)
    decreases |a|
  {
    if a != map[] {
      var p :| p in a;
      BytesWithout(a, p);
      BytesWithout(b, p);
      BytesWithin(a - {p}, b - {p});
    }
  }

  ghost predicate Located(records: seq<Record>, p: Path) { exists r :: r in records && r.location == p }

  ghost predicate Measured(records: seq<Record>, files: map<Path, Bytes>) {
    forall r :: r in records && r.location in files ==> r.size == |files[r.location]|
  }

  /** Files that are in `base` or located by a record weigh no more than both together. */
  lemma {:induction false} BytesCovered(files: map<Path, Bytes>, base: map<Path, Bytes>, records: seq<Record>)
    requires Measured(records, files)
    requires forall p :: p in files ==> (p in base && base[p] == files[p]) || Located(records, p)
    ensures Weight(files) <= Weight(base) + Total(records)
    decreases |records|
  {
    if records == [] {
      BytesWithin(files, base);
    } else {
      var r := records[0];
      var rest := files - {r.location};
      forall p | p in rest ensures (p in base && base[p] == rest[p]) || Located(records[1..], p) {
        if Located(records, p) {
          var q :| q in records && q.location == p;
          assert q in records[1..];
        }
      }
      assert Measured(records[1..], rest);
      BytesCovered(rest, base, records[1..]);
      if r.location in files {
        BytesWithout(files, r.location);
      } else {
        assert rest == files;
      }
    }
  }

  ghost function CacheFiles(files: map<Path, Bytes>): map<Path, Bytes> {
    map p | p in files && p.CacheFile? :: files[p]
  }

  /** Cache files that no record locates: left by deletions on the side. */
  ghost function Orphans(c: Cache): map<Path, Bytes> {
    map p | p in c.files && p.CacheFile? && !Located(c.records, p) :: c.files[p]
  }

  // ---------------------------------------------------------------- the invariant

  ghost predicate FileFaithful(env: Engines, t: Triple, p: Path, content: Bytes) {
    env.run(t).Produced? && content == env.run(t).content && p == OutputPath(env, t)
  }

  /** Each cache file is the output of the transform its key stands for, where the engine put it. */
  ghost predicate Faithful(env: Engines, files: map<Path, Bytes>) {
    forall t: Triple, p: Path :: t.Valid() && p in files && p.CacheFile? && p.key == CacheKey(t) ==>
      FileFaithful(env, t, p, files[p])
  }

  ghost predicate RecordFaithful(env: Engines, r: Record) {
    && r.triple.Valid() && env.run(r.triple).Produced?
    && r.size == |env.run(r.triple).content| && r.location == OutputPath(env, r.triple)
    && r.references == env.run(r.triple).references
  }

  ghost predicate RecordsFaithful(env: Engines, records: seq<Record>) {
    forall r :: r in records ==> RecordFaithful(env, r)
  }

  ghost predicate Counted(c: Cache) { c.counter >= Total(c.records) + Weight(Orphans(c)) }

  ghost predicate Sound(env: Engines, c: Cache) {
    Faithful(env, c.files) && RecordsFaithful(env, c.records) && Counted(c)
  }

  lemma {:induction false} SoundIsMeasured(env: Engines, c: Cache)
    requires Faithful(env, c.files) && RecordsFaithful(env, c.records)
    ensures Measured(c.records, c.files)
  {
    forall r | r in c.records && r.location in c.files ensures r.size == |c.files[r.location]| {
      assert FileFaithful(env, r.triple, r.location, c.files[r.location]);
    }
  }

  /** The counter never undercounts: it is at least the recorded sizes and at least the
      bytes of all cache files on disk. */
  lemma {:induction false} CounterCovers(env: Engines, c: Cache)
    requires Sound(env, c)
    ensures c.counter >= Total(c.records) >= 0
    ensures c.counter >= Weight(CacheFiles(c.files))
  {
    SoundIsMeasured(env, c);
    SumNonNegative(SizeOf, c.records);
    BytesCovered(CacheFiles(c.files), Orphans(c), c.records);
  }

  /** Taking files away, or records together with their files, leaves a sound cache sound
      while the counter falls by no more than the records do. */
  lemma {:induction false} ShrinkKeepsSound(env: Engines, c: Cache, d: Cache)
    requires Sound(env, c)
    requires Within(CacheFiles(d.files), c.files)
    requires forall r :: r in d.records ==> RecordFaithful(env, r)
    requires forall p :: p in d.files && p.CacheFile? && Located(c.records, p) ==> Located(d.records, p)
    requires c.counter - d.counter <= Total(c.records) - Total(d.records)
    ensures Sound(env, d)
  {
    assert Within(Orphans(d), Orphans(c)) by {
      forall p | p in Orphans(d) ensures p in Orphans(c) && Orphans(d)[p] == Orphans(c)[p] {
        assert p in CacheFiles(d.files);
      }
    }
    BytesWithin(Orphans(d), Orphans(c));
    forall t: Triple, p: Path | t.Valid() && p in d.files && p.CacheFile? && p.key == CacheKey(t)
      ensures FileFaithful(env, t, p, d.files[p])
    {
      assert p in CacheFiles(d.files);
      assert FileFaithful(env, t, p, c.files[p]);
    }
  }

  // ---------------------------------------------------------------- each step keeps it

  lemma {:induction false} EnsureSpaceKeepsSound(env: Engines, c: Cache, incoming: int, maxSize: int)
    requires Sound(env, c)
    ensures Sound(env, EnsureSpace(c, incoming, maxSize))
  {
    var d := EnsureSpace(c, incoming, maxSize);
    var evicted := Evicted(c, incoming, maxSize);
    if evicted != [] {
      var collateral := Collateral(c, incoming, maxSize);
      EvictionTotals(c, incoming, maxSize);
      FilterMembers(Not(HasChecksum(Checksums(evicted))), c.records);
      OrphansAfterEviction(env, c, incoming, maxSize);
      forall t: Triple, p: Path | t.Valid() && p in d.files && p.CacheFile? && p.key == CacheKey(t)
        ensures FileFaithful(env, t, p, d.files[p])
      {
        assert FileFaithful(env, t, p, c.files[p]);
      }
    }
  }

  /** A record deleted but not evicted is collateral. */
  lemma {:induction false} DeletedIsCollateral(c: Cache, incoming: int, maxSize: int, r: Record)
    requires r in c.records && r !in EnsureSpace(c, incoming, maxSize).records
    ensures r in Evicted(c, incoming, maxSize) || r in Collateral(c, incoming, maxSize)
  {
    var order, evicted := EvictionOrder(c.records), Evicted(c, incoming, maxSize);
    var p := HasChecksum(Checksums(evicted));
    EvictedIsShortestPrefix(c, incoming, maxSize);
    EvictionOrderPermutes(c.records);
    FilterMembers(Not(p), c.records);
    FilterMembers(p, order[|evicted|..]);
    SameMembers(c.records, order, r);
    InFrontOrBehind(order, |evicted|, r);
  }

  lemma {:induction false} SameMembers(a: seq<Record>, b: seq<Record>, r: Record)
    requires multiset(a) == multiset(b) && r in a
    ensures r in b
  {
    assert r in multiset(b);
  }

  lemma {:induction false} InFrontOrBehind(order: seq<Record>, n: nat, r: Record)
    requires n <= |order| && r in order
    ensures r in order[..n] || r in order[n..]
  {
    assert order == order[..n] + order[n..];
  }

  lemma {:induction false} OrphansAfterEviction(env: Engines, c: Cache, incoming: int, maxSize: int)
    requires Sound(env, c) && Evicted(c, incoming, maxSize) != []
    ensures Weight(Orphans(EnsureSpace(c, incoming, maxSize)))
         <= Weight(Orphans(c)) + Total(Collateral(c, incoming, maxSize))
  {
    var d := EnsureSpace(c, incoming, maxSize);
    var evicted, collateral := Evicted(c, incoming, maxSize), Collateral(c, incoming, maxSize);
    CollateralAreRecords(c, incoming, maxSize);
    SoundIsMeasured(env, c);
    forall p | p in Orphans(d)
      ensures (p in Orphans(c) && Orphans(c)[p] == Orphans(d)[p]) || Located(collateral, p)
    {
      if Located(c.records, p) {
        var r :| r in c.records && r.location == p;
        assert r !in d.records;
        DeletedIsCollateral(c, incoming, maxSize, r);
        assert r !in evicted;
      }
    }
    BytesCovered(Orphans(d), Orphans(c), collateral);
  }

  lemma {:induction false} CollateralAreRecords(c: Cache, incoming: int, maxSize: int)
    ensures forall r :: r in Collateral(c, incoming, maxSize) ==> r in c.records
  {
    var order, evicted := EvictionOrder(c.records), Evicted(c, incoming, maxSize);
    EvictedIsShortestPrefix(c, incoming, maxSize);
    EvictionOrderPermutes(c.records);
    FilterMembers(HasChecksum(Checksums(evicted)), order[|evicted|..]);
    forall r | r in Collateral(c, incoming, maxSize) ensures r in c.records {
      assert r in order[|evicted|..];
      assert r in order;
      assert r in multiset(c.records);
    }
  }

  lemma {:induction false} PruneKeepsSound(env: Engines, c: Cache, r: Record)
    requires Sound(env, c) && r in c.records && FileOf(r) in c.files
    ensures Sound(env, PruneStale(c, FileOf(r), r))
  {
    var d := PruneStale(c, FileOf(r), r);
    assert RecordFaithful(env, r) && FileFaithful(env, r.triple, FileOf(r), c.files[FileOf(r)]);
    var p := OfTriple(r.triple);
    SumSplit(SizeOf, p, c.records);
    FilterMembers(p, c.records);
    FilterMembers(Not(p), c.records);
    SumMember(SizeOf, Filter(p, c.records), r);
    SumNonNegative(SizeOf, d.records);
    SoundIsMeasured(env, c);
    CounterCovers(env, c);
    forall q | q in d.files && q.CacheFile? && Located(c.records, q) ensures Located(d.records, q) {
      var x :| x in c.records && x.location == q;
      assert RecordFaithful(env, x) && RecordFaithful(env, r);
      assert x in d.records;
    }
    ShrinkKeepsSound(env, c, d);
  }

  ghost predicate Matching(env: Engines, t: Triple, docs: seq<Record>) {
    forall r :: r in docs ==> r.triple == t && r.location == OutputPath(env, t)
  }

  /** The file looked for: the suffix of a stored extension, "md" when there is none. */
  function SoughtPath(env: Engines, t: Triple): Path {
    var suffix := AfterLast('.', env.extension(t.engine, t.options));
    CacheFile(CacheKey(t), if suffix == "" then "md" else suffix)
  }

  lemma {:induction false} NothingToFind(env: Engines, c: Cache, t: Triple, docs: seq<Record>)
    requires Matching(env, t, docs) && SoughtPath(env, t) !in c.files
    ensures FindCached(env, c, docs) == (c, None)
    decreases |docs|
  {
    if docs != [] {
      assert docs[0] in docs;
      NothingToFind(env, c, t, docs[1..]);
    }
  }

  /** The scan settles on its first document: a hit, one pruning, or nothing. */
  lemma {:induction false} FindCachedOutcome(env: Engines, c: Cache, t: Triple, docs: seq<Record>)
    requires Matching(env, t, docs)
    ensures var (d, found) := FindCached(env, c, docs);
            || (d == c && found == None && (docs == [] || SoughtPath(env, t) !in c.files))
            || (d == c && docs != [] && found == Some(docs[0]) && FileOf(docs[0]) in c.files)
            || (docs != [] && FileOf(docs[0]) in c.files && d == PruneStale(c, FileOf(docs[0]), docs[0])
              && found == None)
  {
    if docs != [] {
      assert docs[0] in docs;
      if FileOf(docs[0]) in c.files {
        if MissingReferences(env, c, FileOf(docs[0]), docs[0]) {
          NothingToFind(env, PruneStale(c, FileOf(docs[0]), docs[0]), t, docs[1..]);
        }
      } else {
        NothingToFind(env, c, t, docs);
      }
    }
  }

  lemma {:induction false} RecordsMatch(env: Engines, c: Cache, t: Triple)
    requires RecordsFaithful(env, c.records)
    ensures Matching(env, t, Filter(OfTriple(t), c.records))
    ensures forall r :: r in Filter(OfTriple(t), c.records) <==> r in c.records && r.triple == t
  {
    FilterMembers(OfTriple(t), c.records);
    forall r | r in Filter(OfTriple(t), c.records) ensures r.triple == t && r.location == OutputPath(env, t) {
      assert RecordFaithful(env, r);
    }
  }

  lemma {:induction false} FindCachedKeepsSound(env: Engines, c: Cache, t: Triple)
    requires Sound(env, c)
    ensures Sound(env, FindCached(env, c, Filter(OfTriple(t), c.records)).0)
  {
    var docs := Filter(OfTriple(t), c.records);
    RecordsMatch(env, c, t);
    FindCachedOutcome(env, c, t, docs);
    if docs != [] && FileOf(docs[0]) in c.files {
      assert docs[0] in docs;
      PruneKeepsSound(env, c, docs[0]);
    }
  }

  lemma {:induction false} TouchKeeps(env: Engines, records: seq<Record>, t: Triple, now: int)
    ensures Total(Touch(records, t, now)) == Total(records)
    ensures RecordsFaithful(env, records) ==> RecordsFaithful(env, Touch(records, t, now))
    ensures forall p :: Located(Touch(records, t, now), p) <==> Located(records, p)
    ensures forall key :: (FindRecord(records, key).Some? <==> FindRecord(Touch(records, t, now), key).Some?)
  {
    if records != [] {
      var r, touched := records[0], Touch(records, t, now);
      if r.triple == t {
        var r' := r.(lastAccessed := now);
        assert touched[1..] == records[1..];
        assert forall x :: x in touched <==> x == r' || x in records[1..];
        assert forall x :: x in records <==> x == r || x in records[1..];
        if RecordsFaithful(env, records) {
          forall x | x in touched ensures RecordFaithful(env, x) {
            assert RecordFaithful(env, if x == r' then r else x);
          }
        }
        forall p ensures Located(touched, p) <==> Located(records, p) {
          if Located(records, p) {
            var x :| x in records && x.location == p;
            assert (if x == r then r' else x) in touched;
          }
          if Located(touched, p) {
            var x :| x in touched && x.location == p;
            assert (if x == r' then r else x) in records;
          }
        }
      } else {
        TouchKeeps(env, records[1..], t, now);
        assert touched[1..] == Touch(records[1..], t, now);
        assert forall x :: x in touched <==> x == r || x in touched[1..];
        assert forall x :: x in records <==> x == r || x in records[1..];
        forall p ensures Located(touched, p) <==> Located(records, p) {
          assert Located(touched[1..], p) <==> Located(records[1..], p);
        }
      }
    }
  }

  lemma {:induction false} TouchKeepsSound(env: Engines, c: Cache, t: Triple, now: int)
    requires Sound(env, c)
    ensures Sound(env, c.(records := Touch(c.records, t, now)))
  {
    TouchKeeps(env, c.records, t, now);
    ShrinkKeepsSound(env, c, c.(records := Touch(c.records, t, now)));
  }

  lemma {:induction false} PerformNewKeepsSound(env: Engines, c: Cache, t: Triple, inputSize: nat, now: int,
                                                maxSize: int)
    requires Sound(env, c) && t.Valid()
    ensures Sound(env, PerformNew(env, c, t, inputSize, now, maxSize).0)
  {
    var c1 := EnsureSpace(c, inputSize, maxSize);
    EnsureSpaceKeepsSound(env, c, inputSize, maxSize);
    if env.run(t).Produced? {
      var d := PerformNew(env, c, t, inputSize, now, maxSize).0;
      var r := NewRecord(env, t, now);
      SumAppend(SizeOf, c1.records, [r]);
      forall p | Located(c1.records, p) ensures Located(d.records, p) {
        var x :| x in c1.records && x.location == p;
        assert x in d.records;
      }
      assert r in d.records;
      assert Located(d.records, OutputPath(env, t));
      assert Within(Orphans(d), Orphans(c1));
      BytesWithin(Orphans(d), Orphans(c1));
      forall u: Triple, p: Path | u.Valid() && p in d.files && p.CacheFile? && p.key == CacheKey(u)
        ensures FileFaithful(env, u, p, d.files[p])
      {
        if p == OutputPath(env, t) {
          CacheKeyInjective(t, u);
        } else {
          assert FileFaithful(env, u, p, c1.files[p]);
        }
      }
    }
  }

  lemma {:induction false} TransformKeepsSound(env: Engines, c: Cache, t: Triple, inputSize: nat, now: int,
                                               maxSize: int)
    requires Sound(env, c) && t.Valid()
    ensures Sound(env, Transform(env, c, t, inputSize, now, maxSize).0)
  {
    var (c1, found) := FindCached(env, c, Filter(OfTriple(t), c.records));
    FindCachedKeepsSound(env, c, t);
    if found.Some? {
      TouchKeepsSound(env, c1, t, now);
    } else {
      PerformNewKeepsSound(env, c1, t, inputSize, now, maxSize);
    }
  }

  lemma {:induction false} FindRecordFinds(records: seq<Record>, key: Key)
    ensures FindRecord(records, key).Some? ==>
              FindRecord(records, key).value in records && CacheKey(FindRecord(records, key).value.triple) == key
    ensures FindRecord(records, key).None? ==> forall r :: r in records ==> CacheKey(r.triple) != key
  {
    if records != [] {
      FindRecordFinds(records[1..], key);
    }
  }

  lemma {:induction false} GetContentKeepsSound(env: Engines, c: Cache, key: Key, now: int)
    requires Sound(env, c)
    ensures Sound(env, GetContent(c, key, now).0)
  {
    var found := FindRecord(c.records, key);
    FindRecordFinds(c.records, key);
    if found.Some? {
      var r := found.value;
      if HasFile(c, key) {
        TouchKeepsSound(env, c, r.triple, now);
      } else {
        var d := GetContent(c, key, now).0;
        var p := OfTriple(r.triple);
        SumSplit(SizeOf, p, c.records);
        SumNonNegative(SizeOf, Filter(p, c.records));
        FilterMembers(Not(p), c.records);
        forall q | q in d.files && q.CacheFile? && Located(c.records, q) ensures Located(d.records, q) {
          var x :| x in c.records && x.location == q;
          assert RecordFaithful(env, x) && RecordFaithful(env, r);
          assert x in d.records;
        }
        ShrinkKeepsSound(env, c, d);
      }
    }
  }

  // ---------------------------------------------------------------- every run

  /** `Lose` removes any files behind the program's back; `Appear` puts a file outside the cache. */
  datatype Action =
    | DoTransform(t: Triple, inputSize: nat, now: int)
    | DoGetContent(key: Key, now: int)
    | Lose(paths: set<Path>)
    | Appear(name: string, content: Bytes)

  predicate Wellformed(a: Action) { a.DoTransform? ==> a.t.Valid() }

  ghost function Step(env: Engines, c: Cache, a: Action, maxSize: int): Cache {
    match a
    case DoTransform(t, inputSize, now) => Transform(env, c, t, inputSize, now, maxSize).0
    case DoGetContent(key, now) => GetContent(c, key, now).0
    case Lose(paths) => c.(files := c.files - paths)
    case Appear(name, content) => c.(files := c.files[Artifact(name) := content])
  }

  ghost function Run(env: Engines, c: Cache, actions: seq<Action>, maxSize: int): Cache
    decreases |actions|
  {
    if actions == [] then c else Run(env, Step(env, c, actions[0], maxSize), actions[1..], maxSize)
  }

  const EMPTY: Cache := Cache([], map[], 0)

  lemma {:induction false} StepKeepsSound(env: Engines, c: Cache, a: Action, maxSize: int)
    requires Sound(env, c) && Wellformed(a)
    ensures Sound(env, Step(env, c, a, maxSize))
  {
    match a
    case DoTransform(t, inputSize, now) => TransformKeepsSound(env, c, t, inputSize, now, maxSize);
    case DoGetContent(key, now) => GetContentKeepsSound(env, c, key, now);
    case Lose(paths) => ShrinkKeepsSound(env, c, c.(files := c.files - paths));
    case Appear(name, content) => ShrinkKeepsSound(env, c, c.(files := c.files[Artifact(name) := content]));
  }

  lemma {:induction false} RunKeepsSound(env: Engines, c: Cache, actions: seq<Action>, maxSize: int)
    requires Sound(env, c)
    requires forall a :: a in actions ==> Wellformed(a)
    ensures Sound(env, Run(env, c, actions, maxSize))
    decreases |actions|
  {
    if actions != [] {
      assert actions[0] in actions;
      StepKeepsSound(env, c, actions[0], maxSize);
      RunKeepsSound(env, Step(env, c, actions[0], maxSize), actions[1..], maxSize);
    }
  }

  /** In every run from an empty cache the counter is at least the recorded sizes and at
      least the bytes of all cache files, so no subtraction takes it below zero. */
  lemma {:induction false} CounterCoversEveryRun(env: Engines, actions: seq<Action>, maxSize: int)
    requires forall a :: a in actions ==> Wellformed(a)
    ensures var c := Run(env, EMPTY, actions, maxSize);
            c.counter >= Total(c.records) >= 0 && c.counter >= Weight(CacheFiles(c.files))
  {
    EmptyIsSound(env);
    RunKeepsSound(env, EMPTY, actions, maxSize);
    CounterCovers(env, Run(env, EMPTY, actions, maxSize));
  }

  lemma {:induction false} EmptyIsSound(env: Engines)
    ensures Sound(env, EMPTY)
  {
    assert Orphans(EMPTY) == map[];
  }

  // ---------------------------------------------------------------- agreement with the engines

  lemma {:induction false} HitHasFile(env: Engines, c: Cache, t: Triple, inputSize: nat, now: int, maxSize: int)
    requires Sound(env, c) && t.Valid()
    requires Transform(env, c, t, inputSize, now, maxSize).1.Ok?
    ensures var d := Transform(env, c, t, inputSize, now, maxSize).0;
            HasFile(d, CacheKey(t)) && FindRecord(d.records, CacheKey(t)).Some?
  {
    var docs := Filter(OfTriple(t), c.records);
    var (c1, found) := FindCached(env, c, docs);
    var d := Transform(env, c, t, inputSize, now, maxSize).0;
    RecordsMatch(env, c, t);
    FindCachedOutcome(env, c, t, docs);
    FindRecordFinds(d.records, CacheKey(t));
    if found.Some? {
      assert docs[0] in docs;
      assert FileOf(docs[0]) in d.files;
      FindRecordFinds(c.records, CacheKey(t));
      TouchKeeps(env, c.records, t, now);
    } else {
      assert OutputPath(env, t) in d.files;
      var r := NewRecord(env, t, now);
      assert r in d.records;
    }
  }

  /** A transform succeeds exactly when its engine does, hit or miss, and the content request
      that follows with the returned key reads the engine's output. */
  lemma {:induction false} TransformThenGetContent(env: Engines, c: Cache, t: Triple, inputSize: nat, now: int,
                                                   later: int, maxSize: int)
    requires Sound(env, c) && t.Valid()
    ensures var (d, result) := Transform(env, c, t, inputSize, now, maxSize);
            && (result.Ok? <==> env.run(t).Produced?)
            && (result.Ok? ==> result.value.key == CacheKey(t)
                               && GetContent(d, result.value.key, later).1 == Opened(env.run(t).content))
  {
    var (d, result) := Transform(env, c, t, inputSize, now, maxSize);
    var docs := Filter(OfTriple(t), c.records);
    RecordsMatch(env, c, t);
    FindCachedOutcome(env, c, t, docs);
    if FindCached(env, c, docs).1.Some? {
      assert docs[0] in docs;
      assert RecordFaithful(env, docs[0]);
    }
    if result.Ok? {
      TransformKeepsSound(env, c, t, inputSize, now, maxSize);
      HitHasFile(env, c, t, inputSize, now, maxSize);
      ResolvedIsFaithful(env, d, t, FindRecord(d.records, CacheKey(t)).value);
    }
  }

  lemma {:induction false} ResolvedIsFaithful(env: Engines, c: Cache, t: Triple, r: Record)
    requires Faithful(env, c.files) && t.Valid() && HasFile(c, CacheKey(t))
    ensures ResolveFile(c, CacheKey(t), r) in c.files
    ensures FileFaithful(env, t, ResolveFile(c, CacheKey(t), r), c.files[ResolveFile(c, CacheKey(t), r)])
  {
    var p := ResolveFile(c, CacheKey(t), r);
    assert p in c.files && p.CacheFile? && p.key == CacheKey(t);
  }

  /** A content request never returns anything but the text of the output of the transform
      its key names. */
  lemma {:induction false} GetContentNeverLies(env: Engines, c: Cache, key: Key, now: int)
    requires Sound(env, c) && GetContent(c, key, now).1.Ok?
    ensures exists t: Triple :: t.Valid() && CacheKey(t) == key && env.run(t).Produced?
              && ReadText(env.run(t).content) == Some(GetContent(c, key, now).1.value)
  {
    FindRecordFinds(c.records, key);
    var r := FindRecord(c.records, key).value;
    assert RecordFaithful(env, r);
    ResolvedIsFaithful(env, c, r.triple, r);
  }

  /** Asking for the content of a transform: transform, then read under the returned key. */
  ghost function Ask(env: Engines, c: Cache, t: Triple, inputSize: nat, now: int, later: int, maxSize: int)
    : Result<string>
  {
    var (d, result) := Transform(env, c, t, inputSize, now, maxSize);
    if result.Ok? then GetContent(d, result.value.key, later).1 else Err(result.error)
  }

  /** In every run, hit or miss, the cache agrees with running the engine and reading what it
      wrote: the content is given exactly when the engine produces an output that is UTF-8. */
  lemma {:induction false} CacheIsTransparent(env: Engines, actions: seq<Action>, t: Triple, inputSize: nat,
                                              now: int, later: int, maxSize: int)
    requires t.Valid() && forall a :: a in actions ==> Wellformed(a)
    ensures var c := Run(env, EMPTY, actions, maxSize);
            var asked := Ask(env, c, t, inputSize, now, later, maxSize);
            && (Transform(env, c, t, inputSize, now, maxSize).1.Ok? <==> env.run(t).Produced?)
            && (asked.Ok? <==> env.run(t).Produced? && exists s :: env.run(t).content == Encode(s))
            && (asked.Ok? ==> Some(asked.value) == ReadText(env.run(t).content))
  {
    EmptyIsSound(env);
    RunKeepsSound(env, EMPTY, actions, maxSize);
    TransformThenGetContent(env, Run(env, EMPTY, actions, maxSize), t, inputSize, now, later, maxSize);
    if env.run(t).Produced? {
      DecodesExactly(env.run(t).content);
    }
  }

  /** A text an engine writes comes back with its line ends read as line feeds: unchanged
      exactly when it holds no carriage return. */
  lemma {:induction false} TextComesBack(env: Engines, c: Cache, t: Triple, text: string, inputSize: nat,
                                         now: int, later: int, maxSize: int)
    requires Sound(env, c) && t.Valid() && env.run(t).Produced? && env.run(t).content == Encode(text)
    ensures var asked := Ask(env, c, t, inputSize, now, later, maxSize);
            asked == Ok(LineFeeds(text)) && (asked == Ok(text) <==> '\r' !in text)
  {
    TransformThenGetContent(env, c, t, inputSize, now, later, maxSize);
    WrittenTextExactly(text);
  }

  /** An engine that copies its input: the transform of an input that is not UTF-8 succeeds,
      is recorded and stored, and cannot be read back. */
  lemma {:induction false} CopiedBinaryUnreadable(env: Engines, c: Cache, t: Triple, input: Bytes, now: int,
                                                  later: int, maxSize: int)
    requires Sound(env, c) && t.Valid()
    requires env.run(t) == Produced(input, map[], []) && forall s :: Encode(s) != input
    ensures var (d, result) := Transform(env, c, t, |input|, now, maxSize);
            && result.Ok? && FindRecord(d.records, result.value.key).Some? && HasFile(d, result.value.key)
            && GetContent(d, result.value.key, later).1.Err?
  {
    TransformThenGetContent(env, c, t, |input|, now, later, maxSize);
    HitHasFile(env, c, t, |input|, now, maxSize);
    DecodesExactly(input);
  }

  /** Such an input: the byte 255 stands in no UTF-8 text. */
  lemma {:induction false} OneByteUnreadable(s: string)
    ensures Encode(s) != [255]
  {
    DecodesExactly([255]);
  }

  /** Room is made for the input, but the output is what is added: after a new transform
      the counter exceeds the limit by at most the growth from input to output, exactly when
      the recorded sizes covered the shortfall. */
  lemma {:induction false} NewTransformBound(env: Engines, c: Cache, t: Triple, inputSize: nat, now: int,
                                             maxSize: int)
    requires env.run(t).Produced?
    ensures PerformNew(env, c, t, inputSize, now, maxSize).0.counter
              <= maxSize + (|env.run(t).content| - inputSize)
            <==> Total(c.records) >= c.counter + inputSize - maxSize
  {
    EnsureSpaceFits(c, inputSize, maxSize);
  }

  /** An output whose references, or Markdown images, are no longer all there. */
  ghost predicate StaleOutput(env: Engines, c: Cache, t: Triple)
    requires env.run(t).Produced?
  {
    if env.run(t).references != []
    then exists ref :: ref in env.run(t).references && ref.FileReference? && ref.path !in c.files
    else AfterLast('.', env.extension(t.engine, t.options)) == "md"
         && exists p :: p in env.markdownFiles(env.run(t).content) && p !in c.files
  }

  /** Repeating a transform is a hit exactly when the engine's extension is one a stored
      file is sought under (not empty, no dot) and the output is not stale. */
  lemma {:induction false} RepeatHitsExactly(env: Engines, c: Cache, t: Triple, inputSize: nat, now: int,
                          inputSize': nat, now': int, maxSize: int)
    requires Sound(env, c) && t.Valid() && env.run(t).Produced?
    ensures var d := Transform(env, c, t, inputSize, now, maxSize).0;
            var again := Transform(env, d, t, inputSize', now', maxSize).1;
            again.Ok? && (again.value.hit <==> SoughtPath(env, t) == OutputPath(env, t) && !StaleOutput(env, d, t))
  {
    var d := Transform(env, c, t, inputSize, now, maxSize).0;
    TransformThenGetContent(env, c, t, inputSize, now, now', maxSize);
    TransformKeepsSound(env, c, t, inputSize, now, maxSize);
    HitHasFile(env, c, t, inputSize, now, maxSize);
    OutputIsThere(env, d, t);
    var docs := Filter(OfTriple(t), d.records);
    RecordsMatch(env, d, t);
    FindRecordFinds(d.records, CacheKey(t));
    var r := FindRecord(d.records, CacheKey(t)).value;
    assert RecordFaithful(env, r);
    CacheKeyInjective(t, r.triple);
    assert r in docs && docs[0] in docs;
    assert RecordFaithful(env, docs[0]);
    if SoughtPath(env, t) == OutputPath(env, t) {
      assert MissingReferences(env, d, FileOf(docs[0]), docs[0]) <==> StaleOutput(env, d, t);
      if StaleOutput(env, d, t) {
        FindCachedOutcome(env, d, t, docs);
        NothingToFind(env, PruneStale(d, FileOf(docs[0]), docs[0]), t, docs[1..]);
      }
    } else {
      SoughtIsOutput(env, d, t);
      NothingToFind(env, d, t, docs);
    }
  }

  lemma {:induction false} SoughtIsOutput(env: Engines, c: Cache, t: Triple)
    requires Faithful(env, c.files) && t.Valid()
    ensures SoughtPath(env, t) in c.files ==> SoughtPath(env, t) == OutputPath(env, t)
  {
    var p := SoughtPath(env, t);
    if p in c.files {
      assert FileFaithful(env, t, p, c.files[p]);
    }
  }

  lemma {:induction false} OutputIsThere(env: Engines, c: Cache, t: Triple)
    requires Faithful(env, c.files) && t.Valid() && HasFile(c, CacheKey(t))
    ensures env.run(t).Produced? && OutputPath(env, t) in c.files && c.files[OutputPath(env, t)] == env.run(t).content
  {
    var p :| p in c.files && p.CacheFile? && p.key == CacheKey(t);
    assert FileFaithful(env, t, p, c.files[p]);
  }
}
