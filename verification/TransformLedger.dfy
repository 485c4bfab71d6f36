/** The byte counter over whole runs: exact while every transform brings a checksum not recorded, and
    too high for good once two engines have transformed the same content. */
module TransformLedger {
  import opened Sorting
  import opened Utf8
  import opened TransformCache
  import opened TransformSafety

  /** Every content transformed is one that no record has at that moment; it may have been there
      before and evicted since. Files come and go in between. */
  ghost predicate Fresh(env: Engines, c: Cache, actions: seq<Action>, maxSize: int)
    decreases |actions|
  {
    actions == [] || (IsFresh(c, actions[0]) && Fresh(env, Step(env, c, actions[0], maxSize), actions[1..], maxSize))
  }

  ghost predicate IsFresh(c: Cache, a: Action) {
    match a
    case DoTransform(t, _, _) => t.checksum !in Checksums(c.records)
    case DoGetContent(_, _) => false
    case _ => true
  }

  ghost predicate Balanced(c: Cache, seen: set<string>) {
    Drift(c) == 0 && DistinctChecksums(c.records) && Checksums(c.records) <= seen
  }

  lemma {:induction false} FilterDistinct(p: Record -> bool, records: seq<Record>)
    requires DistinctChecksums(records)
    ensures DistinctChecksums(Filter(p, records)) && Checksums(Filter(p, records)) <= Checksums(records)
  {
    FilterMembers(p, records);
    if records != [] {
      var rest := Filter(p, records[1..]);
      FilterDistinct(p, records[1..]);
      FilterMembers(p, records[1..]);
      forall j | 0 <= j < |rest| ensures rest[j].triple.checksum != records[0].triple.checksum {
        assert rest[j] in records[1..];
        var k :| 0 <= k < |records[1..]| && records[1..][k] == rest[j];
        assert records[k + 1] == rest[j];
      }
    }
  }

  lemma {:induction false} SpaceStaysBalanced(c: Cache, incoming: int, maxSize: int, seen: set<string>)
    requires Balanced(c, seen)
    ensures Balanced(EnsureSpace(c, incoming, maxSize), seen)
  {
    DistinctMeansNoCollateral(c, incoming, maxSize);
    FilterDistinct(Not(HasChecksum(Checksums(Evicted(c, incoming, maxSize)))), c.records);
  }

  lemma {:induction false} AdditionStaysBalanced(c: Cache, r: Record, files: map<Path, Bytes>, seen: set<string>)
    requires Balanced(c, seen) && r.triple.checksum !in seen
    ensures Balanced(Cache(c.records + [r], files, c.counter + r.size), seen + {r.triple.checksum})
  {
    SumAppend(SizeOf, c.records, [r]);
    assert Total([r]) == SizeOf(r) + Sum(SizeOf, [r][1..]);
    forall i | 0 <= i < |c.records| ensures c.records[i].triple.checksum != r.triple.checksum {
      assert c.records[i] in c.records;
      assert c.records[i].triple.checksum in Checksums(c.records);
    }
  }

  lemma {:induction false} NewContentIsAdded(env: Engines, c: Cache, t: Triple, inputSize: nat, now: int,
                                             maxSize: int)
    requires t.checksum !in Checksums(c.records)
    ensures Transform(env, c, t, inputSize, now, maxSize) == PerformNew(env, c, t, inputSize, now, maxSize)
  {
    FilterAll(OfTriple(t), c.records);
  }

  lemma {:induction false} StepStaysBalanced(env: Engines, c: Cache, a: Action, maxSize: int)
    requires Balanced(c, Checksums(c.records)) && IsFresh(c, a)
    ensures var d := Step(env, c, a, maxSize); Balanced(d, Checksums(d.records))
  {
    if a.DoTransform? {
      var seen := Checksums(c.records);
      NewContentIsAdded(env, c, a.t, a.inputSize, a.now, maxSize);
      SpaceStaysBalanced(c, a.inputSize, maxSize, seen);
      if env.run(a.t).Produced? {
        var d := PerformNew(env, c, a.t, a.inputSize, a.now, maxSize).0;
        AdditionStaysBalanced(EnsureSpace(c, a.inputSize, maxSize), NewRecord(env, a.t, a.now), d.files, seen);
      }
    }
  }

  lemma {:induction false} RunStaysBalanced(env: Engines, c: Cache, actions: seq<Action>, maxSize: int)
    requires Balanced(c, Checksums(c.records)) && Fresh(env, c, actions, maxSize)
    ensures Drift(Run(env, c, actions, maxSize)) == 0
    decreases |actions|
  {
    if actions != [] {
      StepStaysBalanced(env, c, actions[0], maxSize);
      RunStaysBalanced(env, Step(env, c, actions[0], maxSize), actions[1..], maxSize);
    }
  }

  /** Over every run of transforms of contents not recorded at the time, with their evictions,
      from an empty cache, whatever files are lost meanwhile, the counter equals the recorded sizes. */
  lemma {:induction false} CounterExactOverRuns(env: Engines, actions: seq<Action>, maxSize: int)
    requires Fresh(env, EMPTY, actions, maxSize)
    ensures Run(env, EMPTY, actions, maxSize).counter == Total(Run(env, EMPTY, actions, maxSize).records)
  {
    RunStaysBalanced(env, EMPTY, actions, maxSize);
  }

  // ---------------------------------------------------------------- two engines on one content

  ghost predicate Reachable(env: Engines, maxSize: int, c: Cache) {
    exists actions :: (forall a :: a in actions ==> Wellformed(a)) && Run(env, EMPTY, actions, maxSize) == c
  }

  lemma {:induction false} RunAppend(env: Engines, c: Cache, actions: seq<Action>, a: Action, maxSize: int)
    ensures Run(env, c, actions + [a], maxSize) == Step(env, Run(env, c, actions, maxSize), a, maxSize)
    decreases |actions|
  {
    var all := actions + [a];
    if actions == [] {
      assert all == [a] && all[1..] == [];
      assert Run(env, c, all, maxSize) == Run(env, Step(env, c, a, maxSize), [], maxSize);
    } else {
      assert all[0] == actions[0] && all[1..] == actions[1..] + [a];
      RunAppend(env, Step(env, c, actions[0], maxSize), actions[1..], a, maxSize);
    }
  }

  lemma {:induction false} ReachableStep(env: Engines, maxSize: int, c: Cache, a: Action)
    requires Reachable(env, maxSize, c) && Wellformed(a)
    ensures Reachable(env, maxSize, Step(env, c, a, maxSize))
  {
    var actions :| (forall x :: x in actions ==> Wellformed(x)) && Run(env, EMPTY, actions, maxSize) == c;
    RunAppend(env, EMPTY, actions, a, maxSize);
    assert forall x :: x in actions + [a] ==> x in actions || x == a;
  }

  lemma {:induction false} EmptyReachable(env: Engines, maxSize: int)
    ensures Reachable(env, maxSize, EMPTY)
  {
    assert Run(env, EMPTY, [], maxSize) == EMPTY;
  }

  /** One more record, while there is room for an input of no size. */
  lemma {:induction false} AddRecord(env: Engines, maxSize: int, c: Cache, t: Triple) returns (d: Cache)
    requires Reachable(env, maxSize, c) && t.Valid() && env.run(t).Produced? && c.counter <= maxSize
    requires forall r :: r in c.records ==> r.triple != t
    ensures Reachable(env, maxSize, d)
    ensures d.records == c.records + [NewRecord(env, t, 0)] && d.counter == c.counter + |env.run(t).content|
  {
    FilterAll(OfTriple(t), c.records);
    d := Step(env, c, DoTransform(t, 0, 0), maxSize);
    ReachableStep(env, maxSize, c, DoTransform(t, 0, 0));
  }

  /** A transform that fails still makes room. */
  lemma {:induction false} FailedTransform(env: Engines, maxSize: int, c: Cache, t: Triple, inputSize: nat)
    returns (d: Cache)
    requires Reachable(env, maxSize, c) && t.Valid() && env.run(t).Failed?
    requires forall r :: r in c.records ==> r.triple != t
    ensures Reachable(env, maxSize, d) && d == EnsureSpace(c, inputSize, maxSize)
  {
    FilterAll(OfTriple(t), c.records);
    d := Step(env, c, DoTransform(t, inputSize, 0), maxSize);
    ReachableStep(env, maxSize, c, DoTransform(t, inputSize, 0));
  }

  lemma {:induction false} StoredAs(env: Engines, t: Triple, u: Triple)
    requires env.run(t).Produced? && env.run(u).Produced?
    requires env.extension(t.engine, t.options) == "bin" && env.extension(u.engine, u.options) == "txt"
    ensures IsBinary(NewRecord(env, t, 0)) && IsText(NewRecord(env, u, 0))
  {
  }

  /** With two engines on one content, some run leaves no record and a counter above zero: the
      eviction of the binary takes the text's record along. */
  lemma {:induction false} SiblingsLeaveBytesCounted(env: Engines, t: Triple, u: Triple, other: Triple)
    returns (c: Cache)
    requires t.Valid() && u.Valid() && other.Valid()
    requires t.checksum == u.checksum && t != u && other != t && other != u
    requires env.extension(t.engine, t.options) == "bin" && env.extension(u.engine, u.options) == "txt"
    requires env.run(t).Produced? && env.run(u).Produced? && env.run(other).Failed?
    requires |env.run(t).content| > 0 && |env.run(u).content| > 0
    ensures Reachable(env, |env.run(t).content| + |env.run(u).content|, c)
    ensures c.records == [] && c.counter == |env.run(u).content| > 0
  {
    var a, b := NewRecord(env, t, 0), NewRecord(env, u, 0);
    var maxSize := a.size + b.size;
    EmptyReachable(env, maxSize);
    var c1 := AddRecord(env, maxSize, EMPTY, t);
    assert c1.records == [a];
    var c2 := AddRecord(env, maxSize, c1, u);
    assert c2.records == [a, b];
    StoredAs(env, t, u);
    c := SiblingsEvicted(env, maxSize, c2, a, b, other);
  }

  lemma {:induction false} SiblingsEvicted(env: Engines, maxSize: int, c: Cache, a: Record, b: Record, other: Triple)
    returns (d: Cache)
    requires Reachable(env, maxSize, c)
    requires other.Valid() && env.run(other).Failed? && a.triple != other && b.triple != other
    requires IsBinary(a) && IsText(b) && a.triple.checksum == b.triple.checksum && a.size > 0
    requires c.records == [a, b] && c.counter == maxSize == a.size + b.size
    ensures Reachable(env, maxSize, d) && d.records == [] && d.counter == b.size
  {
    d := FailedTransform(env, maxSize, c, other, a.size);
    SiblingSpace(c, a, b);
  }

  lemma {:induction false} SiblingSpace(c: Cache, a: Record, b: Record)
    requires IsBinary(a) && IsText(b) && a.triple.checksum == b.triple.checksum && a.size > 0
    requires c.records == [a, b] && c.counter == a.size + b.size
    ensures EnsureSpace(c, a.size, c.counter).records == [] && EnsureSpace(c, a.size, c.counter).counter == b.size
  {
    assert c == Cache([a, b], c.files, a.size + b.size);
    SiblingDeletedUncounted(a, b, c.files);
  }
}
