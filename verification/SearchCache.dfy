/** The search runtime's memory of index contents, keyed by a fingerprint of the
    collection (document count and newest id), together with the stores that
    write the collection behind its back. */
module SearchCache {
  import opened Options

  /** A document without the id the database gives it. */
  datatype Fields<B> = Fields(index: string, embeddingModel: string, uri: string, body: B)

  datatype Doc<B> = Doc(id: nat, fields: Fields<B>)

  /** An equality filter; an absent field constrains nothing. */
  datatype Query = Query(index: Option<string>, embeddingModel: Option<string>, uri: Option<string>)

  predicate Matches<B>(q: Query, f: Fields<B>) {
    && (q.index.Some? ==> f.index == q.index.value)
    && (q.embeddingModel.Some? ==> f.embeddingModel == q.embeddingModel.value)
    && (q.uri.Some? ==> f.uri == q.uri.value)
  }

  function Select<B>(q: Query, docs: seq<Doc<B>>): seq<Doc<B>> {
    if docs == [] then []
    else (if Matches(q, docs[0].fields) then [docs[0]] else []) + Select(q, docs[1..])
  }

  function Without<B>(q: Query, docs: seq<Doc<B>>): seq<Doc<B>> {
    if docs == [] then []
    else (if Matches(q, docs[0].fields) then [] else [docs[0]]) + Without(q, docs[1..])
  }

  /** The documents as inserted, with consecutive fresh ids. */
  function Numbered<B>(start: nat, fields: seq<Fields<B>>): seq<Doc<B>> {
    seq(|fields|, i requires 0 <= i < |fields| => Doc(start + i, fields[i]))
  }

  /** `get_all`: the matching documents in collection order, ids projected away. */
  function Contents<B>(docs: seq<Doc<B>>): seq<Fields<B>> {
    seq(|docs|, i requires 0 <= i < |docs| => docs[i].fields)
  }

  datatype Fingerprint = Fingerprint(count: nat, newestId: Option<nat>)

  function MaxId<B>(docs: seq<Doc<B>>): Option<nat> {
    if docs == [] then None
    else
      var rest := MaxId(docs[1..]);
      if rest.Some? && rest.value > docs[0].id then rest else Some(docs[0].id)
  }

  function FingerprintOf<B>(docs: seq<Doc<B>>): Fingerprint {
    Fingerprint(|docs|, MaxId(docs))
  }

  /** What the runtime keeps per key; the derived search structures are functions of `contents`. */
  datatype IndexState<B> = IndexState(fingerprint: Fingerprint, contents: seq<Fields<B>>)

  function StateOf<B>(docs: seq<Doc<B>>): IndexState<B> {
    IndexState(FingerprintOf(docs), Contents(docs))
  }

  /** What rebuilding the state for a key from the collection gives. */
  function Fresh<B>(q: Query, docs: seq<Doc<B>>): IndexState<B> { StateOf(Select(q, docs)) }

  ghost predicate Ordered<B>(docs: seq<Doc<B>>, nextId: nat) {
    && (forall i, j :: 0 <= i < j < |docs| ==> docs[i].id < docs[j].id)
    && (forall d :: d in docs ==> d.id < nextId)
  }

  // ---------------------------------------------------------------- filters keep the order

  lemma {:induction false} SelectOrdered<B(!new)>(q: Query, docs: seq<Doc<B>>, nextId: nat)
    requires Ordered(docs, nextId)
    ensures Ordered(Select(q, docs), nextId)
    ensures forall d :: d in Select(q, docs) <==> d in docs && Matches(q, d.fields)
  {
    if docs != [] {
      SelectOrdered(q, docs[1..], nextId);
      var rest := Select(q, docs[1..]);
      forall j | 0 <= j < |rest| ensures docs[0].id < rest[j].id {
        assert rest[j] in docs[1..];
      }
    }
  }

  lemma {:induction false} WithoutOrdered<B(!new)>(q: Query, docs: seq<Doc<B>>, nextId: nat)
    requires Ordered(docs, nextId)
    ensures Ordered(Without(q, docs), nextId)
    ensures forall d :: d in Without(q, docs) <==> d in docs && !Matches(q, d.fields)
  {
    if docs != [] {
      WithoutOrdered(q, docs[1..], nextId);
      var rest := Without(q, docs[1..]);
      forall j | 0 <= j < |rest| ensures docs[0].id < rest[j].id {
        assert rest[j] in docs[1..];
      }
    }
  }

  lemma {:induction false} MaxIdIsLast<B(!new)>(docs: seq<Doc<B>>, nextId: nat)
    requires Ordered(docs, nextId)
    ensures MaxId(docs) == if docs == [] then None else Some(docs[|docs| - 1].id)
  {
    if |docs| > 1 {
      MaxIdIsLast(docs[1..], nextId);
    }
  }

  lemma {:induction false} BeforeTheLast<B(!new)>(b: seq<Doc<B>>, d: Doc<B>, e: Doc<B>, nextId: nat)
    requires Ordered(b, nextId) && d in b && e in b && d.id < e.id
    ensures d in b[..|b| - 1]
  {
    var k :| 0 <= k < |b| && b[k] == d;
    var l :| 0 <= l < |b| && b[l] == e;
    assert k < |b| - 1 && b[..|b| - 1][k] == d;
  }

  /** Of two ascending sequences of equal length, one contained in the other, both are the same. */
  lemma {:induction false} SameLengthSubsequence<B(!new)>(a: seq<Doc<B>>, b: seq<Doc<B>>, nextId: nat)
    requires Ordered(a, nextId) && Ordered(b, nextId)
    requires (forall d :: d in a ==> d in b) && |b| <= |a|
    ensures a == b
  {
    if a != [] {
      var n, m := |a| - 1, |b| - 1;
      assert a[n] in b;
      forall d | d in a[..n] ensures d in b[..m] {
        var i :| 0 <= i < n && a[i] == d;
        BeforeTheLast(b, d, a[n], nextId);
      }
      SameLengthSubsequence(a[..n], b[..m], nextId);
      forall k | 0 <= k < m ensures b[k].id < a[n].id {
        assert b[k] == b[..m][k] == a[..n][k];
      }
      var l :| 0 <= l < |b| && b[l] == a[n];
      assert l == m;
    } else {
      assert b == [];
    }
  }

  // ---------------------------------------------------------------- the history argument

  /** `snapshot` was read for q earlier: whatever still matches q with an id up to the
      snapshot's newest one was already there. */
  ghost predicate Tracks<B>(q: Query, snapshot: seq<Doc<B>>, docs: seq<Doc<B>>, nextId: nat) {
    && Ordered(docs, nextId) && Ordered(snapshot, nextId)
    && forall d :: d in docs && Matches(q, d.fields) && snapshot != [] && d.id <= snapshot[|snapshot| - 1].id
         ==> d in snapshot
  }

  lemma {:induction false} SnapshotTracks<B(!new)>(q: Query, docs: seq<Doc<B>>, nextId: nat)
    requires Ordered(docs, nextId)
    ensures Tracks(q, Select(q, docs), docs, nextId)
  {
    SelectOrdered(q, docs, nextId);
  }

  function Replaced<B>(q: Query, docs: seq<Doc<B>>, nextId: nat, inserted: seq<Fields<B>>): seq<Doc<B>> {
    Without(q, docs) + Numbered(nextId, inserted)
  }

  lemma {:induction false} ReplaceKeepsTracking<B(!new)>(w: Query, inserted: seq<Fields<B>>,
                                q: Query, snapshot: seq<Doc<B>>, docs: seq<Doc<B>>, nextId: nat)
    requires Tracks(q, snapshot, docs, nextId)
    ensures Tracks(q, snapshot, Replaced(w, docs, nextId, inserted), nextId + |inserted|)
  {
    WithoutOrdered(w, docs, nextId);
    var fresh' := Numbered(nextId, inserted);
    forall d | d in fresh' ensures nextId <= d.id < nextId + |inserted| {
    }
    assert Ordered(Replaced(w, docs, nextId, inserted), nextId + |inserted|);
    if snapshot != [] {
      assert snapshot[|snapshot| - 1] in snapshot;
    }
  }

  /** Equal count and equal newest id force the live documents to be the remembered ones. */
  lemma {:induction false} EqualFingerprints<B(!new)>(q: Query, snapshot: seq<Doc<B>>, docs: seq<Doc<B>>, nextId: nat)
    requires Tracks(q, snapshot, docs, nextId)
    requires FingerprintOf(Select(q, docs)) == FingerprintOf(snapshot)
    ensures Select(q, docs) == snapshot
  {
    var live := Select(q, docs);
    SelectOrdered(q, docs, nextId);
    MaxIdIsLast(live, nextId);
    MaxIdIsLast(snapshot, nextId);
    forall d | d in live ensures d in snapshot {
      NotAfterLast(live, d, nextId);
    }
    SameLengthSubsequence(live, snapshot, nextId);
  }

  lemma {:induction false} NotAfterLast<B(!new)>(docs: seq<Doc<B>>, d: Doc<B>, nextId: nat)
    requires Ordered(docs, nextId) && d in docs
    ensures d.id <= docs[|docs| - 1].id
  {
    var i :| 0 <= i < |docs| && docs[i] == d;
  }

  // ---------------------------------------------------------------- every run

  type Memory<B> = map<Query, IndexState<B>>

  ghost predicate Remembers<B(!new)>(q: Query, state: IndexState<B>, docs: seq<Doc<B>>, nextId: nat) {
    exists snapshot: seq<Doc<B>> :: Tracks(q, snapshot, docs, nextId) && state == StateOf(snapshot)
  }

  /** Each remembered state was once read in one step and the collection has only moved on since. */
  ghost predicate Coherent<B(!new)>(memory: Memory<B>, docs: seq<Doc<B>>, nextId: nat) {
    Ordered(docs, nextId) && forall q :: q in memory ==> Remembers(q, memory[q], docs, nextId)
  }

  function Answer<B(==)>(memory: Memory<B>, q: Query, docs: seq<Doc<B>>): IndexState<B> {
    if q in memory && memory[q].fingerprint == FingerprintOf(Select(q, docs)) then memory[q] else Fresh(q, docs)
  }

  /** A lookup answered from memory is what rebuilding would give. */
  lemma {:induction false} AnswerIsFresh<B(!new)>(memory: Memory<B>, q: Query, docs: seq<Doc<B>>, nextId: nat)
    requires Coherent(memory, docs, nextId)
    ensures Answer(memory, q, docs) == Fresh(q, docs)
  {
    if q in memory && memory[q].fingerprint == FingerprintOf(Select(q, docs)) {
      assert Remembers(q, memory[q], docs, nextId);
      var snapshot: seq<Doc<B>> :| Tracks(q, snapshot, docs, nextId) && memory[q] == StateOf(snapshot);
      EqualFingerprints(q, snapshot, docs, nextId);
    }
  }

  lemma {:induction false} LookupKeepsCoherent<B(!new)>(memory: Memory<B>, q: Query, docs: seq<Doc<B>>, nextId: nat)
    requires Coherent(memory, docs, nextId)
    ensures Coherent(memory[q := Answer(memory, q, docs)], docs, nextId)
  {
    AnswerIsFresh(memory, q, docs, nextId);
    SnapshotTracks(q, docs, nextId);
    assert Remembers(q, Fresh(q, docs), docs, nextId);
  }

  lemma {:induction false} ReplaceKeepsCoherent<B(!new)>(memory: Memory<B>, w: Query, docs: seq<Doc<B>>,
                                                  nextId: nat, inserted: seq<Fields<B>>)
    requires Coherent(memory, docs, nextId)
    ensures Coherent(memory, Replaced(w, docs, nextId, inserted), nextId + |inserted|)
  {
    ReplaceKeepsTracking(w, inserted, Query(None, None, None), [], docs, nextId);
    forall q | q in memory ensures Remembers(q, memory[q], Replaced(w, docs, nextId, inserted), nextId + |inserted|) {
      assert Remembers(q, memory[q], docs, nextId);
      var snapshot: seq<Doc<B>> :| Tracks(q, snapshot, docs, nextId) && memory[q] == StateOf(snapshot);
      ReplaceKeepsTracking(w, inserted, q, snapshot, docs, nextId);
    }
  }

  /** Replacing by uri or by index and model, and clearing (nothing inserted), are all `Replace`. */
  datatype Action<B> = Replace(filter: Query, inserted: seq<Fields<B>>) | Lookup(key: Query) | Forget

  datatype System<B> = System(docs: seq<Doc<B>>, nextId: nat, memory: Memory<B>)

  function Step<B(==)>(s: System<B>, a: Action<B>): System<B> {
    match a
    case Replace(w, inserted) =>
      s.(docs := Replaced(w, s.docs, s.nextId, inserted), nextId := s.nextId + |inserted|)
    case Lookup(q) => s.(memory := s.memory[q := Answer(s.memory, q, s.docs)])
    case Forget => s.(memory := map[])
  }

  function Run<B(==)>(s: System<B>, actions: seq<Action<B>>): System<B>
    decreases |actions|
  {
    if actions == [] then s else Run(Step(s, actions[0]), actions[1..])
  }

  lemma {:induction false} RunKeepsCoherent<B(!new)>(s: System<B>, actions: seq<Action<B>>)
    requires Coherent(s.memory, s.docs, s.nextId)
    ensures var t := Run(s, actions); Coherent(t.memory, t.docs, t.nextId)
    decreases |actions|
  {
    if actions != [] {
      match actions[0] {
        case Replace(w, inserted) => ReplaceKeepsCoherent(s.memory, w, s.docs, s.nextId, inserted);
        case Lookup(q) => LookupKeepsCoherent(s.memory, q, s.docs, s.nextId);
        case Forget =>
      }
      RunKeepsCoherent(Step(s, actions[0]), actions[1..]);
    }
  }

  /** In every run from an empty memory, every lookup equals a rebuild. */
  lemma {:induction false} EveryLookupIsFresh<B(!new)>(docs: seq<Doc<B>>, nextId: nat, actions: seq<Action<B>>,
                                                q: Query)
    requires Ordered(docs, nextId)
    ensures var t := Run(System(docs, nextId, map[]), actions);
            Answer(t.memory, q, t.docs) == Fresh(q, t.docs)
  {
    RunKeepsCoherent(System(docs, nextId, map[]), actions);
    var t := Run(System(docs, nextId, map[]), actions);
    AnswerIsFresh(t.memory, q, t.docs, t.nextId);
  }

  // ---------------------------------------------------------------- the torn read

  lemma {:induction false} RunKeepsTracking<B(!new)>(s: System<B>, actions: seq<Action<B>>, q: Query,
                                              snapshot: seq<Doc<B>>)
    requires Tracks(q, snapshot, s.docs, s.nextId)
    ensures var t := Run(s, actions); Tracks(q, snapshot, t.docs, t.nextId)
    decreases |actions|
  {
    if actions != [] {
      match actions[0] {
        case Replace(w, inserted) => ReplaceKeepsTracking(w, inserted, q, snapshot, s.docs, s.nextId);
        case Lookup(_) =>
        case Forget =>
      }
      RunKeepsTracking(Step(s, actions[0]), actions[1..], q, snapshot);
    }
  }

  /** The live documents have the fingerprint that was put together of one count and a later newest
      id: they are as many as were counted, all among those of the second read, with its newest. */
  predicate LooksLike<B(==)>(live: seq<Doc<B>>, count: nat, second: seq<Doc<B>>) {
    && |live| == count && (forall d :: d in live ==> d in second)
    && (second != [] ==> second[|second| - 1] in live)
  }

  lemma {:induction false} LooksLikeExactly<B(!new)>(q: Query, count: nat, second: seq<Doc<B>>, docs: seq<Doc<B>>,
                                               nextId: nat)
    requires Tracks(q, second, docs, nextId)
    ensures FingerprintOf(Select(q, docs)) == Fingerprint(count, MaxId(second))
      <==> LooksLike(Select(q, docs), count, second)
  {
    var live := Select(q, docs);
    SelectOrdered(q, docs, nextId);
    MaxIdIsLast(live, nextId);
    MaxIdIsLast(second, nextId);
    if MaxId(live) == MaxId(second) {
      SameNewest(q, second, docs, nextId);
    } else if LooksLike(live, count, second) {
      NewestIsLast(live, second, nextId);
    }
  }

  lemma {:induction false} SameNewest<B(!new)>(q: Query, second: seq<Doc<B>>, docs: seq<Doc<B>>, nextId: nat)
    requires Tracks(q, second, docs, nextId) && MaxId(Select(q, docs)) == MaxId(second)
    ensures LooksLike(Select(q, docs), |Select(q, docs)|, second)
  {
    var live := Select(q, docs);
    SelectOrdered(q, docs, nextId);
    MaxIdIsLast(live, nextId);
    MaxIdIsLast(second, nextId);
    forall d | d in live ensures d in second {
      NotAfterLast(live, d, nextId);
    }
    if second != [] {
      assert live[|live| - 1] in second;
      var i :| 0 <= i < |second| && second[i] == live[|live| - 1];
      assert i == |second| - 1;
    }
  }

  lemma {:induction false} NewestIsLast<B(!new)>(live: seq<Doc<B>>, second: seq<Doc<B>>, nextId: nat)
    requires Ordered(live, nextId) && Ordered(second, nextId) && LooksLike(live, |live|, second)
    ensures MaxId(live) == MaxId(second)
  {
    MaxIdIsLast(live, nextId);
    MaxIdIsLast(second, nextId);
    assert live != [] ==> live[0] in second;
    if second != [] {
      NotAfterLast(live, second[|second| - 1], nextId);
      NotAfterLast(second, live[|live| - 1], nextId);
    }
  }

  /** When nothing is written between the count and the newest id, only the documents then read
      look like that. */
  lemma {:induction false} UndividedLooksLikeItself<B(!new)>(live: seq<Doc<B>>, first: seq<Doc<B>>, nextId: nat)
    requires Ordered(live, nextId) && Ordered(first, nextId)
    ensures LooksLike(live, |first|, first) <==> live == first
  {
    if LooksLike(live, |first|, first) {
      SameLengthSubsequence(live, first, nextId);
    }
  }

  /** The runtime counts the documents, then asks for the newest id, then reads the documents, with
      no lock on the database in between; this is what it stores. */
  function Torn<B>(q: Query, counted: seq<Doc<B>>, newest: seq<Doc<B>>, read: seq<Doc<B>>): IndexState<B> {
    IndexState(Fingerprint(|Select(q, counted)|, MaxId(Select(q, newest))), Contents(Select(q, read)))
  }

  lemma {:induction false} LaterTracks<B(!new)>(s: System<B>, before: seq<Action<B>>, after: seq<Action<B>>, q: Query)
    requires Ordered(s.docs, s.nextId)
    ensures var m := Run(s, before); var t := Run(m, after); Tracks(q, Select(q, m.docs), t.docs, t.nextId)
  {
    RunKeepsTracking(s, before, q, []);
    var m := Run(s, before);
    SnapshotTracks(q, m.docs, m.nextId);
    RunKeepsTracking(m, after, q, Select(q, m.docs));
  }

  /** Whatever writers do between the three reads: what is stored is right exactly when the
      documents read look like the fingerprint. */
  lemma {:induction false} TornReadExactly<B(!new)>(s: System<B>, counting: seq<Action<B>>,
                                             reading: seq<Action<B>>, q: Query)
    requires Ordered(s.docs, s.nextId)
    ensures var m := Run(s, counting);
            var t := Run(m, reading);
            Torn(q, s.docs, m.docs, t.docs) == Fresh(q, t.docs)
            <==> LooksLike(Select(q, t.docs), |Select(q, s.docs)|, Select(q, m.docs))
  {
    var m := Run(s, counting);
    var t := Run(m, reading);
    LaterTracks(s, counting, reading, q);
    LooksLikeExactly(q, |Select(q, s.docs)|, Select(q, m.docs), t.docs, t.nextId);
  }

  lemma {:induction false} RunAppend<B>(s: System<B>, x: seq<Action<B>>, y: seq<Action<B>>)
    ensures Run(s, x + y) == Run(Run(s, x), y)
    decreases |x|
  {
    if x == [] {
      assert x + y == y;
    } else {
      assert (x + y)[1..] == x[1..] + y;
      RunAppend(Step(s, x[0]), x[1..], y);
    }
  }

  /** And what is answered later, whatever writers do between the reads and after them: a lookup is
      right exactly when the live documents do not look like the fingerprint, or have the contents
      that were read. */
  lemma {:induction false} TornAnswerExactly<B(!new)>(s: System<B>, counting: seq<Action<B>>, reading: seq<Action<B>>,
                                               later: seq<Action<B>>, q: Query)
    requires Ordered(s.docs, s.nextId)
    ensures var m := Run(s, counting);
            var t := Run(m, reading);
            var u := Run(t, later);
            var live := Select(q, u.docs);
            Answer(map[q := Torn(q, s.docs, m.docs, t.docs)], q, u.docs) == Fresh(q, u.docs)
            <==> !LooksLike(live, |Select(q, s.docs)|, Select(q, m.docs))
                 || Contents(live) == Contents(Select(q, t.docs))
  {
    var m := Run(s, counting);
    var t := Run(m, reading);
    var u := Run(t, later);
    RunAppend(m, reading, later);
    LaterTracks(s, counting, reading + later, q);
    LooksLikeExactly(q, |Select(q, s.docs)|, Select(q, m.docs), u.docs, u.nextId);
  }

  /** A document added between the count and the newest id, and one removed later: the memory
      still answers with both. */
  lemma {:induction false} TornCountGoesStale<B(!new)>(gone: Fields<B>, added: Fields<B>, q: Query, w: Query)
    requires Matches(q, gone) && Matches(q, added) && Matches(w, gone) && !Matches(w, added)
    ensures var counted := [Doc(0, gone)];
            var read := counted + Numbered(1, [added]);
            var after := Replaced(w, read, 2, []);
            && Answer(map[q := Torn(q, counted, read, read)], q, after).contents == [gone, added]
            && Fresh(q, after).contents == [added]
  {
    var counted, last := [Doc(0, gone)], [Doc(1, added)];
    var read := counted + Numbered(1, [added]);
    assert Numbered(1, [added]) == last && read == [Doc(0, gone), Doc(1, added)];
    assert read[1..] == last && last[1..] == [];
    assert Without(w, last) == last && Without(w, read) == last;
    var none: seq<Fields<B>> := [];
    assert Numbered(2, none) == [];
    assert Replaced(w, read, 2, []) == last;
    assert Select(q, last) == last && Select(q, read) == [Doc(0, gone)] + last;
    assert counted[1..] == [] && Select(q, counted) == counted;
    assert MaxId(last) == Some(1) && MaxId(read) == Some(1);
    assert Contents(read) == [gone, added] && Contents(last) == [added];
  }

  /** A torn read can go stale for good: a writer adds a document between the fingerprint and the
      documents and removes it afterwards; the next lookup finds its fingerprint and returns the
      document that is gone. */
  lemma {:induction false} TornReadGoesStale<B(!new)>(kept: Fields<B>, passing: Fields<B>, q: Query, w: Query)
    requires Matches(q, kept) && Matches(q, passing) && Matches(w, passing) && !Matches(w, kept)
    ensures var before := [Doc(0, kept)];
            var during := Replaced(w, before, 1, [passing]);
            var after := Replaced(w, during, 2, []);
            && Answer(map[q := Torn(q, before, before, during)], q, after).contents == [kept, passing]
            && Fresh(q, after).contents == [kept]
  {
    var before := [Doc(0, kept)];
    var during := Replaced(w, before, 1, [passing]);
    assert Without(w, before) == before;
    assert Numbered(1, [passing]) == [Doc(1, passing)];
    assert during == [Doc(0, kept), Doc(1, passing)];
    assert during[1..] == [Doc(1, passing)];
    assert Without(w, during[1..]) == [];
    var none: seq<Fields<B>> := [];
    assert Numbered(2, none) == [];
    assert Replaced(w, during, 2, []) == before;
    assert Select(q, before) == before;
    assert Select(q, during[1..]) == during[1..];
    assert Select(q, during) == during;
    assert Contents(during) == [kept, passing];
    assert Contents(before) == [kept];
  }
}
