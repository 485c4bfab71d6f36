/** What every run of syncs keeps, and what the cap leaves. */
module MonitorRetention {
  import opened Options
  import opened Sorting
  import opened Monitor

  function Run(rs: seq<Request>): State {
    if rs == [] then State([], 0) else Sync(Run(rs[..|rs| - 1]), rs[|rs| - 1])
  }

  function Count(p: Doc -> bool, docs: seq<Doc>): nat { |Filter(p, docs)| }

  // ---------------------------------------------------------------- counting

  lemma {:induction false} CountFilter(p: Doc -> bool, q: Doc -> bool, s: seq<Doc>)
    ensures Count(p, Filter(q, s)) <= Count(p, s)
  {
    if s != [] {
      CountFilter(p, q, s[1..]);
      assert Filter(q, s) == if q(s[0]) then [s[0]] + Filter(q, s[1..]) else Filter(q, s[1..]);
      assert ([s[0]] + Filter(q, s[1..]))[1..] == Filter(q, s[1..]);
    }
  }

  lemma {:induction false} CountSnoc(p: Doc -> bool, s: seq<Doc>, d: Doc)
    ensures Count(p, s + [d]) == Count(p, s) + if p(d) then 1 else 0
  {
    FilterAppend(p, s, [d]);
    assert [d][1..] == [];
  }

  lemma {:induction false} CountSetFirst(p: Doc -> bool, set': Doc -> Doc, q: Doc -> bool, s: seq<Doc>)
    requires forall d :: p(d) ==> q(set'(d)) == q(d)
    ensures Count(q, SetFirst(p, set', s)) == Count(q, s)
  {
    if s != [] {
      if p(s[0]) {
        assert ([set'(s[0])] + s[1..])[1..] == s[1..];
      } else {
        CountSetFirst(p, set', q, s[1..]);
        assert ([s[0]] + SetFirst(p, set', s[1..]))[1..] == SetFirst(p, set', s[1..]);
      }
    }
  }

  lemma {:induction false} CountMember(p: Doc -> bool, s: seq<Doc>, d: Doc)
    requires d in s && p(d)
    ensures Count(p, s) >= 1
  {
    FilterMembers(p, s);
  }

  lemma {:induction false} FilterAgree(p: Doc -> bool, q: Doc -> bool, s: seq<Doc>)
    requires forall i :: 0 <= i < |s| ==> p(s[i]) == q(s[i])
    ensures Filter(p, s) == Filter(q, s)
  {
    if s != [] {
      FilterAgree(p, q, s[1..]);
    }
  }

  lemma {:induction false} FilterCommutes(p: Doc -> bool, q: Doc -> bool, s: seq<Doc>)
    ensures Filter(p, Filter(q, s)) == Filter(q, Filter(p, s))
  {
    if s != [] {
      FilterCommutes(p, q, s[1..]);
      var a, b := Filter(p, s[1..]), Filter(q, s[1..]);
      assert ([s[0]] + a)[1..] == a && ([s[0]] + b)[1..] == b;
    }
  }

  // ---------------------------------------------------------------- what every run keeps

  /** Identifiers given so far are below the next one, and the meta record is the document
      with the meta identifier. */
  predicate Numbered(s: State) {
    forall i :: 0 <= i < |s.docs| ==>
      (s.docs[i].id.ObjectId? ==> s.docs[i].id.n < s.nextId) && (s.docs[i].isMeta <==> s.docs[i].id == MetaId)
  }

  /** At most one document with this identifier and at most one with this local URI. */
  predicate Single(docs: seq<Doc>, id: Id, uri: string) {
    Count(HasId(id), docs) <= 1 && Count(HasUri(uri), docs) <= 1
  }

  predicate Healthy(s: State, id: Id, uri: string) { Numbered(s) && Single(s.docs, id, uri) }

  lemma {:induction false} FilterHealthy(s: State, p: Doc -> bool, id: Id, uri: string)
    requires Healthy(s, id, uri)
    ensures Healthy(s.(docs := Filter(p, s.docs)), id, uri)
  {
    CountFilter(HasId(id), p, s.docs);
    CountFilter(HasUri(uri), p, s.docs);
    FilterMembers(p, s.docs);
    var kept := Filter(p, s.docs);
    forall i | 0 <= i < |kept| ensures kept[i] in s.docs {
      assert kept[i] in kept;
    }
  }

  lemma {:induction false} SetFirstNumbered(p: Doc -> bool, set': Doc -> Doc, s: State)
    requires Numbered(s) && forall d :: p(d) ==>
      set'(d).id == d.id && (set'(d).isMeta <==> d.isMeta || d.id == MetaId)
    ensures Numbered(s.(docs := SetFirst(p, set', s.docs)))
    decreases |s.docs|
  {
    if s.docs != [] {
      var rest := s.(docs := s.docs[1..]);
      assert Numbered(rest);
      SetFirstNumbered(p, set', rest);
    }
  }

  lemma {:induction false} UpsertHealthy(s: State, at: string, priority: real, content: string, id: Id, uri: string)
    requires Healthy(s, id, uri)
    ensures Healthy(UpsertFile(s, at, priority, content), id, uri)
  {
    if Filter(HasUri(at), s.docs) != [] {
      CountSetFirst(HasUri(at), Synced(at, priority, content), HasId(id), s.docs);
      CountSetFirst(HasUri(at), Synced(at, priority, content), HasUri(uri), s.docs);
      UpsertNumbered(s, at, priority, content);
    } else {
      var d := Doc(ObjectId(s.nextId), Some(at), Some(priority), false, content);
      CountSnoc(HasId(id), s.docs, d);
      CountSnoc(HasUri(uri), s.docs, d);
      FreshId(s);
    }
  }

  lemma {:induction false} FreshId(s: State)
    requires Numbered(s)
    ensures Count(HasId(ObjectId(s.nextId)), s.docs) == 0
  {
    FilterAll(HasId(ObjectId(s.nextId)), s.docs);
  }

  lemma {:induction false} UpsertNumbered(s: State, at: string, priority: real, content: string)
    requires Numbered(s)
    ensures Numbered(s.(docs := SetFirst(HasUri(at), Synced(at, priority, content), s.docs)))
    decreases |s.docs|
  {
    if s.docs != [] {
      var rest := s.(docs := s.docs[1..]);
      assert Numbered(rest);
      UpsertNumbered(rest, at, priority, content);
    }
  }

  lemma {:induction false} MetaHealthy(s: State, time: string, id: Id, uri: string)
    requires Healthy(s, id, uri)
    ensures Healthy(s.(docs := UpsertMeta(s.docs, time)), id, uri)
  {
    if Filter(HasId(MetaId), s.docs) != [] {
      CountSetFirst(HasId(MetaId), Stamped(time), HasId(id), s.docs);
      CountSetFirst(HasId(MetaId), Stamped(time), HasUri(uri), s.docs);
      SetFirstNumbered(HasId(MetaId), Stamped(time), s);
    } else {
      CountSnoc(HasId(id), s.docs, Doc(MetaId, None, None, true, time));
      CountSnoc(HasUri(uri), s.docs, Doc(MetaId, None, None, true, time));
    }
  }

  lemma {:induction false} FilesHealthy(s: State, files: seq<File>, minPriority: real, id: Id, uri: string)
    requires Healthy(s, id, uri)
    ensures Healthy(SyncFiles(s, files, minPriority).state, id, uri)
  {
    if files != [] {
      var before, f := files[..|files| - 1], files[|files| - 1];
      FilesHealthy(s, before, minPriority, id, uri);
      var t := SyncFiles(s, before, minPriority).state;
      FilterHealthy(t, Not(HasUri(f.uri)), id, uri);
      if f.outcome.Readable? {
        UpsertHealthy(t, f.uri, f.outcome.priority, f.outcome.content, id, uri);
      }
    }
  }

  lemma {:induction false} EnforcedHealthy(s: State, limits: Limits, id: Id, uri: string)
    requires Healthy(s, id, uri)
    ensures Healthy(s.(docs := Enforced(s.docs, limits)), id, uri)
  {
    FilterHealthy(s, Not(Below(limits.minPriority)), id, uri);
    var t := s.(docs := AtLeast(s.docs, limits.minPriority));
    FilterHealthy(t, Not(IdIn(Extras(t.docs, limits.maxDocuments))), id, uri);
  }

  lemma {:induction false} SyncHealthy(s: State, r: Request, id: Id, uri: string)
    requires Healthy(s, id, uri)
    ensures Healthy(Sync(s, r), id, uri)
  {
    match r
    case Foreign =>
    case Missing(at) => FilterHealthy(s, Not(HasUri(at)), id, uri);
    case Existing(files, limits, time) =>
      FilesHealthy(s, files, limits.minPriority, id, uri);
      var t := SyncFiles(s, files, limits.minPriority).state;
      EnforcedHealthy(t, limits, id, uri);
      MetaHealthy(t.(docs := Enforced(t.docs, limits)), time, id, uri);
  }

  lemma {:induction false} RunHealthy(rs: seq<Request>, id: Id, uri: string)
    ensures Healthy(Run(rs), id, uri)
  {
    if rs != [] {
      RunHealthy(rs[..|rs| - 1], id, uri);
      SyncHealthy(Run(rs[..|rs| - 1]), rs[|rs| - 1], id, uri);
    }
  }

  lemma {:induction false} MetaCount(s: State)
    requires Numbered(s)
    ensures Count(IsMetaDoc(), s.docs) == Count(HasId(MetaId), s.docs)
  {
    FilterAgree(IsMetaDoc(), HasId(MetaId), s.docs);
  }

  /** Over every run: one record per local URI, one per identifier, one meta record. */
  lemma {:induction false} RunKeepsRecordsSingle(rs: seq<Request>, id: Id, uri: string)
    ensures Single(Run(rs).docs, id, uri) && Count(IsMetaDoc(), Run(rs).docs) <= 1
  {
    RunHealthy(rs, id, uri);
    RunHealthy(rs, MetaId, uri);
    MetaCount(Run(rs));
  }

  // ---------------------------------------------------------------- the cap

  ghost predicate UniqueIds(docs: seq<Doc>) { forall id :: Count(HasId(id), docs) <= 1 }

  lemma {:induction false} RankIsTotal()
    ensures TotalPreorder(RankLeq())
  {
    var leq := RankLeq();
    assert forall x, y :: leq(x, y) == Before(x, y);
    assert forall x, y :: Before(x, y) || Before(y, x);
  }

  /** With identifiers all different, the front of a list holds none of the identifiers
      behind it. */
  lemma {:induction false} NoVictimBehind(front: seq<Doc>, back: seq<Doc>, d: Doc)
    requires Count(HasId(d.id), front + back) <= 1 && d in back
    ensures !IdIn(front)(d)
  {
    FilterAppend(HasId(d.id), front, back);
    CountMember(HasId(d.id), back, d);
    if IdIn(front)(d) {
      var i :| 0 <= i < |front| && front[i].id == d.id;
      CountMember(HasId(d.id), front, front[i]);
    }
  }

  lemma {:induction false} CutFront(front: seq<Doc>, back: seq<Doc>)
    requires UniqueIds(front + back)
    ensures Filter(Not(IdIn(front)), front + back) == back
  {
    var p := Not(IdIn(front));
    FilterAppend(p, front, back);
    forall d | d in front ensures !p(d) {
      var i :| 0 <= i < |front| && front[i] == d;
    }
    forall d | d in back ensures p(d) {
      NoVictimBehind(front, back, d);
    }
    FilterAll(p, front);
    FilterAll(p, back);
  }

  lemma {:induction false} SortedUnique(docs: seq<Doc>)
    requires UniqueIds(docs)
    ensures UniqueIds(Sort(RankLeq(), docs))
  {
    SortMultiset(RankLeq(), docs);
    forall id ensures Count(HasId(id), Sort(RankLeq(), docs)) <= 1 {
      FilterPermuted(HasId(id), Sort(RankLeq(), docs), docs);
      assert |multiset(Filter(HasId(id), Sort(RankLeq(), docs)))| == Count(HasId(id), Sort(RankLeq(), docs));
      assert |multiset(Filter(HasId(id), docs))| == Count(HasId(id), docs);
    }
  }

  lemma {:induction false} FilterUnique(p: Doc -> bool, docs: seq<Doc>)
    requires UniqueIds(docs)
    ensures UniqueIds(Filter(p, docs))
  {
    forall id ensures Count(HasId(id), Filter(p, docs)) <= 1 {
      CountFilter(HasId(id), p, docs);
    }
  }

  /** The nodes the cap leaves are the highest ranked ones, as many as fit. */
  lemma {:induction false} CapKeepsTop(docs: seq<Doc>, maxDocuments: int)
    requires UniqueIds(docs)
    ensures var nodes := Filter(IsNode(), docs);
      var extra := |Extras(docs, maxDocuments)|;
      && extra <= |nodes| == |Sort(RankLeq(), nodes)|
      && extra == (if maxDocuments <= 0 || |nodes| <= maxDocuments then 0 else |nodes| - maxDocuments)
      && multiset(Filter(IsNode(), Filter(Not(IdIn(Extras(docs, maxDocuments))), docs)))
        == multiset(Sort(RankLeq(), nodes)[extra..])
  {
    var nodes, victims := Filter(IsNode(), docs), Extras(docs, maxDocuments);
    var sorted, p := Sort(RankLeq(), nodes), Not(IdIn(victims));
    FilterUnique(IsNode(), docs);
    SortedUnique(nodes);
    SortMultiset(RankLeq(), nodes);
    assert sorted == sorted[..|victims|] + sorted[|victims|..];
    assert victims == sorted[..|victims|];
    CutFront(victims, sorted[|victims|..]);
    FilterCommutes(IsNode(), p, docs);
    FilterPermuted(p, sorted, nodes);
  }

  lemma {:induction false} CapCount(docs: seq<Doc>, maxDocuments: int)
    requires UniqueIds(docs)
    ensures var n := Count(IsNode(), docs);
      Count(IsNode(), Filter(Not(IdIn(Extras(docs, maxDocuments))), docs))
        == if maxDocuments <= 0 || n <= maxDocuments then n else maxDocuments
  {
    CapKeepsTop(docs, maxDocuments);
    var left := Filter(IsNode(), Filter(Not(IdIn(Extras(docs, maxDocuments))), docs));
    assert |multiset(left)| == |left|;
    var top := Sort(RankLeq(), Filter(IsNode(), docs))[|Extras(docs, maxDocuments)|..];
    assert |multiset(top)| == |top|;
  }

  /** A missing priority ranks below every other. */
  predicate NotAbove(low: Option<real>, high: Option<real>) {
    match low
    case None => true
    case Some(x) => high.Some? && x <= high.value
  }

  /** No node the cap drops outranks one that it leaves. */
  lemma {:induction false} CapDropsLowest(docs: seq<Doc>, maxDocuments: int, dropped: Doc, survivor: Doc)
    requires UniqueIds(docs)
    requires dropped in docs && survivor in docs && !dropped.isMeta && !survivor.isMeta
    requires IdIn(Extras(docs, maxDocuments))(dropped) && !IdIn(Extras(docs, maxDocuments))(survivor)
    ensures NotAbove(dropped.priority, survivor.priority)
  {
    var nodes, victims := Filter(IsNode(), docs), Extras(docs, maxDocuments);
    var sorted := Sort(RankLeq(), nodes);
    FilterMembers(IsNode(), docs);
    FilterUnique(IsNode(), docs);
    SortedUnique(nodes);
    SortMembers(RankLeq(), nodes);
    SortMultiset(RankLeq(), nodes);
    RankIsTotal();
    SortSorted(RankLeq(), nodes);
    var back := sorted[|victims|..];
    assert sorted == victims + back;
    if dropped in back {
      NoVictimBehind(victims, back, dropped);
    }
    FrontBeforeBack(sorted, |victims|, dropped, survivor);
  }

  lemma {:induction false} FrontBeforeBack(sorted: seq<Doc>, n: nat, dropped: Doc, survivor: Doc)
    requires Sorted(RankLeq(), sorted) && n <= |sorted| && dropped in sorted && survivor in sorted
    requires dropped !in sorted[n..] && !IdIn(sorted[..n])(survivor)
    ensures Before(dropped, survivor)
  {
    assert forall k :: n <= k < |sorted| ==> sorted[k] in sorted[n..];
    assert forall k :: 0 <= k < n ==> sorted[..n][k] == sorted[k] && IdIn(sorted[..n])(sorted[k]);
    var i :| 0 <= i < |sorted| && sorted[i] == dropped;
    var j :| 0 <= j < |sorted| && sorted[j] == survivor;
    assert i < n <= j;
  }

  /** The cap never touches the meta record. */
  lemma {:induction false} CapSparesMeta(docs: seq<Doc>, maxDocuments: int, d: Doc)
    requires UniqueIds(docs) && d in docs && d.isMeta
    ensures !IdIn(Extras(docs, maxDocuments))(d)
  {
    var nodes, victims := Filter(IsNode(), docs), Extras(docs, maxDocuments);
    SortMultiset(RankLeq(), nodes);
    if IdIn(victims)(d) {
      var i :| 0 <= i < |victims| && victims[i].id == d.id;
      SortMembers(RankLeq(), nodes);
      assert victims[i] in Sort(RankLeq(), nodes);
      FilterMembers(IsNode(), docs);
      TwoWithId(docs, d, victims[i]);
    }
  }

  lemma {:induction false} TwoWithId(docs: seq<Doc>, d: Doc, e: Doc)
    requires d in docs && e in docs && d != e && d.id == e.id
    ensures Count(HasId(d.id), docs) >= 2
  {
    if docs[0] == d || docs[0] == e {
      var other := if docs[0] == d then e else d;
      assert other in docs[1..];
      CountMember(HasId(d.id), docs[1..], other);
    } else {
      TwoWithId(docs[1..], d, e);
    }
  }

  // ---------------------------------------------------------------- after a sync

  lemma {:induction false} CollectedUnique(rs: seq<Request>, files: seq<File>, limits: Limits)
    ensures UniqueIds(AtLeast(SyncFiles(Run(rs), files, limits.minPriority).state.docs, limits.minPriority))
    ensures Numbered(SyncFiles(Run(rs), files, limits.minPriority).state)
  {
    var t := SyncFiles(Run(rs), files, limits.minPriority).state;
    forall id ensures Count(HasId(id), t.docs) <= 1 {
      RunHealthy(rs, id, "");
      FilesHealthy(Run(rs), files, limits.minPriority, id, "");
    }
    RunHealthy(rs, MetaId, "");
    FilesHealthy(Run(rs), files, limits.minPriority, MetaId, "");
    FilterUnique(Not(Below(limits.minPriority)), t.docs);
  }

  lemma {:induction false} MetaAddsNoNode(s: State, time: string)
    requires Numbered(s)
    ensures Count(IsNode(), UpsertMeta(s.docs, time)) == Count(IsNode(), s.docs)
    ensures Count(IsMetaDoc(), UpsertMeta(s.docs, time)) >= 1
  {
    if Filter(HasId(MetaId), s.docs) != [] {
      FilterAgree(IsMetaDoc(), HasId(MetaId), s.docs);
      StampCounts(s.docs, time);
    } else {
      CountSnoc(IsNode(), s.docs, Doc(MetaId, None, None, true, time));
      CountSnoc(IsMetaDoc(), s.docs, Doc(MetaId, None, None, true, time));
    }
  }

  lemma {:induction false} StampCounts(docs: seq<Doc>, time: string)
    requires forall i :: 0 <= i < |docs| && docs[i].id == MetaId ==> docs[i].isMeta
    ensures Count(IsNode(), SetFirst(HasId(MetaId), Stamped(time), docs)) == Count(IsNode(), docs)
    ensures Count(IsMetaDoc(), SetFirst(HasId(MetaId), Stamped(time), docs)) == Count(IsMetaDoc(), docs)
  {
    if docs != [] {
      var first, rest := docs[0], docs[1..];
      if first.id == MetaId {
        assert ([Stamped(time)(first)] + rest)[1..] == rest;
      } else {
        StampCounts(rest, time);
        var t := SetFirst(HasId(MetaId), Stamped(time), rest);
        assert ([first] + t)[1..] == t;
      }
    }
  }

  /** After a sync of an existing path there is one meta record, and the cap leaves exactly as
      many nodes as fit. */
  lemma {:induction false} SyncRetainsExactly(rs: seq<Request>, files: seq<File>, limits: Limits, time: string)
    ensures var after := Run(rs + [Existing(files, limits, time)]).docs;
      var n := Count(IsNode(), AtLeast(SyncFiles(Run(rs), files, limits.minPriority).state.docs, limits.minPriority));
      && Count(IsMetaDoc(), after) == 1
      && Count(IsNode(), after)
        == if limits.maxDocuments <= 0 || n <= limits.maxDocuments then n else limits.maxDocuments
  {
    var r := Existing(files, limits, time);
    assert (rs + [r])[..|rs|] == rs;
    var t := SyncFiles(Run(rs), files, limits.minPriority).state;
    CollectedUnique(rs, files, limits);
    CapCount(AtLeast(t.docs, limits.minPriority), limits.maxDocuments);
    RunHealthy(rs, MetaId, "");
    FilesHealthy(Run(rs), files, limits.minPriority, MetaId, "");
    EnforcedHealthy(t, limits, MetaId, "");
    MetaAddsNoNode(t.(docs := Enforced(t.docs, limits)), time);
    RunKeepsRecordsSingle(rs + [r], MetaId, "");
  }

  lemma {:induction false} MetaKeepsNodes(docs: seq<Doc>, time: string, d: Doc)
    requires !d.isMeta && forall i :: 0 <= i < |docs| && docs[i].id == MetaId ==> docs[i].isMeta
    ensures d in UpsertMeta(docs, time) <==> d in docs
  {
    if Filter(HasId(MetaId), docs) != [] {
      StampKeepsNodes(docs, time, d);
    }
  }

  lemma {:induction false} StampKeepsNodes(docs: seq<Doc>, time: string, d: Doc)
    requires !d.isMeta && forall i :: 0 <= i < |docs| && docs[i].id == MetaId ==> docs[i].isMeta
    ensures d in SetFirst(HasId(MetaId), Stamped(time), docs) <==> d in docs
  {
    if docs != [] {
      var first, rest := docs[0], docs[1..];
      assert d in docs <==> d == first || d in rest;
      if first.id == MetaId {
        assert d in [Stamped(time)(first)] + rest <==> d in rest;
      } else {
        StampKeepsNodes(rest, time, d);
        assert d in [first] + SetFirst(HasId(MetaId), Stamped(time), rest)
          <==> d == first || d in SetFirst(HasId(MetaId), Stamped(time), rest);
      }
    }
  }

  /** After a sync, a surviving node with a stored priority meets a positive floor, and no
      node that met the floor and was dropped outranks it. */
  lemma {:induction false} SyncKeepsHighest(rs: seq<Request>, files: seq<File>, limits: Limits, time: string,
                                            dropped: Doc, survivor: Doc)
    requires survivor in Run(rs + [Existing(files, limits, time)]).docs && !survivor.isMeta
    ensures limits.minPriority > 0.0 && survivor.priority.Some? ==> survivor.priority.value >= limits.minPriority
    ensures dropped in AtLeast(SyncFiles(Run(rs), files, limits.minPriority).state.docs, limits.minPriority)
      && !dropped.isMeta && dropped !in Run(rs + [Existing(files, limits, time)]).docs
      ==> NotAbove(dropped.priority, survivor.priority)
  {
    var r := Existing(files, limits, time);
    assert (rs + [r])[..|rs|] == rs;
    var t := SyncFiles(Run(rs), files, limits.minPriority).state;
    var collected, left := AtLeast(t.docs, limits.minPriority), Enforced(t.docs, limits);
    CollectedUnique(rs, files, limits);
    RunHealthy(rs, MetaId, "");
    FilesHealthy(Run(rs), files, limits.minPriority, MetaId, "");
    EnforcedHealthy(t, limits, MetaId, "");
    MetaKeepsNodes(left, time, survivor);
    EnforcedExactly(t.docs, limits, survivor);
    FilterMembers(Not(Below(limits.minPriority)), t.docs);
    if dropped in collected && !dropped.isMeta && dropped !in Run(rs + [r]).docs {
      MetaKeepsNodes(left, time, dropped);
      EnforcedExactly(t.docs, limits, dropped);
      CapDropsLowest(collected, limits.maxDocuments, dropped, survivor);
    }
  }

  /** A file counted is a file synced or skipped, and every error is a skip. */
  lemma {:induction false} ReportAddsUp(s: State, files: seq<File>, limits: Limits, time: string)
    ensures var report := ReportOf(s, Existing(files, limits, time));
      report.synced + report.skipped == |files| && report.errors <= report.skipped
  {
    if files != [] {
      ReportAddsUp(s, files[..|files| - 1], limits, time);
    }
  }

  /** The floor and the cap remove exactly these documents, and change none. */
  lemma {:induction false} EnforcedExactly(docs: seq<Doc>, limits: Limits, d: Doc)
    ensures var kept := AtLeast(docs, limits.minPriority);
      d in Enforced(docs, limits) <==>
        d in docs && !(limits.minPriority > 0.0 && d.priority.Some? && d.priority.value < limits.minPriority)
          && !IdIn(Extras(kept, limits.maxDocuments))(d)
  {
    var kept := AtLeast(docs, limits.minPriority);
    FilterMembers(Not(Below(limits.minPriority)), docs);
    FilterMembers(Not(IdIn(Extras(kept, limits.maxDocuments))), kept);
  }

  /** What is stored for a file: its priority and synced fields. */
  function Lookup(docs: seq<Doc>, uri: string): Option<(Option<real>, string)> {
    var found := Filter(HasUri(uri), docs);
    if found == [] then None else Some((found[0].priority, found[0].content))
  }

  /** What the processed files say should be stored: the last word on each URI counts. */
  function Expected(files: seq<File>, minPriority: real, uri: string, was: Option<(Option<real>, string)>)
    : Option<(Option<real>, string)>
  {
    if files == [] then was
    else
      var before, f := Expected(files[..|files| - 1], minPriority, uri, was), files[|files| - 1];
      if f.uri != uri then before
      else if !f.allowed then None
      else match f.outcome
        case Unreadable => before
        case Readable(priority, content) => if priority < minPriority then before else Some((Some(priority), content))
  }

  lemma {:induction false} LookupDelete(docs: seq<Doc>, at: string, uri: string)
    ensures Lookup(DeleteUri(docs, at), uri) == if at == uri then None else Lookup(docs, uri)
  {
    FilterCommutes(HasUri(uri), Not(HasUri(at)), docs);
    var found := Filter(HasUri(uri), docs);
    FilterMembers(HasUri(uri), docs);
    FilterAll(Not(HasUri(at)), found);
  }

  lemma {:induction false} LookupSetFirst(docs: seq<Doc>, at: string, priority: real, content: string, uri: string)
    requires Filter(HasUri(at), docs) != []
    ensures Lookup(SetFirst(HasUri(at), Synced(at, priority, content), docs), uri)
      == if at == uri then Some((Some(priority), content)) else Lookup(docs, uri)
  {
    var d := docs[0];
    var t := SetFirst(HasUri(at), Synced(at, priority, content), docs);
    if HasUri(at)(d) {
      assert t[1..] == docs[1..];
    } else {
      LookupSetFirst(docs[1..], at, priority, content, uri);
      assert t[1..] == SetFirst(HasUri(at), Synced(at, priority, content), docs[1..]);
    }
  }

  lemma {:induction false} LookupUpsert(s: State, at: string, priority: real, content: string, uri: string)
    ensures Lookup(UpsertFile(s, at, priority, content).docs, uri)
      == if at == uri then Some((Some(priority), content)) else Lookup(s.docs, uri)
  {
    if Filter(HasUri(at), s.docs) != [] {
      LookupSetFirst(s.docs, at, priority, content, uri);
    } else {
      var d := Doc(ObjectId(s.nextId), Some(at), Some(priority), false, content);
      FilterAppend(HasUri(uri), s.docs, [d]);
      assert [d][1..] == [];
    }
  }

  /** Processing files is a series of updates of a map from URI to record: fresh values for
      the files taken, none for the files excluded, and for files that cannot be read or are
      of low priority whatever was there before. */
  lemma {:induction false} FilesStoreExpected(s: State, files: seq<File>, minPriority: real, uri: string)
    ensures Lookup(SyncFiles(s, files, minPriority).state.docs, uri)
      == Expected(files, minPriority, uri, Lookup(s.docs, uri))
  {
    if files != [] {
      var before, f := files[..|files| - 1], files[|files| - 1];
      FilesStoreExpected(s, before, minPriority, uri);
      var t := SyncFiles(s, before, minPriority).state;
      LookupDelete(t.docs, f.uri, uri);
      if f.outcome.Readable? {
        LookupUpsert(t, f.uri, f.outcome.priority, f.outcome.content, uri);
      }
    }
  }
}
