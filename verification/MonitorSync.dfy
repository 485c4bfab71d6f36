/** One sync after any run: what it leaves, what it reports and what it writes. */
module MonitorSync {
  import opened Options
  import opened Sorting
  import opened Monitor
  import opened MonitorRetention

  // ---------------------------------------------------------------- removal

  /** The documents at these ascending places, which are those wanted. */
  ghost predicate Picks(before: seq<Doc>, wanted: Doc -> bool, places: seq<nat>, after: seq<Doc>) {
    && |places| == |after|
    && (forall k, l :: 0 <= k < l < |places| ==> places[k] < places[l])
    && (forall i :: i in places <==> 0 <= i < |before| && wanted(before[i]))
    && (forall k :: 0 <= k < |places| ==> places[k] < |before| && after[k] == before[places[k]])
  }

  lemma {:induction false} FilterPicks(p: Doc -> bool, s: seq<Doc>) returns (places: seq<nat>)
    ensures Picks(s, p, places, Filter(p, s))
  {
    if s == [] {
      places := [];
    } else {
      var front, last := s[..|s| - 1], s[|s| - 1];
      assert s == front + [last];
      places := FilterPicks(p, front);
      PicksSnoc(p, front, last, places, Filter(p, front));
      FilterAppend(p, front, [last]);
      if p(last) {
        places := places + [|front|];
      }
    }
  }

  lemma {:induction false} PicksSnoc(p: Doc -> bool, front: seq<Doc>, last: Doc, places: seq<nat>, after: seq<Doc>)
    requires Picks(front, p, places, after)
    ensures if p(last) then Picks(front + [last], p, places + [|front|], after + [last])
            else Picks(front + [last], p, places, after)
  {
    forall k | 0 <= k < |places| ensures places[k] < |front| && (front + [last])[places[k]] == after[k] {
      assert places[k] in places;
    }
  }

  lemma {:induction false} RunSnoc(rs: seq<Request>, r: Request)
    ensures Run(rs + [r]) == Sync(Run(rs), r)
  {
    assert (rs + [r])[..|rs|] == rs;
  }

  /** A sync of a missing path forgets it and leaves all other documents, in order. */
  lemma {:induction false} MissingIsForgotten(rs: seq<Request>, uri: string) returns (places: seq<nat>)
    ensures var before, after := Run(rs), Run(rs + [Missing(uri)]);
      && Picks(before.docs, (d: Doc) => d.localUri != Some(uri), places, after.docs)
      && after.nextId == before.nextId
      && (forall d :: d in after.docs ==> d.localUri != Some(uri)) && Lookup(after.docs, uri) == None
  {
    var docs := Run(rs).docs;
    RunSnoc(rs, Missing(uri));
    places := FilterPicks(Not(HasUri(uri)), docs);
    FilterMembers(Not(HasUri(uri)), docs);
    LookupDelete(docs, uri, uri);
  }

  /** A sync of anything but a file changes nothing and fails. */
  lemma {:induction false} ForeignIsRefused(rs: seq<Request>)
    ensures Run(rs + [Foreign]) == Run(rs) && ReportOf(Run(rs), Foreign) == Report(false, 0, 0, 1)
  {
    RunSnoc(rs, Foreign);
  }

  // ---------------------------------------------------------------- the report

  predicate IsTaken(f: File, minPriority: real) {
    f.allowed && f.outcome.Readable? && f.outcome.priority >= minPriority
  }

  predicate IsError(f: File) { f.allowed && f.outcome.Unreadable? }

  function Places(files: seq<File>, p: File -> bool): set<nat> { set i: nat | i < |files| && p(files[i]) }

  lemma {:induction false} PlacesSnoc(files: seq<File>, f: File, p: File -> bool)
    ensures |Places(files + [f], p)| == |Places(files, p)| + if p(f) then 1 else 0
  {
    var all := files + [f];
    assert Places(all, p) == Places(files, p) + if p(f) then {|files|} else {};
  }

  lemma {:induction false} FilesCounted(s: State, files: seq<File>, minPriority: real)
    ensures var p := SyncFiles(s, files, minPriority);
      && p.synced == |Places(files, (f: File) => IsTaken(f, minPriority))|
      && p.errors == |Places(files, (f: File) => IsError(f))|
      && p.synced + p.skipped == |files|
  {
    var taken, failed := (f: File) => IsTaken(f, minPriority), (f: File) => IsError(f);
    if files == [] {
      assert Places(files, taken) == {} && Places(files, failed) == {};
    } else {
      var before, f := files[..|files| - 1], files[|files| - 1];
      assert files == before + [f];
      FilesCounted(s, before, minPriority);
      PlacesSnoc(before, f, taken);
      PlacesSnoc(before, f, failed);
    }
  }

  /** The report counts the files taken, the files skipped and the files that could not be read, and
      says whether there was none of the last. */
  lemma {:induction false} ReportExactly(s: State, files: seq<File>, limits: Limits, time: string)
    ensures var r := ReportOf(s, Existing(files, limits, time));
      && r.synced == |Places(files, (f: File) => IsTaken(f, limits.minPriority))|
      && r.synced + r.skipped == |files|
      && r.errors == |Places(files, (f: File) => IsError(f))|
      && (r.success <==> forall i :: 0 <= i < |files| ==> !IsError(files[i]))
  {
    FilesCounted(s, files, limits.minPriority);
    var failed := Places(files, (f: File) => IsError(f));
    if i :| 0 <= i < |files| && IsError(files[i]) {
      assert i in failed;
    }
    if failed != {} {
      var i :| i in failed;
    }
  }

  // ---------------------------------------------------------------- what is written

  lemma {:induction false} SetFirstLeaves(p: Doc -> bool, set': Doc -> Doc, docs: seq<Doc>, d: Doc)
    requires !p(d) && forall x :: p(x) ==> set'(x) != d
    ensures d in SetFirst(p, set', docs) <==> d in docs
  {
    if docs != [] {
      var first, rest := docs[0], docs[1..];
      assert d in docs <==> d == first || d in rest;
      if !p(first) {
        SetFirstLeaves(p, set', rest, d);
        assert d in [first] + SetFirst(p, set', rest) <==> d == first || d in SetFirst(p, set', rest);
      } else {
        assert d in [set'(first)] + rest <==> d == set'(first) || d in rest;
      }
    }
  }

  lemma {:induction false} UpsertLeaves(s: State, uri: string, priority: real, content: string, d: Doc)
    requires d.localUri != Some(uri)
    ensures d in UpsertFile(s, uri, priority, content).docs <==> d in s.docs
  {
    if Filter(HasUri(uri), s.docs) != [] {
      SetFirstLeaves(HasUri(uri), Synced(uri, priority, content), s.docs, d);
    }
  }

  /** Processing files leaves every document of another URI, or of none, as it was. */
  lemma {:induction false} FilesLeaveOthers(s: State, files: seq<File>, minPriority: real, d: Doc)
    requires forall i :: 0 <= i < |files| ==> d.localUri != Some(files[i].uri)
    ensures d in SyncFiles(s, files, minPriority).state.docs <==> d in s.docs
  {
    if files != [] {
      var before, f := files[..|files| - 1], files[|files| - 1];
      FilesLeaveOthers(s, before, minPriority, d);
      var t := SyncFiles(s, before, minPriority).state;
      FilterMembers(Not(HasUri(f.uri)), t.docs);
      if f.outcome.Readable? {
        UpsertLeaves(t, f.uri, f.outcome.priority, f.outcome.content, d);
      }
    }
  }

  lemma {:induction false} StampIsNew(docs: seq<Doc>, time: string, d: Doc)
    requires d in SetFirst(HasId(MetaId), Stamped(time), docs) && d.id == MetaId
    requires Count(HasId(MetaId), docs) <= 1
    ensures d.content == time
  {
    var first, rest := docs[0], docs[1..];
    if first.id == MetaId {
      FilterMembers(HasId(MetaId), rest);
      assert Filter(HasId(MetaId), rest) == [];
    } else {
      StampIsNew(rest, time, d);
    }
  }

  /** After a sync of an existing path the meta record holds its time. */
  lemma {:induction false} MetaHoldsTime(rs: seq<Request>, files: seq<File>, limits: Limits, time: string)
    ensures var after := Run(rs + [Existing(files, limits, time)]).docs;
      (exists d :: d in after && d.isMeta) && forall d :: d in after && d.isMeta ==> d.content == time
  {
    var r := Existing(files, limits, time);
    RunSnoc(rs, r);
    var t := SyncFiles(Run(rs), files, limits.minPriority).state;
    var left := Enforced(t.docs, limits);
    RunHealthy(rs, MetaId, "");
    FilesHealthy(Run(rs), files, limits.minPriority, MetaId, "");
    EnforcedHealthy(t, limits, MetaId, "");
    SyncRetainsExactly(rs, files, limits, time);
    var after := UpsertMeta(left, time);
    FilterMembers(IsMetaDoc(), after);
    assert Filter(IsMetaDoc(), after)[0] in Filter(IsMetaDoc(), after);
    RunHealthy(rs + [r], MetaId, "");
    forall d | d in after && d.isMeta ensures d.content == time {
      assert d.id == MetaId;
      FilterMembers(HasId(MetaId), left);
      if Filter(HasId(MetaId), left) != [] {
        StampIsNew(left, time, d);
      } else {
        assert d !in left;
      }
    }
  }
}
