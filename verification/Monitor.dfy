/** The monitor's node collection: syncing files into it and capping its size. */
module Monitor {
  import opened Options
  import opened Sorting

  datatype Id = MetaId | ObjectId(n: nat)

  /** A document. A synced file has a local URI, a priority and its synced fields; documents
      of other writers have neither. */
  datatype Doc = Doc(id: Id, localUri: Option<string>, priority: Option<real>, isMeta: bool, content: string)

  /** The documents in collection order, and the next identifier the database will give. */
  datatype State = State(docs: seq<Doc>, nextId: nat)

  datatype Outcome = Unreadable | Readable(priority: real, content: string)

  /** A file as a sync meets it: whether the path rules allow it, and what reading it gives. */
  datatype File = File(uri: string, allowed: bool, outcome: Outcome)

  datatype Limits = Limits(maxDocuments: int, minPriority: real)

  datatype Request =
    | Foreign
    | Missing(uri: string)
    | Existing(files: seq<File>, limits: Limits, time: string)

  datatype Report = Report(success: bool, synced: nat, skipped: nat, errors: nat)

  // ---------------------------------------------------------------- queries

  function HasUri(uri: string): Doc -> bool { (d: Doc) => d.localUri == Some(uri) }

  function HasId(id: Id): Doc -> bool { (d: Doc) => d.id == id }

  function IsNode(): Doc -> bool { (d: Doc) => !d.isMeta }

  function IsMetaDoc(): Doc -> bool { (d: Doc) => d.isMeta }

  /** `priority: {$lt: min}` matches only documents that have a priority. */
  function Below(min: real): Doc -> bool { (d: Doc) => d.priority.Some? && d.priority.value < min }

  function IdIn(victims: seq<Doc>): Doc -> bool {
    (d: Doc) => exists i :: 0 <= i < |victims| && victims[i].id == d.id
  }

  /** Ascending by priority, a missing one first. */
  predicate Before(x: Doc, y: Doc) {
    x.priority.None? || (y.priority.Some? && x.priority.value <= y.priority.value)
  }

  function RankLeq(): (Doc, Doc) -> bool { (x: Doc, y: Doc) => Before(x, y) }

  // ---------------------------------------------------------------- updates

  /** Sets the fields of the first document found, keeping the rest of it. */
  function SetFirst(p: Doc -> bool, set': Doc -> Doc, docs: seq<Doc>): seq<Doc> {
    if docs == [] then []
    else if p(docs[0]) then [set'(docs[0])] + docs[1..]
    else [docs[0]] + SetFirst(p, set', docs[1..])
  }

  function Synced(uri: string, priority: real, content: string): Doc -> Doc {
    (d: Doc) => d.(localUri := Some(uri), priority := Some(priority), content := content)
  }

  function Stamped(time: string): Doc -> Doc { (d: Doc) => d.(isMeta := true, content := time) }

  function UpsertFile(s: State, uri: string, priority: real, content: string): State {
    if Filter(HasUri(uri), s.docs) != []
      then s.(docs := SetFirst(HasUri(uri), Synced(uri, priority, content), s.docs))
    else State(s.docs + [Doc(ObjectId(s.nextId), Some(uri), Some(priority), false, content)], s.nextId + 1)
  }

  function UpsertMeta(docs: seq<Doc>, time: string): seq<Doc> {
    if Filter(HasId(MetaId), docs) != [] then SetFirst(HasId(MetaId), Stamped(time), docs)
    else docs + [Doc(MetaId, None, None, true, time)]
  }

  function DeleteUri(docs: seq<Doc>, uri: string): seq<Doc> { Filter(Not(HasUri(uri)), docs) }

  /** The documents the cap removes: the lowest ranked, as many as there are too many. */
  function Extras(docs: seq<Doc>, maxDocuments: int): seq<Doc> {
    var nodes := Filter(IsNode(), docs);
    if maxDocuments <= 0 || |nodes| <= maxDocuments then []
    else
      SortMultiset(RankLeq(), nodes);
      Sort(RankLeq(), nodes)[..|nodes| - maxDocuments]
  }

  function AtLeast(docs: seq<Doc>, minPriority: real): seq<Doc> {
    if minPriority > 0.0 then Filter(Not(Below(minPriority)), docs) else docs
  }

  function Enforced(docs: seq<Doc>, limits: Limits): seq<Doc> {
    var kept := AtLeast(docs, limits.minPriority);
    Filter(Not(IdIn(Extras(kept, limits.maxDocuments))), kept)
  }

  // ---------------------------------------------------------------- syncing

  datatype Progress = Progress(state: State, synced: nat, skipped: nat, errors: nat)

  function SyncFile(p: Progress, f: File, minPriority: real): Progress {
    if !f.allowed then p.(skipped := p.skipped + 1, state := p.state.(docs := DeleteUri(p.state.docs, f.uri)))
    else match f.outcome
      case Unreadable => p.(errors := p.errors + 1, skipped := p.skipped + 1)
      case Readable(priority, content) =>
        if priority < minPriority then p.(skipped := p.skipped + 1)
        else p.(state := UpsertFile(p.state, f.uri, priority, content), synced := p.synced + 1)
  }

  function SyncFiles(s: State, files: seq<File>, minPriority: real): Progress {
    if files == [] then Progress(s, 0, 0, 0)
    else SyncFile(SyncFiles(s, files[..|files| - 1], minPriority), files[|files| - 1], minPriority)
  }

  function Sync(s: State, r: Request): State {
    match r
    case Foreign => s
    case Missing(uri) => s.(docs := DeleteUri(s.docs, uri))
    case Existing(files, limits, time) =>
      var p := SyncFiles(s, files, limits.minPriority);
      p.state.(docs := UpsertMeta(Enforced(p.state.docs, limits), time))
  }

  function ReportOf(s: State, r: Request): Report {
    match r
    case Foreign => Report(false, 0, 0, 1)
    case Missing(_) => Report(true, 0, 0, 0)
    case Existing(files, limits, _) =>
      var p := SyncFiles(s, files, limits.minPriority);
      Report(p.errors == 0, p.synced, p.skipped, p.errors)
  }

  lemma {:induction false} NoneDropped(docs: seq<Doc>)
    ensures Filter(Not(IdIn([])), docs) == docs
  {
    FilterAll(Not(IdIn([])), docs);
  }

  class Nodes {
    var docs: seq<Doc>
    var nextId: nat

    function Now(): State
      reads this
    {
      State(docs, nextId)
    }

    constructor ()
      ensures Now() == State([], 0)
    {
      docs, nextId := [], 0;
    }

    method DeleteMany(p: Doc -> bool)
      modifies this`docs
      ensures docs == Filter(Not(p), old(docs))
    {
      docs := Filter(Not(p), docs);
    }

    method DropExtras(maxDocuments: int)
      modifies this`docs
      ensures docs == Filter(Not(IdIn(Extras(old(docs), maxDocuments))), old(docs))
    {
      NoneDropped(docs);
      if maxDocuments <= 0 {
        return;
      }
      var nodes := Filter(IsNode(), docs);
      if |nodes| <= maxDocuments {
        return;
      }
      SortMultiset(RankLeq(), nodes);
      var lowest := Sort(RankLeq(), nodes)[..|nodes| - maxDocuments];
      DeleteMany(IdIn(lowest));
    }

    /** Two passes: everything below the floor, then the lowest ranked beyond the cap. */
    method EnforceLimit(limits: Limits)
      modifies this`docs
      ensures docs == Enforced(old(docs), limits)
    {
      if limits.minPriority > 0.0 {
        DeleteMany(Below(limits.minPriority));
      }
      DropExtras(limits.maxDocuments);
    }

    method UpdateFile(uri: string, priority: real, content: string)
      modifies this
      ensures Now() == UpsertFile(old(Now()), uri, priority, content)
    {
      if Filter(HasUri(uri), docs) != [] {
        docs := SetFirst(HasUri(uri), Synced(uri, priority, content), docs);
      } else {
        docs := docs + [Doc(ObjectId(nextId), Some(uri), Some(priority), false, content)];
        nextId := nextId + 1;
      }
    }

    method SyncUri(r: Request) returns (report: Report)
      modifies this
      ensures Now() == Sync(old(Now()), r) && report == ReportOf(old(Now()), r)
    {
      match r
      case Foreign => return Report(false, 0, 0, 1);
      case Missing(uri) =>
        DeleteMany(HasUri(uri));
        return Report(true, 0, 0, 0);
      case Existing(files, limits, time) =>
        var synced, skipped, errors := SyncAll(files, limits.minPriority);
        EnforceLimit(limits);
        docs := UpsertMeta(docs, time);
        return Report(errors == 0, synced, skipped, errors);
    }

    method SyncAll(files: seq<File>, minPriority: real) returns (synced: nat, skipped: nat, errors: nat)
      modifies this
      ensures Progress(Now(), synced, skipped, errors) == SyncFiles(old(Now()), files, minPriority)
    {
      synced, skipped, errors := 0, 0, 0;
      var i := 0;
      assert files[..0] == [];
      while i < |files|
        invariant i <= |files|
        invariant Progress(Now(), synced, skipped, errors) == SyncFiles(old(Now()), files[..i], minPriority)
      {
        assert files[..i + 1][..i] == files[..i];
        var f := files[i];
        i := i + 1;
        if !f.allowed {
          skipped := skipped + 1;
          DeleteMany(HasUri(f.uri));
          continue;
        }
        match f.outcome {
          case Unreadable =>
            errors := errors + 1;
            skipped := skipped + 1;
          case Readable(priority, content) =>
            if priority < minPriority {
              skipped := skipped + 1;
            } else {
              UpdateFile(f.uri, priority, content);
              synced := synced + 1;
            }
        }
      }
      assert files[..i] == files;
    }
  }
}
