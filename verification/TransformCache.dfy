/** The transform cache as a value: database records, files and a separate byte counter,
    with the steps the program takes on them and what every run of those steps keeps. */
module TransformCache {
  import opened Options
  import opened Sorting
  import opened Text
  import opened Utf8

  datatype Result<T> = Ok(value: T) | Err(error: string)

  /** What identifies a transform. The checksum and the options hash are hexadecimal. */
  datatype Triple = Triple(checksum: string, engine: string, options: string) {
    predicate Valid() { ':' !in checksum && ':' !in options }
  }

  /** A digest, idealised: two digests are equal only for equal inputs. */
  datatype Key = Digest(preimage: string)

  function CacheKey(t: Triple): Key { Digest(t.checksum + ":" + t.engine + ":" + t.options) }

  datatype Path = CacheFile(key: Key, extension: string) | Artifact(name: string)

  datatype Reference = FileReference(path: Path) | OtherReference(uri: string)

  datatype Record = Record(triple: Triple, location: Path, size: nat, lastAccessed: int, references: seq<Reference>)

  /** An engine either writes its whole output, with the artifacts it refers to, or fails. */
  datatype Outcome = Failed | Produced(content: Bytes, artifacts: map<string, Bytes>, references: seq<Reference>)

  /** The engines: what each transform gives, the extension each engine and options ask for,
      and the local files a Markdown text refers to. */
  datatype Engines = Engines(
    run: Triple -> Outcome,
    extension: (string, string) -> string,
    markdownFiles: Bytes -> seq<Path>)

  datatype Cache = Cache(records: seq<Record>, files: map<Path, Bytes>, counter: int)

  // ---------------------------------------------------------------- names

  /** The suffix of a stored location, without its dot. */
  function Suffix(p: Path): string {
    match p
    case CacheFile(_, extension) => AfterLast('.', extension)
    case Artifact(name) => if '.' in name then AfterLast('.', name) else ""
  }

  /** Where a record's file is looked for: under its key, with "md" for a missing suffix. */
  function FileOf(r: Record): Path {
    CacheFile(CacheKey(r.triple), if Suffix(r.location) == "" then "md" else Suffix(r.location))
  }

  function OutputPath(env: Engines, t: Triple): Path { CacheFile(CacheKey(t), env.extension(t.engine, t.options)) }

  /** The key string determines the transform, although an engine name may hold colons. */
  lemma {:induction false} CacheKeyInjective(t: Triple, u: Triple)
    requires t.Valid() && u.Valid() && CacheKey(t) == CacheKey(u)
    ensures t == u
  {
    assert t.checksum + ":" + t.engine + ":" + t.options == t.checksum + ":" + (t.engine + ":" + t.options);
    assert u.checksum + ":" + u.engine + ":" + u.options == u.checksum + ":" + (u.engine + ":" + u.options);
    SplitAtFirst(':', t.checksum, u.checksum, t.engine + ":" + t.options, u.engine + ":" + u.options);
    SplitAtLast(':', t.engine, u.engine, t.options, u.options);
  }

  // ---------------------------------------------------------------- selecting records

  function SizeOf(r: Record): int { r.size }

  function Total(records: seq<Record>): int { Sum(SizeOf, records) }

  function OfTriple(t: Triple): Record -> bool { (r: Record) => r.triple == t }

  function Checksums(records: seq<Record>): set<string> { set r | r in records :: r.triple.checksum }

  function HasChecksum(checksums: set<string>): Record -> bool { (r: Record) => r.triple.checksum in checksums }

  function Locations(records: seq<Record>): set<Path> { set r | r in records :: r.location }

  // ---------------------------------------------------------------- eviction

  predicate Older(a: Record, b: Record) { a.lastAccessed <= b.lastAccessed }

  predicate IsBinary(r: Record) { Suffix(r.location) == "bin" }

  predicate IsText(r: Record) { Suffix(r.location) == "txt" }

  predicate IsOther(r: Record) { !IsBinary(r) && !IsText(r) }

  /** Binaries first, then texts, then the rest; within each class the oldest access first. */
  function EvictionOrder(records: seq<Record>): seq<Record> {
    var s := Sort(Older, records);
    Filter(IsBinary, s) + Filter(IsText, s) + Filter(IsOther, s)
  }

  /** Entries from the front until `needed` bytes are freed. */
  function Freeing(order: seq<Record>, needed: int): seq<Record> {
    if order == [] || needed <= 0 then [] else [order[0]] + Freeing(order[1..], needed - order[0].size)
  }

  function Evicted(c: Cache, incoming: int, maxSize: int): seq<Record> {
    if c.counter + incoming <= maxSize then [] else Freeing(EvictionOrder(c.records), c.counter + incoming - maxSize)
  }

  /** Records are deleted by checksum, which also takes those of other engines on the same content. */
  function EnsureSpace(c: Cache, incoming: int, maxSize: int): Cache {
    var evicted := Evicted(c, incoming, maxSize);
    if evicted == [] then c
    else Cache(Filter(Not(HasChecksum(Checksums(evicted))), c.records),
               c.files - Locations(evicted),
               c.counter - Total(evicted))
  }

  // ---------------------------------------------------------------- lookup

  predicate Missing(c: Cache, ref: Reference) { ref.FileReference? && ref.path !in c.files }

  predicate MissingReferences(env: Engines, c: Cache, file: Path, r: Record)
    requires file in c.files && file.CacheFile?
  {
    if r.references != [] then exists ref :: ref in r.references && Missing(c, ref)
    else AfterLast('.', file.extension) == "md" && exists p :: p in env.markdownFiles(c.files[file]) && p !in c.files
  }

  function ReferencedFiles(r: Record): set<Path> {
    set ref | ref in r.references && ref.FileReference? :: ref.path
  }

  function PruneStale(c: Cache, file: Path, r: Record): Cache
    requires file in c.files
  {
    var counter := c.counter - |c.files[file]|;
    Cache(Filter(Not(OfTriple(r.triple)), c.records),
          c.files - ({file} + ReferencedFiles(r)),
          if counter < 0 then 0 else counter)
  }

  /** The scan over the matching documents read at the start. */
  function FindCached(env: Engines, c: Cache, docs: seq<Record>): (Cache, Option<Record>)
    decreases |docs|
  {
    if docs == [] then (c, None)
    else if FileOf(docs[0]) in c.files then
      if MissingReferences(env, c, FileOf(docs[0]), docs[0])
      then FindCached(env, PruneStale(c, FileOf(docs[0]), docs[0]), docs[1..])
      else (c, Some(docs[0]))
    else FindCached(env, c, docs[1..])
  }

  function Touch(records: seq<Record>, t: Triple, now: int): seq<Record> {
    if records == [] then []
    else if records[0].triple == t then [records[0].(lastAccessed := now)] + records[1..]
    else [records[0]] + Touch(records[1..], t, now)
  }

  // ---------------------------------------------------------------- transform

  datatype Handle = Handle(key: Key, hit: bool)

  function WithArtifacts(files: map<Path, Bytes>, artifacts: map<string, Bytes>): map<Path, Bytes> {
    map p | p in files.Keys + (set n | n in artifacts :: Artifact(n)) ::
      if p.Artifact? && p.name in artifacts then artifacts[p.name] else files[p]
  }

  function NewRecord(env: Engines, t: Triple, now: int): Record
    requires env.run(t).Produced?
  {
    Record(t, OutputPath(env, t), |env.run(t).content|, now, env.run(t).references)
  }

  function PerformNew(env: Engines, c: Cache, t: Triple, inputSize: nat, now: int, maxSize: int)
    : (Cache, Result<Handle>)
  {
    var c1 := EnsureSpace(c, inputSize, maxSize);
    match env.run(t)
    case Failed => (c1, Err("engine failed"))
    case Produced(content, artifacts, _) =>
      (Cache(c1.records + [NewRecord(env, t, now)],
             WithArtifacts(c1.files, artifacts)[OutputPath(env, t) := content],
             c1.counter + |content|),
       Ok(Handle(CacheKey(t), false)))
  }

  function Transform(env: Engines, c: Cache, t: Triple, inputSize: nat, now: int, maxSize: int)
    : (Cache, Result<Handle>)
  {
    var (c1, found) := FindCached(env, c, Filter(OfTriple(t), c.records));
    if found.Some?
    then (c1.(records := Touch(c1.records, t, now)), Ok(Handle(CacheKey(t), true)))
    else PerformNew(env, c1, t, inputSize, now, maxSize)
  }

  // ---------------------------------------------------------------- get_content

  function FindRecord(records: seq<Record>, key: Key): Option<Record> {
    if records == [] then None
    else if CacheKey(records[0].triple) == key then Some(records[0])
    else FindRecord(records[1..], key)
  }

  ghost predicate HasFile(c: Cache, key: Key) { exists p :: p in c.files && p.CacheFile? && p.key == key }

  /** The file under the record's own name, or any other file of the key. */
  ghost function ResolveFile(c: Cache, key: Key, r: Record): Path
    requires HasFile(c, key)
  {
    var named := CacheFile(key, if Suffix(r.location) == "" then "md" else Suffix(r.location));
    if named in c.files then named
    else var p :| p in c.files && p.CacheFile? && p.key == key; p
  }

  /** A file's content as text; bytes that are not UTF-8 are an error. */
  function Opened(content: Bytes): Result<string> {
    match ReadText(content)
    case None => Err("not UTF-8")
    case Some(text) => Ok(text)
  }

  /** The access time is updated before the file is read. */
  ghost function GetContent(c: Cache, key: Key, now: int): (Cache, Result<string>) {
    match FindRecord(c.records, key)
    case None => (c, Err("key not in database"))
    case Some(r) =>
      if HasFile(c, key)
      then (c.(records := Touch(c.records, r.triple, now)), Opened(c.files[ResolveFile(c, key, r)]))
      else (c.(records := Filter(Not(OfTriple(r.triple)), c.records)), Err("file missing, stale record pruned"))
  }
}
