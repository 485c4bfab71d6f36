/** Which paths the monitor follows: roots, directory names and glob patterns. */
module PathRules {
  import opened Text

  /** An absolute path as its components from the root down; the root is empty. */
  type Path = seq<string>

  /** `fnmatchcase(text, pattern)` */
  type Glob = (string, string) -> bool

  datatype Filter = Filter(
    includePaths: seq<Path>, excludePaths: seq<Path>,
    includeDirnames: seq<string>, excludeDirnames: seq<string>,
    includeGlobs: seq<string>, excludeGlobs: seq<string>)

  datatype Note =
    | InHome(home: Path)
    | ExcludedByRoot(root: Path)
    | IncludedByRoot(root: Path)
    | OutsideRoots
    | NoRoots
    | ParentExcluded(name: string)
    | DirectoryExcluded(name: string)
    | GlobExcluded
    | ParentOverride(name: string)
    | GlobOverride

  function Name(p: Path): string { if p == [] then "" else p[|p| - 1] }

  function Parent(p: Path): Path { if p == [] then p else p[..|p| - 1] }

  /** The path as text, with a slash before each component. */
  function Posix(p: Path): string { if p == [] then "/" else Slashed(p) }

  function Slashed(p: Path): string { if p == [] then "" else "/" + p[0] + Slashed(p[1..]) }

  function SetOf(ps: seq<Path>): set<Path> { set i | 0 <= i < |ps| :: ps[i] }

  /** The names of a list, stripped, without the blank ones. */
  function Names(raw: seq<string>): set<string> {
    set i | 0 <= i < |raw| && Strip(raw[i]) != "" :: Strip(raw[i])
  }

  lemma {:induction false} SlashedSnoc(p: Path, name: string)
    ensures Slashed(p + [name]) == Slashed(p) + ("/" + name)
  {
    if p == [] {
      assert [name][1..] == [] && p + [name] == [name];
    } else {
      assert (p + [name])[1..] == p[1..] + [name];
      SlashedSnoc(p[1..], name);
      Assoc("/" + p[0], Slashed(p[1..]), "/" + name);
    }
  }

  /** A path is written as its parent, a slash and its name; the root is a slash. */
  lemma {:induction false} PosixSteps(p: Path)
    ensures p == [] ==> Posix(p) == "/"
    ensures p != [] ==> Posix(p) == (if Parent(p) == [] then "" else Posix(Parent(p))) + ("/" + Name(p))
  {
    if p != [] {
      assert p == Parent(p) + [Name(p)];
      SlashedSnoc(Parent(p), Name(p));
    }
  }

  // ---------------------------------------------------------------- what the rules mean

  predicate IsRoot(p: Path, f: Filter) { p in SetOf(f.includePaths) || p in SetOf(f.excludePaths) }

  /** The nearest root at or above the path is one level `n` down. */
  predicate NearestRoot(p: Path, f: Filter, n: nat) {
    n <= |p| && IsRoot(p[..n], f) && forall m :: n < m <= |p| ==> !IsRoot(p[..m], f)
  }

  predicate HasRoot(p: Path, f: Filter) { exists n :: 0 <= n <= |p| && IsRoot(p[..n], f) }

  /** The nearest root decides, and a path listed on both sides is excluded. */
  predicate RootAllows(p: Path, f: Filter) {
    exists n :: 0 <= n <= |p| && NearestRoot(p, f, n) && p[..n] !in SetOf(f.excludePaths)
  }

  predicate MatchesGlob(glob: Glob, patterns: seq<string>, p: Path) {
    exists i :: 0 <= i < |patterns| && GlobHits(glob, Strip(patterns[i]), p)
  }

  predicate GlobHits(glob: Glob, pattern: string, p: Path) {
    pattern != "" && (glob(Posix(p), pattern) || glob(Name(p), pattern))
  }

  /** Some component of the path carries an excluded name, or a pattern excludes it. */
  predicate RulesExclude(glob: Glob, f: Filter, p: Path) {
    || (exists i :: 0 <= i < |p| && p[i] in Names(f.excludeDirnames))
    || MatchesGlob(glob, f.excludeGlobs, p)
  }

  /** Its own directory's name or a pattern brings the path back. */
  predicate RulesOverride(glob: Glob, f: Filter, p: Path) {
    Name(Parent(p)) in Names(f.includeDirnames) || MatchesGlob(glob, f.includeGlobs, p)
  }

  predicate Verdict(glob: Glob, f: Filter, home: Path, p: Path) {
    !(home <= p) && RootAllows(p, f) && (RulesExclude(glob, f, p) ==> RulesOverride(glob, f, p))
  }

  predicate ParentNamed(p: Path, names: set<string>) { exists i :: 0 <= i < |p| - 1 && p[i] in names }

  predicate NearestRootIs(p: Path, f: Filter, root: Path) { root <= p && NearestRoot(p, f, |root|) }

  /** What each note of an explanation claims. */
  predicate NoteTrue(glob: Glob, f: Filter, home: Path, p: Path, note: Note) {
    match note
    case InHome(h) => h == home && home <= p
    case IncludedByRoot(root) => NearestRootIs(p, f, root) && root !in SetOf(f.excludePaths)
    case ExcludedByRoot(root) => NearestRootIs(p, f, root) && root in SetOf(f.excludePaths)
    case OutsideRoots => !HasRoot(p, f) && f.includePaths != []
    case NoRoots => !HasRoot(p, f) && f.includePaths == []
    case ParentExcluded(name) =>
      exists i :: 0 <= i < |p| - 1 && p[i] == name && name in Names(f.excludeDirnames)
        && !ParentNamed(p[i + 1..], Names(f.excludeDirnames))
    case DirectoryExcluded(name) =>
      p != [] && name == Name(p) && name in Names(f.excludeDirnames) && !ParentNamed(p, Names(f.excludeDirnames))
    case GlobExcluded =>
      MatchesGlob(glob, f.excludeGlobs, p) && forall i :: 0 <= i < |p| ==> p[i] !in Names(f.excludeDirnames)
    case ParentOverride(name) => name == Name(Parent(p)) && name in Names(f.includeDirnames)
    case GlobOverride => MatchesGlob(glob, f.includeGlobs, p) && Name(Parent(p)) !in Names(f.includeDirnames)
  }

  // ---------------------------------------------------------------- the procedure

  /** Walks from the path to the root of the file system. */
  method EvaluateRoots(path: Path, f: Filter) returns (allowed: bool, note: Note)
    ensures allowed == RootAllows(path, f)
    ensures note.IncludedByRoot? || note.ExcludedByRoot? || note.OutsideRoots? || note.NoRoots?
    ensures note.IncludedByRoot? <==> allowed
    ensures forall glob, home :: NoteTrue(glob, f, home, path, note)
  {
    var cur := path;
    while true
      invariant cur <= path
      invariant forall m :: |cur| < m <= |path| ==> !IsRoot(path[..m], f)
      decreases |cur|
    {
      assert cur == path[..|cur|];
      if cur in SetOf(f.excludePaths) {
        assert NearestRoot(path, f, |cur|);
        NearestIsUnique(path, f, |cur|);
        return false, ExcludedByRoot(cur);
      }
      if cur in SetOf(f.includePaths) {
        assert NearestRoot(path, f, |cur|);
        return true, IncludedByRoot(cur);
      }
      var parent := Parent(cur);
      if parent == cur {
        assert forall m :: 0 <= m <= |path| ==> !IsRoot(path[..m], f);
        if f.includePaths != [] {
          return false, OutsideRoots;
        }
        return false, NoRoots;
      }
      cur := parent;
    }
  }

  lemma {:induction false} NearestIsUnique(p: Path, f: Filter, n: nat)
    requires NearestRoot(p, f, n)
    ensures forall m :: 0 <= m <= |p| && NearestRoot(p, f, m) ==> m == n
  {
  }

  method MatchGlobs(glob: Glob, patterns: seq<string>, path: Path) returns (found: bool)
    ensures found == MatchesGlob(glob, patterns, path)
  {
    if patterns == [] {
      return false;
    }
    var text, name := Posix(path), Name(path);
    for i := 0 to |patterns|
      invariant forall j :: 0 <= j < i ==> !GlobHits(glob, Strip(patterns[j]), path)
    {
      var pattern := Strip(patterns[i]);
      if pattern == "" {
        continue;
      }
      if glob(text, pattern) || glob(name, pattern) {
        assert GlobHits(glob, Strip(patterns[i]), path);
        return true;
      }
    }
    return false;
  }

  /** The first ancestor, from the nearest up, with an excluded name. */
  method FindExcludedParent(path: Path, names: set<string>) returns (at: nat)
    requires "" !in names
    ensures at <= |path|
    ensures at > 0 ==> at < |path| && Name(path[..at]) in names
    ensures at > 0 ==> forall i :: at <= i < |path| - 1 ==> path[i] !in names
    ensures at == 0 ==> forall i :: 0 <= i < |path| - 1 ==> path[i] !in names
  {
    at := |path|;
    while at > 0
      invariant at <= |path|
      invariant forall i :: at <= i < |path| - 1 ==> path[i] !in names
    {
      if at < |path| && Name(path[..at]) in names {
        return;
      }
      at := at - 1;
    }
  }

  /** The first rule that excludes the path, if any. */
  method FindExclusion(glob: Glob, f: Filter, home: Path, path: Path) returns (notes: seq<Note>)
    ensures |notes| <= 1 && (notes != [] <==> RulesExclude(glob, f, path))
    ensures notes != [] ==> NoteTrue(glob, f, home, path, notes[0])
    ensures notes != [] ==> notes[0].ParentExcluded? || notes[0].DirectoryExcluded? || notes[0].GlobExcluded?
  {
    var names := Names(f.excludeDirnames);
    var at := FindExcludedParent(path, names);
    if at > 0 {
      assert path[at - 1] in names;
      return [ParentExcluded(Name(path[..at]))];
    }
    if Name(path) in names {
      assert path[|path| - 1] in names;
      return [DirectoryExcluded(Name(path))];
    }
    var hit := MatchGlobs(glob, f.excludeGlobs, path);
    return if hit then [GlobExcluded] else [];
  }

  /** The first rule that brings an excluded path back, if any. */
  method FindOverride(glob: Glob, f: Filter, home: Path, path: Path) returns (notes: seq<Note>)
    ensures |notes| <= 1 && (notes != [] <==> RulesOverride(glob, f, path))
    ensures notes != [] ==> NoteTrue(glob, f, home, path, notes[0])
    ensures notes != [] ==> notes[0].ParentOverride? || notes[0].GlobOverride?
  {
    var parent := Name(Parent(path));
    if parent in Names(f.includeDirnames) {
      return [ParentOverride(parent)];
    }
    var hit := MatchGlobs(glob, f.includeGlobs, path);
    return if hit then [GlobOverride] else [];
  }

  /** Whether the monitor follows the path, and the notes that explain why. */
  method ExplainPath(glob: Glob, f: Filter, home: Path, path: Path) returns (ok: bool, trace: seq<Note>)
    ensures ok == Verdict(glob, f, home, path)
    ensures forall i :: 0 <= i < |trace| ==> NoteTrue(glob, f, home, path, trace[i])
    ensures trace != [] && (trace[0].InHome? <==> home <= path)
    ensures |trace| == 1 <==> home <= path || !RootAllows(path, f) || !RulesExclude(glob, f, path)
    ensures |trace| > 1 ==> (|trace| == 3 <==> RulesOverride(glob, f, path)) && |trace| <= 3
    ensures |trace| > 1 ==> trace[1].ParentExcluded? || trace[1].DirectoryExcluded? || trace[1].GlobExcluded?
    ensures |trace| > 2 ==> trace[2].ParentOverride? || trace[2].GlobOverride?
  {
    if home <= path {
      return false, [InHome(home)];
    }
    var allowed, note := EvaluateRoots(path, f);
    if !allowed {
      return false, [note];
    }
    var excluded := FindExclusion(glob, f, home, path);
    if excluded == [] {
      return true, [note];
    }
    var back := FindOverride(glob, f, home, path);
    if back == [] {
      return false, [note, excluded[0]];
    }
    return true, [note, excluded[0], back[0]];
  }

  // ---------------------------------------------------------------- what the rules promise

  predicate Within<T(==)>(a: seq<T>, b: seq<T>) { forall i :: 0 <= i < |a| ==> a[i] in b }

  /** No include list loses an entry and no exclude list gains one. */
  predicate Looser(f: Filter, g: Filter) {
    && Within(f.includePaths, g.includePaths) && Within(g.excludePaths, f.excludePaths)
    && Within(f.includeDirnames, g.includeDirnames) && Within(g.excludeDirnames, f.excludeDirnames)
    && Within(f.includeGlobs, g.includeGlobs) && Within(g.excludeGlobs, f.excludeGlobs)
  }

  lemma {:induction false} SetOfWithin(a: seq<Path>, b: seq<Path>)
    requires Within(a, b)
    ensures SetOf(a) <= SetOf(b)
  {
  }

  lemma {:induction false} NamesWithin(a: seq<string>, b: seq<string>)
    requires Within(a, b)
    ensures Names(a) <= Names(b)
  {
    forall x | x in Names(a) ensures x in Names(b) {
      var i :| 0 <= i < |a| && Strip(a[i]) != "" && Strip(a[i]) == x;
      assert a[i] in b;
      var j :| 0 <= j < |b| && b[j] == a[i];
    }
  }

  lemma {:induction false} GlobsWithin(glob: Glob, a: seq<string>, b: seq<string>, p: Path)
    requires Within(a, b) && MatchesGlob(glob, a, p)
    ensures MatchesGlob(glob, b, p)
  {
    var i :| 0 <= i < |a| && GlobHits(glob, Strip(a[i]), p);
    assert a[i] in b;
    var j :| 0 <= j < |b| && b[j] == a[i];
  }

  /** From any root at or above a path one can climb down to the nearest. */
  lemma {:induction false} NearestExists(p: Path, f: Filter, n: nat) returns (m: nat)
    requires n <= |p| && IsRoot(p[..n], f)
    ensures n <= m && NearestRoot(p, f, m)
    decreases |p| - n
  {
    if k :| n < k <= |p| && IsRoot(p[..k], f) {
      m := NearestExists(p, f, k);
    } else {
      m := n;
    }
  }

  lemma {:induction false} RootsMonotone(f: Filter, g: Filter, p: Path)
    requires Looser(f, g) && RootAllows(p, f)
    ensures RootAllows(p, g)
  {
    SetOfWithin(f.includePaths, g.includePaths);
    SetOfWithin(g.excludePaths, f.excludePaths);
    var n :| 0 <= n <= |p| && NearestRoot(p, f, n) && p[..n] !in SetOf(f.excludePaths);
    assert IsRoot(p[..n], g);
    var m := NearestExists(p, g, n);
    assert m > n ==> !IsRoot(p[..m], f);
  }

  /** A path that is followed stays followed when includes are added or excludes removed, for
      every depth and every glob. */
  lemma {:induction false} VerdictMonotone(glob: Glob, f: Filter, g: Filter, home: Path, p: Path)
    requires Looser(f, g) && Verdict(glob, f, home, p)
    ensures Verdict(glob, g, home, p)
  {
    RootsMonotone(f, g, p);
    NamesWithin(g.excludeDirnames, f.excludeDirnames);
    NamesWithin(f.includeDirnames, g.includeDirnames);
    if RulesExclude(glob, g, p) {
      if MatchesGlob(glob, g.excludeGlobs, p) {
        GlobsWithin(glob, g.excludeGlobs, f.excludeGlobs, p);
      }
      assert RulesExclude(glob, f, p);
      if MatchesGlob(glob, f.includeGlobs, p) {
        GlobsWithin(glob, f.includeGlobs, g.includeGlobs, p);
      }
    }
  }

  /** A path is followed up to its nearest root alone: roots that are not at or above it, and
      roots further up, make no difference. */
  lemma {:induction false} OnlyNearestRootCounts(f: Filter, g: Filter, p: Path, n: nat)
    requires n <= |p| && NearestRoot(p, f, n)
    requires forall m :: n <= m <= |p| ==>
      (p[..m] in SetOf(f.includePaths) <==> p[..m] in SetOf(g.includePaths))
      && (p[..m] in SetOf(f.excludePaths) <==> p[..m] in SetOf(g.excludePaths))
    ensures RootAllows(p, f) <==> p[..n] !in SetOf(f.excludePaths)
    ensures RootAllows(p, g) <==> p[..n] !in SetOf(f.excludePaths)
  {
    NearestIsUnique(p, f, n);
    assert NearestRoot(p, g, n) by {
      assert IsRoot(p[..n], g);
    }
    NearestIsUnique(p, g, n);
  }

  // ---------------------------------------------------------------- the rules spelled out

  /** A list names it: some entry, stripped, is this name, which is not blank. */
  predicate Lists(entries: seq<string>, name: string) {
    name != "" && exists i :: 0 <= i < |entries| && Strip(entries[i]) == name
  }

  /** Some entry, stripped and not blank, matches the path as written or its last component. */
  predicate Hits(glob: Glob, entries: seq<string>, p: Path) {
    exists i :: 0 <= i < |entries| && Strip(entries[i]) != ""
      && (glob(Posix(p), Strip(entries[i])) || glob(if p == [] then "" else p[|p| - 1], Strip(entries[i])))
  }

  /** Some included path stands at or above the path; it is not excluded, and no path listed on either
      side stands below it. */
  predicate FollowsRoot(f: Filter, p: Path) {
    exists n :: 0 <= n <= |p| && p[..n] in f.includePaths && p[..n] !in f.excludePaths
      && forall m :: n < m <= |p| ==> p[..m] !in f.includePaths && p[..m] !in f.excludePaths
  }

  lemma {:induction false} NamesAreListed(entries: seq<string>, name: string)
    ensures name in Names(entries) <==> Lists(entries, name)
  {
  }

  lemma {:induction false} InSetOf(ps: seq<Path>, p: Path)
    ensures p in SetOf(ps) <==> p in ps
  {
  }

  lemma {:induction false} GlobsHit(glob: Glob, entries: seq<string>, p: Path)
    ensures MatchesGlob(glob, entries, p) <==> Hits(glob, entries, p)
  {
    forall i | 0 <= i < |entries|
      ensures var e := Strip(entries[i]);
        GlobHits(glob, e, p) <==> e != "" && (glob(Posix(p), e) || glob(if p == [] then "" else p[|p| - 1], e))
    {
    }
  }

  lemma {:induction false} RootsFollow(f: Filter, p: Path)
    ensures RootAllows(p, f) <==> FollowsRoot(f, p)
  {
    forall n | 0 <= n <= |p|
      ensures (p[..n] in SetOf(f.includePaths) <==> p[..n] in f.includePaths)
              && (p[..n] in SetOf(f.excludePaths) <==> p[..n] in f.excludePaths)
    {
      InSetOf(f.includePaths, p[..n]);
      InSetOf(f.excludePaths, p[..n]);
    }
    if RootAllows(p, f) {
      var n :| 0 <= n <= |p| && NearestRoot(p, f, n) && p[..n] !in SetOf(f.excludePaths);
      assert forall m :: n < m <= |p| ==> !IsRoot(p[..m], f);
    }
    if FollowsRoot(f, p) {
      var n :| 0 <= n <= |p| && p[..n] in f.includePaths && p[..n] !in f.excludePaths
        && forall m :: n < m <= |p| ==> p[..m] !in f.includePaths && p[..m] !in f.excludePaths;
      assert NearestRoot(p, f, n);
    }
  }

  /** The verdict in terms of the six lists: outside the program's own directory, below an included
      path as its nearest root, and, when a component's name or a pattern excludes it, with a parent
      directory's name or a pattern that brings it back. */
  lemma {:induction false} VerdictExactly(glob: Glob, f: Filter, home: Path, p: Path)
    ensures Verdict(glob, f, home, p) <==>
      && !(home <= p) && FollowsRoot(f, p)
      && ((exists i :: 0 <= i < |p| && Lists(f.excludeDirnames, p[i])) || Hits(glob, f.excludeGlobs, p) ==>
            (|p| >= 2 && Lists(f.includeDirnames, p[|p| - 2])) || Hits(glob, f.includeGlobs, p))
  {
    RootsFollow(f, p);
    GlobsHit(glob, f.excludeGlobs, p);
    GlobsHit(glob, f.includeGlobs, p);
    NamesAreListed(f.includeDirnames, Name(Parent(p)));
    forall i | 0 <= i < |p| ensures p[i] in Names(f.excludeDirnames) <==> Lists(f.excludeDirnames, p[i]) {
      NamesAreListed(f.excludeDirnames, p[i]);
    }
  }
}
