/** Asking a strategy for more results: are the ones already there kept? */
module SearchStability {
  import opened Fusion
  import opened Dedupe
  import opened RankOrder
  import opened Pages
  import opened Overtaking
  import opened StrategySearch

  /** What a strategy returns for k results: the lists are fetched anew, three times as long. */
  function Results(loc: Locator, answers: seq<Answer>, k: nat): seq<Hit> {
    Search(loc, RankedLists(loc, answers, k), k)
  }

  // ---------------------------------------------------------------- which answers

  /** What an index of a strategy is; any index may also have no answer. */
  datatype Kind = SemanticIndex | LexicalIndex

  predicate OfKind(a: Answer, kind: Kind) {
    a.Skipped? || if kind.SemanticIndex? then a.Semantic? else a.Lexical?
  }

  /** A text search finds no more chunks than asked for, and ranking adds none. */
  ghost predicate Proper(a: Answer) {
    a.Lexical? ==> (forall n: nat :: |a.found(n)| <= n) && forall c: seq<Hit> :: |a.rank(c)| <= |c|
  }

  ghost predicate FindsFirst(found: nat -> seq<Hit>, all: seq<Hit>) { forall n: nat :: found(n) == Take(all, n) }

  /** What is more, the chunks found are the first ones of one list, and ranking only reorders. */
  ghost predicate Plain(a: Answer) {
    a.Lexical? ==>
      && (exists all: seq<Hit> :: FindsFirst(a.found, all))
      && forall c: seq<Hit> :: multiset(a.rank(c)) == multiset(c)
  }

  ghost predicate AnswersOf(kinds: seq<Kind>, answers: seq<Answer>) {
    && |answers| == |kinds|
    && forall i :: 0 <= i < |answers| ==> OfKind(answers[i], kinds[i]) && Proper(answers[i])
  }

  ghost predicate PlainAnswersOf(kinds: seq<Kind>, answers: seq<Answer>) {
    && |answers| == |kinds|
    && forall i :: 0 <= i < |answers| ==> OfKind(answers[i], kinds[i]) && Plain(answers[i])
  }

  /** The k results are the first ones of more results, with their scores. */
  ghost predicate Stable(kinds: seq<Kind>, k: nat, more: nat) {
    forall loc: Locator, answers: seq<Answer> :: AnswersOf(kinds, answers) ==>
      Results(loc, answers, k) <= Results(loc, answers, more)
  }

  /** The least one would ask for: their uris are, when the answers are plain. */
  ghost predicate LooselyStable(kinds: seq<Kind>, k: nat, more: nat) {
    forall loc: Locator, answers: seq<Answer> :: PlainAnswersOf(kinds, answers) ==>
      UriList(Results(loc, answers, k)) <= UriList(Results(loc, answers, more))
  }

  lemma {:induction false} PlainIsProper(a: Answer)
    requires Plain(a)
    ensures Proper(a)
  {
    if a.Lexical? {
      var all :| FindsFirst(a.found, all);
      forall c ensures |a.rank(c)| <= |c| {
        assert |multiset(a.rank(c))| == |multiset(c)|;
      }
    }
  }

  lemma {:induction false} StableIsLooselyStable(kinds: seq<Kind>, k: nat, more: nat)
    requires Stable(kinds, k, more)
    ensures LooselyStable(kinds, k, more)
  {
    forall loc: Locator, answers: seq<Answer> | PlainAnswersOf(kinds, answers)
      ensures UriList(Results(loc, answers, k)) <= UriList(Results(loc, answers, more))
    {
      forall i | 0 <= i < |answers| ensures Proper(answers[i]) {
        PlainIsProper(answers[i]);
      }
      assert AnswersOf(kinds, answers);
    }
  }

  // ---------------------------------------------------------------- one list

  /** A list with the scores of its ranks. */
  function Rescored(l: seq<Hit>): seq<Hit> {
    seq(|l|, i requires 0 <= i < |l| => l[i].(score := Share(i)))
  }

  ghost predicate Single(lists: seq<seq<Hit>>) { |lists| == 1 && UniqueKeys(lists) }

  lemma {:induction false} OneListSingle(l: seq<Hit>)
    requires DistinctKeys(l)
    ensures Single([l])
  {
    forall i, r, j, q | IsPlace([l], i, r) && IsPlace([l], j, q) && (i != j || r != q)
      ensures HitKey([l][i][r]) != HitKey([l][j][q])
    {
      assert r < q || q < r;
    }
  }

  lemma {:induction false} RankOfPlace(lists: seq<seq<Hit>>, r: nat) returns (p: nat)
    requires Single(lists) && r < |lists[0]|
    ensures Holds(lists, p, 0, r) && p >= r
  {
    p := PositionOf(lists, 0, r);
    if r > 0 {
      var before := RankOfPlace(lists, r - 1);
      LowerRankFirst(lists, before, 0, r - 1, p, 0, r);
    }
  }

  lemma {:induction false} RankOfLast(lists: seq<seq<Hit>>, r: nat) returns (p: nat)
    requires Single(lists) && r < |lists[0]|
    ensures Holds(lists, p, 0, r) && p <= |Ranking(lists)| - (|lists[0]| - r)
    decreases |lists[0]| - r
  {
    p := PositionOf(lists, 0, r);
    if r < |lists[0]| - 1 {
      var after := RankOfLast(lists, r + 1);
      LowerRankFirst(lists, p, 0, r, after, 0, r + 1);
    }
  }

  lemma {:induction false} PlaceIsRank(lists: seq<seq<Hit>>, r: nat) returns (p: nat)
    requires Single(lists) && r < |lists[0]| == |Ranking(lists)|
    ensures Holds(lists, p, 0, r) && p == r
  {
    p := RankOfPlace(lists, r);
    var q := RankOfLast(lists, r);
    HeldOnce(lists, p, q, 0, r);
  }

  lemma {:induction false} HitStaysAt(lists: seq<seq<Hit>>, r: nat)
    requires Single(lists) && r < |lists[0]| == |Ranking(lists)|
    ensures Ranking(lists)[r] == lists[0][r].(score := Share(r))
  {
    var p := PlaceIsRank(lists, r);
  }

  lemma {:induction false} SingleFlat(lists: seq<seq<Hit>>)
    requires |lists| == 1
    ensures Flat(lists) == lists[0]
  {
    assert lists[..0] == [] && Flat(lists[..0]) == [];
  }

  lemma {:induction false} SingleKeepsOrder(lists: seq<seq<Hit>>)
    requires Single(lists)
    ensures Ranking(lists) == Rescored(lists[0])
  {
    RankingLength(lists);
    SingleFlat(lists);
    forall r | 0 <= r < |lists[0]| ensures Ranking(lists)[r] == Rescored(lists[0])[r] {
      HitStaysAt(lists, r);
    }
  }

  /** Fusing one list only scores it by rank. */
  lemma {:induction false} OneListKeepsOrder(l: seq<Hit>)
    requires DistinctKeys(l)
    ensures Ranking([l]) == Rescored(l)
  {
    OneListSingle(l);
    SingleKeepsOrder([l]);
  }

  lemma {:induction false} RescoredDeduped(loc: Locator, l: seq<Hit>)
    requires Deduped(loc, l)
    ensures Deduped(loc, Rescored(l)) && DistinctKeys(l)
  {
    var s := Rescored(l);
    forall h | h in s ensures Canon(loc, h) == h {
      var i :| 0 <= i < |s| && s[i] == h;
      assert l[i] in l;
    }
    forall i, j | 0 <= i < j < |l| ensures !Collides(s[i], s[j]) && HitKey(l[i]) != HitKey(l[j]) {
      HitKeyInjective(l[i], l[j]);
    }
  }

  lemma {:induction false} OneListSearch(loc: Locator, hits: seq<Hit>, k: nat)
    requires k >= 1
    ensures Search(loc, [DedupeHits(loc, hits, 3 * k)], k) == Take(Rescored(Kept(loc, hits, {}, {})), k)
  {
    var all, l := Kept(loc, hits, {}, {}), DedupeHits(loc, hits, 3 * k);
    DedupeTakes(loc, hits, 3 * k);
    DedupeIsDeduped(loc, hits, 3 * k);
    RescoredDeduped(loc, l);
    OneListKeepsOrder(l);
    assert Merge([l], k) == Rescored(l);
    DedupedIsKept(loc, Rescored(l), {}, {});
    DedupeTakes(loc, Rescored(l), k);
    assert Take(Rescored(l), k) == Take(Rescored(all), k);
  }

  lemma {:induction false} NoListsNoResults(loc: Locator, k: nat)
    ensures Search(loc, [], k) == []
  {
    RankingIs([]);
    SortedKeysPresent([]);
    assert SortedKeys([]) == [];
  }

  lemma {:induction false} OneAnswer(loc: Locator, answers: seq<Answer>, k: nat)
    requires |answers| <= 1
    ensures RankedLists(loc, answers, k)
      == if |answers| == 0 || answers[0].Skipped? then [] else [DedupeHits(loc, RawHits(answers[0], 3 * k), 3 * k)]
  {
    if |answers| == 1 {
      assert |answers[..0]| == 0;
    }
  }

  /** One index is stable when it ranks the same chunks. */
  lemma {:induction false} OneAnswerIsStable(loc: Locator, answers: seq<Answer>, k: nat, more: nat)
    requires |answers| <= 1 && 1 <= k <= more
    requires |answers| == 1 && !answers[0].Skipped? ==> RawHits(answers[0], 3 * k) == RawHits(answers[0], 3 * more)
    ensures Results(loc, answers, k) <= Results(loc, answers, more)
  {
    OneAnswer(loc, answers, k);
    OneAnswer(loc, answers, more);
    if |answers| == 0 || answers[0].Skipped? {
      NoListsNoResults(loc, k);
    } else {
      OneListSearch(loc, RawHits(answers[0], 3 * k), k);
      OneListSearch(loc, RawHits(answers[0], 3 * k), more);
    }
  }

  // ---------------------------------------------------------------- one lexical index

  /** A lexical index ranks as many chunks for k results as for more, exactly from seventeen on. */
  lemma {:induction false} LimitSaturates(k: nat, more: nat)
    requires 1 <= k < more
    ensures CandidateLimit(3 * k) == CandidateLimit(3 * more) <==> k >= 17
    ensures CandidateLimit(3 * k) <= CandidateLimit(3 * more)
  {
  }

  /** A ranking that puts the last chunk first when there are more than n. */
  function LastFirst(n: nat): seq<Hit> -> seq<Hit> {
    (c: seq<Hit>) => if |c| <= n then c else [c[|c| - 1]] + c[..|c| - 1]
  }

  function Finding(all: seq<Hit>): nat -> seq<Hit> { (n: nat) => Take(all, n) }

  function Shuffling(n: nat): Answer { Lexical(Finding(Docs(n + 1)), LastFirst(n)) }

  lemma {:induction false} ShufflingIsPlain(n: nat)
    ensures Plain(Shuffling(n))
  {
    assert FindsFirst(Finding(Docs(n + 1)), Docs(n + 1));
    forall c: seq<Hit> ensures multiset(LastFirst(n)(c)) == multiset(c) {
      if |c| > n {
        assert c == c[..|c| - 1] + [c[|c| - 1]];
      }
    }
  }

  lemma {:induction false} FirstOfOneList(loc: Locator, hits: seq<Hit>, k: nat)
    requires k >= 1 && hits != []
    ensures var found := Search(loc, [DedupeHits(loc, hits, 3 * k)], k);
            found != [] && found[0].uri == Canon(loc, hits[0]).uri
  {
    OneListSearch(loc, hits, k);
    assert Kept(loc, hits, {}, {})[0] == Canon(loc, hits[0]);
  }

  lemma {:induction false} ShufflingFirst(loc: Locator, n: nat, k: nat)
    requires k >= 1 && n >= 1
    ensures var found := Results(loc, [Shuffling(n)], k);
            found != [] && found[0].uri == Doc(if CandidateLimit(3 * k) <= n then 0 else n, 0).uri
  {
    var raw := RawHits(Shuffling(n), 3 * k);
    var first := if CandidateLimit(3 * k) <= n then 0 else n;
    assert raw != [] && raw[0] == Doc(first, 0);
    OneAnswer(loc, [Shuffling(n)], k);
    FirstOfOneList(loc, raw, k);
    PageCanonical(loc, Opener(first), 0, Opener(first));
  }

  lemma {:induction false} Unstable(kinds: seq<Kind>, k: nat, more: nat, loc: Locator, answers: seq<Answer>)
    requires PlainAnswersOf(kinds, answers)
    requires !(UriList(Results(loc, answers, k)) <= UriList(Results(loc, answers, more)))
    ensures !LooselyStable(kinds, k, more)
  {
  }

  lemma {:induction false} FirstsDiffer(few: seq<Hit>, many: seq<Hit>)
    requires few != [] && many != [] && few[0].uri != many[0].uri
    ensures !(UriList(few) <= UriList(many))
  {
    assert UriList(few)[0] != UriList(many)[0];
  }

  /** One lexical index that ranks more chunks for more results may rank another one first. */
  lemma {:induction false} LexicalUnstable(k: nat, more: nat)
    requires 1 <= k < more && k < 17
    ensures !LooselyStable([LexicalIndex], k, more)
  {
    var loc, n := Locator("", (s: string) => s), CandidateLimit(3 * k);
    LimitSaturates(k, more);
    ShufflingIsPlain(n);
    ShufflingFirst(loc, n, k);
    ShufflingFirst(loc, n, more);
    OpenersDiffer(0, n);
    NamesDiffer(Opener(0), Opener(n));
    FirstsDiffer(Results(loc, [Shuffling(n)], k), Results(loc, [Shuffling(n)], more));
    Unstable([LexicalIndex], k, more, loc, [Shuffling(n)]);
  }

  // ---------------------------------------------------------------- two indexes

  /** An index of either kind whose ranking is a list. */
  function Holding(kind: Kind, l: seq<Hit>): Answer {
    if kind.SemanticIndex? then Semantic(l) else Lexical(Finding(l), (c: seq<Hit>) => c)
  }

  lemma {:induction false} HoldingIsPlain(kind: Kind, l: seq<Hit>)
    ensures Plain(Holding(kind, l)) && OfKind(Holding(kind, l), kind) && !Holding(kind, l).Skipped?
  {
    assert FindsFirst(Finding(l), l);
  }

  function Listed(loc: Locator, a: Answer, k: nat): seq<seq<Hit>> {
    if a.Skipped? then [] else [DedupeHits(loc, RawHits(a, 3 * k), 3 * k)]
  }

  /** Two answers at their places among n. */
  function Placed(n: nat, i: nat, a: Answer, j: nat, b: Answer): seq<Answer> {
    seq(n, l => if l == i then a else if l == j then b else Skipped)
  }

  lemma {:induction false} OneMoreAnswer(loc: Locator, answers: seq<Answer>, m: nat, k: nat)
    requires 0 < m <= |answers|
    ensures RankedLists(loc, answers[..m], k)
      == RankedLists(loc, answers[..m - 1], k) + Listed(loc, answers[m - 1], k)
  {
    assert answers[..m][..m - 1] == answers[..m - 1];
  }

  /** What the first m answers list, when all but two are skipped. */
  function PlacedPart(loc: Locator, a: Answer, i: nat, m: nat, k: nat): seq<seq<Hit>> {
    if m > i then Listed(loc, a, k) else []
  }

  lemma {:induction false} PlacedLists(loc: Locator, answers: seq<Answer>, i: nat, j: nat, m: nat, k: nat)
    requires i < j < |answers| && m <= |answers|
    requires forall l :: 0 <= l < |answers| && l != i && l != j ==> answers[l].Skipped?
    ensures RankedLists(loc, answers[..m], k)
      == PlacedPart(loc, answers[i], i, m, k) + PlacedPart(loc, answers[j], j, m, k)
  {
    if m > 0 {
      PlacedLists(loc, answers, i, j, m - 1, k);
      OneMoreAnswer(loc, answers, m, k);
      if m - 1 != i && m - 1 != j {
        assert Listed(loc, answers[m - 1], k) == [];
      }
    }
  }

  lemma {:induction false} HoldingList(loc: Locator, kind: Kind, l: seq<Hit>, k: nat)
    requires Deduped(loc, l) && k >= 1
    requires kind.LexicalIndex? ==> |l| <= CandidateLimit(3 * k) || 3 * k <= CandidateLimit(3 * k)
    ensures Listed(loc, Holding(kind, l), k) == [Take(l, 3 * k)]
  {
    var raw := RawHits(Holding(kind, l), 3 * k);
    assert raw <= l && Take(raw, 3 * k) == Take(l, 3 * k);
    DedupedFront(loc, l, |raw|);
    DedupedIsKept(loc, raw, {}, {});
    DedupeTakes(loc, raw, 3 * k);
  }

  lemma {:induction false} DedupedFront(loc: Locator, l: seq<Hit>, n: nat)
    requires Deduped(loc, l) && n <= |l|
    ensures Deduped(loc, l[..n])
  {
    assert forall h :: h in l[..n] ==> h in l;
  }

  /** Room for the two lists: only a lexical index lacks it, for thousands of results. */
  predicate HasRoom(front: Kind, back: Kind, k: nat) {
    (front.LexicalIndex? ==> k < 10000) && (back.LexicalIndex? ==> k < 3334)
  }

  lemma {:induction false} FrontList(loc: Locator, kind: Kind, k: nat, more: nat)
    requires 1 <= k <= more && (kind.LexicalIndex? ==> k < 10000)
    ensures Listed(loc, Holding(kind, Front(k)), more) == [Front(k)]
  {
    FrontDeduped(loc, k);
    HoldingList(loc, kind, Front(k), more);
  }

  lemma {:induction false} BackList(loc: Locator, kind: Kind, k: nat, more: nat)
    requires 1 <= k <= more && (kind.LexicalIndex? ==> k < 3334)
    ensures Listed(loc, Holding(kind, Back(k, 3 * k + 1)), more) == [Back(k, if k == more then 3 * k else 3 * k + 1)]
  {
    BackDeduped(loc, k, 3 * k + 1);
    HoldingList(loc, kind, Back(k, 3 * k + 1), more);
    BackCut(k, more);
  }

  lemma {:induction false} BackCut(k: nat, more: nat)
    requires k <= more
    ensures Take(Back(k, 3 * k + 1), 3 * more) == Back(k, if k == more then 3 * k else 3 * k + 1)
  {
  }

  lemma {:induction false} PlacedPair(loc: Locator, answers: seq<Answer>, i: nat, x: Kind, j: nat, y: Kind,
                                      k: nat, more: nat)
    requires i < |answers| && j < |answers| && i != j && 1 <= k <= more && HasRoom(x, y, k)
    requires answers[i] == Holding(x, Front(k)) && answers[j] == Holding(y, Back(k, 3 * k + 1))
    requires forall l :: 0 <= l < |answers| && l != i && l != j ==> answers[l].Skipped?
    ensures Pair(RankedLists(loc, answers, more), k, if k == more then 3 * k else 3 * k + 1)
  {
    var lo, hi := if i < j then i else j, if i < j then j else i;
    PlacedLists(loc, answers, lo, hi, |answers|, more);
    assert answers[..|answers|] == answers;
    FrontList(loc, x, k, more);
    BackList(loc, y, k, more);
  }

  /** With two indexes that have room, more results may change the first k. */
  lemma {:induction false} TwoUnstable(kinds: seq<Kind>, i: nat, j: nat, k: nat, more: nat)
    requires i < |kinds| && j < |kinds| && i != j && 1 <= k < more && HasRoom(kinds[i], kinds[j], k)
    ensures !LooselyStable(kinds, k, more)
  {
    var loc := Locator("", (s: string) => s);
    var a, b := Holding(kinds[i], Front(k)), Holding(kinds[j], Back(k, 3 * k + 1));
    var answers := Placed(|kinds|, i, a, j, b);
    HoldingIsPlain(kinds[i], Front(k));
    HoldingIsPlain(kinds[j], Back(k, 3 * k + 1));
    PlacedPair(loc, answers, i, kinds[i], j, kinds[j], k, k);
    PlacedPair(loc, answers, i, kinds[i], j, kinds[j], k, more);
    PairOvertakes(loc, RankedLists(loc, answers, k), RankedLists(loc, answers, more), k, more);
    Unstable(kinds, k, more, loc, answers);
  }

  // ---------------------------------------------------------------- lexical indexes only

  lemma {:induction false} KeptIsShorter(loc: Locator, hits: seq<Hit>, uris: set<string>, texts: set<string>)
    ensures |Kept(loc, hits, uris, texts)| <= |hits|
  {
    if hits != [] {
      var h := Canon(loc, hits[0]);
      KeptIsShorter(loc, hits[1..], uris, texts);
      KeptIsShorter(loc, hits[1..], uris + {h.uri}, texts + {h.text});
    }
  }

  /** From 3334 results on, a lexical index answers with all the chunks it ranks. */
  lemma {:induction false} SameLexicalLists(loc: Locator, answers: seq<Answer>, k: nat, more: nat)
    requires 3334 <= k <= more
    requires forall i :: 0 <= i < |answers| ==> Proper(answers[i]) && !answers[i].Semantic?
    ensures RankedLists(loc, answers, k) == RankedLists(loc, answers, more)
  {
    if |answers| > 0 {
      var last := answers[|answers| - 1];
      SameLexicalLists(loc, answers[..|answers| - 1], k, more);
      if last.Lexical? {
        var raw := RawHits(last, 3 * k);
        KeptIsShorter(loc, raw, {}, {});
        DedupeTakes(loc, raw, 3 * k);
        DedupeTakes(loc, raw, 3 * more);
      }
    }
  }

  // ---------------------------------------------------------------- exactly when

  predicate AllLexical(kinds: seq<Kind>) { forall i :: 0 <= i < |kinds| ==> kinds[i].LexicalIndex? }

  /** The indexes for which more than k results keep the first k: none, one semantic index, or
      lexical ones when they no longer rank or return more. */
  predicate KeepsResults(kinds: seq<Kind>, k: nat) {
    || kinds == [] || kinds == [SemanticIndex]
    || (AllLexical(kinds) && k >= if |kinds| == 1 then 17 else 3334)
  }

  /** One semantic index beside lexical ones. */
  predicate OneSemanticAmong(kinds: seq<Kind>) {
    |kinds| > 1 && exists i :: 0 <= i < |kinds| && kinds[i].SemanticIndex? && AllLexical(kinds[i := LexicalIndex])
  }

  lemma {:induction false} KeptResultsStay(kinds: seq<Kind>, k: nat, more: nat)
    requires 1 <= k < more && KeepsResults(kinds, k)
    ensures Stable(kinds, k, more)
  {
    forall loc: Locator, answers: seq<Answer> | AnswersOf(kinds, answers)
      ensures Results(loc, answers, k) <= Results(loc, answers, more)
    {
      if |kinds| <= 1 {
        LimitSaturates(k, more);
        assert |answers| == 1 ==> OfKind(answers[0], kinds[0]);
        OneAnswerIsStable(loc, answers, k, more);
      } else {
        forall i | 0 <= i < |answers| ensures Proper(answers[i]) && !answers[i].Semantic? {
          assert OfKind(answers[i], kinds[i]);
        }
        SameLexicalLists(loc, answers, k, more);
        MoreResultsExtend(loc, RankedLists(loc, answers, k), k, more);
      }
    }
  }

  lemma {:induction false} SecondSemantic(kinds: seq<Kind>, j: nat) returns (i: nat)
    requires j < |kinds| && |kinds| > 1 && kinds[j].SemanticIndex? && !OneSemanticAmong(kinds)
    ensures i < |kinds| && i != j && kinds[i].SemanticIndex?
  {
    assert !AllLexical(kinds[j := LexicalIndex]);
    i :| 0 <= i < |kinds| && !kinds[j := LexicalIndex][i].LexicalIndex?;
  }

  lemma {:induction false} OthersChange(kinds: seq<Kind>, k: nat, more: nat)
    requires 1 <= k < more && !KeepsResults(kinds, k) && (k < 10000 || !OneSemanticAmong(kinds))
    ensures !LooselyStable(kinds, k, more)
  {
    if |kinds| == 1 {
      LexicalUnstable(k, more);
    } else if AllLexical(kinds) {
      TwoUnstable(kinds, 0, 1, k, more);
    } else {
      var j :| 0 <= j < |kinds| && kinds[j].SemanticIndex?;
      var i := if j == 0 then 1 else 0;
      if k >= 10000 {
        i := SecondSemantic(kinds, j);
      }
      TwoUnstable(kinds, i, j, k, more);
    }
  }

  /** More results keep the first k, for whatever indexes of these kinds answer, exactly when
      KeepsResults says so; it makes no difference whether the whole hits are to stay, or only
      the uris, and of plain answers. */
  lemma {:induction false} MoreResultsExactly(kinds: seq<Kind>, k: nat, more: nat)
    requires 1 <= k < more && (k < 10000 || !OneSemanticAmong(kinds))
    ensures Stable(kinds, k, more) <==> KeepsResults(kinds, k)
    ensures LooselyStable(kinds, k, more) <==> KeepsResults(kinds, k)
  {
    if KeepsResults(kinds, k) {
      KeptResultsStay(kinds, k, more);
      StableIsLooselyStable(kinds, k, more);
    } else {
      OthersChange(kinds, k, more);
      if Stable(kinds, k, more) {
        StableIsLooselyStable(kinds, k, more);
      }
    }
  }

  /** Every number of results keeps those of every smaller one exactly with no index, or with
      one semantic index. */
  lemma {:induction false} AlwaysStableExactly(kinds: seq<Kind>)
    ensures (forall k: nat, more: nat :: 1 <= k < more ==> Stable(kinds, k, more))
      <==> kinds == [] || kinds == [SemanticIndex]
  {
    if kinds == [] || kinds == [SemanticIndex] {
      forall k: nat, more: nat | 1 <= k < more ensures Stable(kinds, k, more) {
        KeptResultsStay(kinds, k, more);
      }
    } else {
      MoreResultsExactly(kinds, 1, 2);
    }
  }
}
