/** What rank fusion and its over-fetch mean for the results of a strategy. */
module StrategyLaws {
  import opened Fusion
  import opened Dedupe
  import opened Overfetch
  import opened OverfetchLimit
  import opened StrategySearch

  // ---------------------------------------------------------------- three times the results

  /** The search returns what it would without cutting the fused list. */
  ghost predicate LosesNone(loc: Locator, lists: seq<seq<Hit>>, k: nat) {
    Search(loc, lists, k) == SearchUncut(loc, lists, k)
  }

  ghost predicate StrategyLossless(n: nat, k: nat) {
    forall loc: Locator, answers: seq<Answer> :: |answers| == n ==> LosesNone(loc, RankedLists(loc, answers, k), k)
  }

  lemma {:induction false} FewerListsFit(m: nat, n: nat, k: nat)
    requires k >= 1 && m <= n && (2 * n - 1) * (k - 1) < 3 * k
    ensures (2 * m - 1) * (k - 1) < 3 * k
  {
    assert (2 * n - 1) * (k - 1) == (2 * m - 1) * (k - 1) + 2 * (n - m) * (k - 1);
    assert (n - m) * (k - 1) >= 0;
  }

  lemma {:induction false} FewAnswersFit(loc: Locator, answers: seq<Answer>, k: nat)
    requires k >= 1 && (2 * |answers| - 1) * (k - 1) < 3 * k
    ensures LosesNone(loc, RankedLists(loc, answers, k), k)
  {
    var lists := RankedLists(loc, answers, k);
    RankedListsDeduped(loc, answers, k);
    FewerListsFit(|lists|, |answers|, k);
    CutIsLossless(loc, lists, k);
  }

  /** Semantic indexes that answer with given lists. */
  function Answering(lists: seq<seq<Hit>>): (answers: seq<Answer>)
    ensures |answers| == |lists|
  {
    seq(|lists|, i requires 0 <= i < |lists| => Semantic(lists[i]))
  }

  lemma {:induction false} ShortListStays(loc: Locator, l: seq<Hit>, k: nat)
    requires Deduped(loc, l) && k >= 1 && |l| <= 3 * k
    ensures DedupeHits(loc, l, 3 * k) == l
  {
    DedupedIsKept(loc, l, {}, {});
    DedupeTakes(loc, l, 3 * k);
  }

  lemma {:induction false} OneAnswerMore(loc: Locator, lists: seq<seq<Hit>>, last: seq<Hit>, k: nat)
    ensures RankedLists(loc, Answering(lists + [last]), k)
      == RankedLists(loc, Answering(lists), k) + [DedupeHits(loc, last, 3 * k)]
  {
    assert Answering(lists + [last]) == Answering(lists) + [Semantic(last)];
    var all := Answering(lists) + [Semantic(last)];
    assert all[..|all| - 1] == Answering(lists);
  }

  ghost predicate Short(lists: seq<seq<Hit>>, k: nat) { forall l :: l in lists ==> |l| <= 3 * k }

  ghost predicate Fusible(loc: Locator, lists: seq<seq<Hit>>, k: nat) { AllDeduped(loc, lists) && Short(lists, k) }

  /** Deduplicated lists of at most 3k hits are fused as they are. */
  lemma {:induction false} FusedAsTheyAre(loc: Locator, lists: seq<seq<Hit>>, k: nat)
    requires k >= 1 && Fusible(loc, lists, k)
    ensures RankedLists(loc, Answering(lists), k) == lists
  {
    if lists != [] {
      var front, last := lists[..|lists| - 1], lists[|lists| - 1];
      assert lists == front + [last] && last in lists && forall l :: l in front ==> l in lists;
      FusedAsTheyAre(loc, front, k);
      OneAnswerMore(loc, front, last, k);
      ShortListStays(loc, last, k);
    }
  }

  lemma {:induction false} CrowdIsShort(n: nat, k: nat)
    requires k >= 1
    ensures Short(Crowd(n, k - 1, n), k)
  {
    var lists := Crowd(n, k - 1, n);
    forall l | l in lists ensures |l| <= 3 * k {
      var i :| 0 <= i < |lists| && lists[i] == l;
      CrowdAt(n, k - 1, n, i);
    }
  }

  lemma {:induction false} CrowdIsFusible(loc: Locator, n: nat, k: nat)
    requires k >= 1
    ensures Fusible(loc, Crowd(n, k - 1, n), k)
  {
    CrowdDeduped(loc, n, k - 1);
    CrowdIsShort(n, k);
  }

  lemma {:induction false} CrowdLosesSome(loc: Locator, n: nat, k: nat)
    requires k >= 1 && (2 * n - 1) * (k - 1) >= 3 * k
    ensures !LosesNone(loc, Crowd(n, k - 1, n), k)
  {
    FewListsFit(n, k);
    CrowdLoses(loc, n, k);
  }

  lemma {:induction false} SomeAnswersLose(loc: Locator, answers: seq<Answer>, k: nat)
    requires !LosesNone(loc, RankedLists(loc, answers, k), k)
    ensures !StrategyLossless(|answers|, k)
  {
  }

  /** Over whatever n indexes answer, cutting the fused list at three times the results loses
      none exactly when (2n - 1)(k - 1) < 3k. */
  lemma {:induction false} StrategyLosslessExactly(n: nat, k: nat)
    requires k >= 1
    ensures StrategyLossless(n, k) <==> (2 * n - 1) * (k - 1) < 3 * k
  {
    if (2 * n - 1) * (k - 1) < 3 * k {
      forall loc: Locator, answers: seq<Answer> | |answers| == n
        ensures LosesNone(loc, RankedLists(loc, answers, k), k)
      {
        FewAnswersFit(loc, answers, k);
      }
    } else {
      var loc := Locator("", (s: string) => s);
      CrowdLosesSome(loc, n, k);
      CrowdIsFusible(loc, n, k);
      FusedAsTheyAre(loc, Crowd(n, k - 1, n), k);
      SomeAnswersLose(loc, Answering(Crowd(n, k - 1, n)), k);
    }
  }

  // ---------------------------------------------------------------- unanimity

  /** Result p stands in for a hit: it is the hit or collides with it, and scores no less. */
  predicate StandsFor(result: Hit, h: Hit) { Collides(result, h) && result.score >= h.score }

  lemma {:induction false} MergedCanonical(loc: Locator, lists: seq<seq<Hit>>, k: nat, i: nat)
    requires AllDeduped(loc, lists) && i < |Merge(lists, k)|
    ensures Canon(loc, Merge(lists, k)[i]) == Merge(lists, k)[i]
  {
    var g := RankedFrom(lists, i);
    var l := FlatSource(lists, g);
    assert Deduped(loc, lists[l]) && Canon(loc, g) == g;
  }

  lemma {:induction false} MergedSorted(lists: seq<seq<Hit>>, k: nat, h: nat, i: nat)
    requires h <= i < |Merge(lists, k)|
    ensures Merge(lists, k)[h].score >= Merge(lists, k)[i].score
  {
    RankingIs(lists);
    EarlierScoresMore(lists, h, i);
  }

  /** A hit with the key scores more than result q and has a result before q that stands in for it. */
  ghost predicate Preceded(results: seq<Hit>, q: nat, merged: seq<Hit>, key: string) {
    exists p, i :: 0 <= p < q < |results| && 0 <= i < |merged| && HitKey(merged[i]) == key
      && StandsFor(results[p], merged[i]) && merged[i].score > results[q].score
  }

  lemma {:induction false} EarlierIsRepresented(loc: Locator, lists: seq<seq<Hit>>, k: nat, j: nat, i: nat)
    returns (p: nat)
    requires AllDeduped(loc, lists) && i < j <= |Merge(lists, k)|
    ensures var before := Kept(loc, Merge(lists, k)[..j], {}, {});
            p < |before| && StandsFor(before[p], Merge(lists, k)[i])
  {
    var h;
    p, h := HitIsRepresented(loc, Merge(lists, k)[..j], i);
    MergedCanonical(loc, lists, k, i);
    MergedCanonical(loc, lists, k, h);
    MergedSorted(lists, k, h, i);
  }

  lemma {:induction false} ResultsPreceded(loc: Locator, lists: seq<seq<Hit>>, k: nat, a: string, b: string, q: nat)
    requires AllDeduped(loc, lists) && forall l :: l in lists ==> DistinctKeys(l) && Precedes(l, a, b)
    requires var kept := Kept(loc, Merge(lists, k), {}, {}); q < |kept| && HitKey(kept[q]) == b
    ensures Preceded(Kept(loc, Merge(lists, k), {}, {}), q, Merge(lists, k), a)
  {
    var merged := Merge(lists, k);
    var j := ResultIsHit(loc, merged, q);
    MergedCanonical(loc, lists, k, j);
    FusionIsUnanimous(lists, k, a, b, j);
    var i :| 0 <= i < j && HitKey(merged[i]) == a && merged[i].score > merged[j].score;
    var p := EarlierIsRepresented(loc, lists, k, j, i);
  }

  /** What all indexes that have the latter agree on, the results keep: before a result comes the
      hit that precedes it everywhere, or a result that stands in for that hit. */
  lemma {:induction false} StrategyIsUnanimous(loc: Locator, answers: seq<Answer>, k: nat, a: string, b: string,
                                               q: nat)
    requires k >= 1 && forall l :: l in RankedLists(loc, answers, k) ==> Precedes(l, a, b)
    requires var results := Search(loc, RankedLists(loc, answers, k), k);
             q < |results| && HitKey(results[q]) == b
    ensures var lists := RankedLists(loc, answers, k);
            Preceded(Search(loc, lists, k), q, Merge(lists, k), a)
  {
    var lists := RankedLists(loc, answers, k);
    RankedListsDeduped(loc, answers, k);
    DedupeTakes(loc, Merge(lists, k), k);
    ResultsPreceded(loc, lists, k, a, b, q);
    PrecededInFront(Kept(loc, Merge(lists, k), {}, {}), q, Merge(lists, k), a, k);
  }

  lemma {:induction false} PrecededInFront(results: seq<Hit>, q: nat, merged: seq<Hit>, key: string, k: nat)
    requires Preceded(results, q, merged, key) && q < |Take(results, k)|
    ensures Preceded(Take(results, k), q, merged, key)
  {
    var p, i :| 0 <= p < q && 0 <= i < |merged| && HitKey(merged[i]) == key
      && StandsFor(results[p], merged[i]) && merged[i].score > results[q].score;
    assert Take(results, k)[p] == results[p] && Take(results, k)[q] == results[q];
  }
}
