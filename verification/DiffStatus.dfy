/** What the status, the similarity and the examples of a text diff say about the cells of the
    similarity matrix. */
module DiffStatus {
  import opened Sorting
  import opened Matching
  import opened SemanticDiff

  // ---------------------------------------------------------------- the mean

  function Times(x: real, n: nat): real { x * n as real }

  lemma {:induction false} WeightAtLeast(m: seq<Pair>, lo: real)
    requires forall k :: 0 <= k < |m| ==> lo <= m[k].score
    ensures Times(lo, |m|) <= Weight(m)
  {
    if m != [] {
      WeightAtLeast(m[1..], lo);
      OneMoreTerm(lo, |m[1..]|);
    }
  }

  lemma {:induction false} WeightAtMost(m: seq<Pair>, hi: real)
    requires forall k :: 0 <= k < |m| ==> m[k].score <= hi
    ensures Weight(m) <= Times(hi, |m|)
  {
    if m != [] {
      WeightAtMost(m[1..], hi);
      OneMoreTerm(hi, |m[1..]|);
    }
  }

  lemma {:induction false} OneMoreTerm(x: real, n: nat)
    ensures Times(x, n + 1) == Times(x, n) + x
  {
  }

  lemma {:induction false} Quotient(w: real, n: real, x: real)
    requires n > 0.0
    ensures w / n * n == w
    ensures w / n >= x <==> w >= x * n
    ensures w / n <= x <==> w <= x * n
  {
    var q := w / n;
    assert q * n == w;
    assert q >= x ==> (q - x) * n >= 0.0;
    assert q < x ==> (x - q) * n > 0.0;
    assert q > x ==> (q - x) * n > 0.0;
    assert (q - x) * n == w - x * n;
  }

  /** The mean of a matching lies between any bounds of its scores. */
  lemma {:induction false} MeanWithin(m: seq<Pair>, lo: real, hi: real)
    requires m != [] && forall k :: 0 <= k < |m| ==> lo <= m[k].score <= hi
    ensures lo <= Mean(m) <= hi && Mean(m) * |m| as real == Weight(m)
  {
    WeightAtLeast(m, lo);
    WeightAtMost(m, hi);
    Quotient(Weight(m), |m| as real, lo);
    Quotient(Weight(m), |m| as real, hi);
  }

  lemma {:induction false} MeanReaches(m: seq<Pair>, x: real)
    requires m != []
    ensures Mean(m) >= x <==> Weight(m) >= x * |m| as real
  {
    Quotient(Weight(m), |m| as real, x);
  }

  // ---------------------------------------------------------------- the status

  /** Some cell reaches the threshold. */
  predicate SomeCell(sim: seq<seq<real>>, threshold: real) {
    exists i, j :: 0 <= i < |sim| && 0 <= j < |sim[i]| && sim[i][j] >= threshold
  }

  predicate RowMatched(g: seq<Pair>, i: nat, threshold: real) {
    exists k :: 0 <= k < |g| && g[k].row == i && g[k].score >= threshold
  }

  predicate ColMatched(g: seq<Pair>, j: nat, threshold: real) {
    exists k :: 0 <= k < |g| && g[k].col == j && g[k].score >= threshold
  }

  /** Every unit of both texts is matched at the threshold or above. */
  predicate AllMatched(g: seq<Pair>, rows: nat, cols: nat, threshold: real) {
    (forall i :: 0 <= i < rows ==> RowMatched(g, i, threshold))
    && (forall j :: 0 <= j < cols ==> ColMatched(g, j, threshold))
  }

  lemma {:induction false} MatchesNeedCells(sim: seq<seq<real>>, threshold: real)
    ensures Greedy(sim, threshold) != [] <==> SomeCell(sim, threshold)
  {
    var g := Greedy(sim, threshold);
    GreedyIsMatching(sim, threshold);
    if g != [] {
      assert g[0] in g && Qualifies(sim, threshold, g[0]);
      assert sim[g[0].row][g[0].col] >= threshold;
    }
    if i, j :| 0 <= i < |sim| && 0 <= j < |sim[i]| && sim[i][j] >= threshold {
      var q := GreedyDominates(sim, threshold, Pair(i, j, sim[i][j]));
    }
  }

  lemma {:induction false} UnmatchedNone(units: seq<string>, used: set<nat>, i: nat)
    requires i <= |units|
    ensures |Unmatched(units, used, i)| == 0 <==> forall j :: i <= j < |units| ==> j in used
    decreases |units| - i
  {
    if i < |units| {
      UnmatchedNone(units, used, i + 1);
    }
  }

  predicate HasRow(g: seq<Pair>, i: nat) { exists k :: 0 <= k < |g| && g[k].row == i }

  predicate HasCol(g: seq<Pair>, j: nat) { exists k :: 0 <= k < |g| && g[k].col == j }

  lemma {:induction false} InRows(g: seq<Pair>, i: nat)
    ensures i in Rows(g) <==> HasRow(g, i)
    ensures i in Cols(g) <==> HasCol(g, i)
  {
    if i in Rows(g) {
      var p :| p in g && p.row == i;
      var k :| 0 <= k < |g| && g[k] == p;
    }
    if i in Cols(g) {
      var p :| p in g && p.col == i;
      var k :| 0 <= k < |g| && g[k] == p;
    }
  }

  lemma {:induction false} NoneBelow(g: seq<Pair>, threshold: real)
    ensures |Below(g, threshold)| == 0 <==> forall k :: 0 <= k < |g| ==> g[k].score >= threshold
  {
    BelowMembers(g, threshold);
    if k :| 0 <= k < |g| && g[k].score < threshold {
      assert g[k] in Below(g, threshold);
    }
    if |Below(g, threshold)| > 0 {
      var p := Below(g, threshold)[0];
      assert p in Below(g, threshold);
      var k :| 0 <= k < |g| && g[k] == p;
    }
  }

  lemma {:induction false} SameRowSame(g: seq<Pair>, i: nat, j: nat)
    requires OneToOne(g) && i < |g| && j < |g| && g[i].row == g[j].row
    ensures i == j
  {
  }

  lemma {:induction false} RowsInUse(units: seq<string>, g: seq<Pair>)
    ensures |Unmatched(units, Rows(g), 0)| == 0 <==> forall i :: 0 <= i < |units| ==> HasRow(g, i)
  {
    UnmatchedNone(units, Rows(g), 0);
    forall i: nat ensures i in Rows(g) <==> HasRow(g, i) {
      InRows(g, i);
    }
  }

  lemma {:induction false} ColsInUse(units: seq<string>, g: seq<Pair>)
    ensures |Unmatched(units, Cols(g), 0)| == 0 <==> forall j :: 0 <= j < |units| ==> HasCol(g, j)
  {
    UnmatchedNone(units, Cols(g), 0);
    forall j: nat ensures j in Cols(g) <==> HasCol(g, j) {
      InRows(g, j);
    }
  }

  lemma {:induction false} GoodEnough(g: seq<Pair>, rows: nat, cols: nat, threshold: real)
    requires OneToOne(g) && AllMatched(g, rows, cols, threshold)
    requires forall k :: 0 <= k < |g| ==> g[k].row < rows
    ensures forall k :: 0 <= k < |g| ==> g[k].score >= threshold
  {
    forall k | 0 <= k < |g| ensures g[k].score >= threshold {
      assert RowMatched(g, g[k].row, threshold);
      var l :| 0 <= l < |g| && g[l].row == g[k].row && g[l].score >= threshold;
      SameRowSame(g, k, l);
    }
  }

  lemma {:induction false} MatchedIsUsed(g: seq<Pair>, i: nat, threshold: real)
    ensures RowMatched(g, i, threshold) ==> HasRow(g, i)
    ensures ColMatched(g, i, threshold) ==> HasCol(g, i)
    ensures (forall k :: 0 <= k < |g| ==> g[k].score >= threshold) ==>
      (HasRow(g, i) ==> RowMatched(g, i, threshold)) && (HasCol(g, i) ==> ColMatched(g, i, threshold))
  {
    if HasRow(g, i) {
      var k :| 0 <= k < |g| && g[k].row == i;
    }
    if HasCol(g, i) {
      var k :| 0 <= k < |g| && g[k].col == i;
    }
  }

  /** Nothing added, removed or modified means that every unit is matched well enough. */
  lemma {:induction false} CountsSayAllMatched(a: seq<string>, b: seq<string>, g: seq<Pair>, threshold: real)
    requires OneToOne(g) && forall k :: 0 <= k < |g| ==> g[k].row < |a| && g[k].col < |b|
    ensures |Unmatched(b, Cols(g), 0)| == 0 && |Unmatched(a, Rows(g), 0)| == 0 && |Below(g, threshold)| == 0
      <==> AllMatched(g, |a|, |b|, threshold)
  {
    RowsInUse(a, g);
    ColsInUse(b, g);
    NoneBelow(g, threshold);
    forall i: nat
      ensures (RowMatched(g, i, threshold) ==> HasRow(g, i)) && (ColMatched(g, i, threshold) ==> HasCol(g, i))
      ensures (forall k :: 0 <= k < |g| ==> g[k].score >= threshold) ==>
        (HasRow(g, i) ==> RowMatched(g, i, threshold)) && (HasCol(g, i) ==> ColMatched(g, i, threshold))
    {
      MatchedIsUsed(g, i, threshold);
    }
    if AllMatched(g, |a|, |b|, threshold) {
      GoodEnough(g, |a|, |b|, threshold);
    }
  }

  function StatusFrom(r: Report, modifiedThreshold: real, unchangedThreshold: real): Status {
    if r.addedCount == 0 && r.removedCount == 0 && r.modifiedCount == 0 then Unchanged
    else if r.similarity >= unchangedThreshold && r.addedCount + r.removedCount <= 1 then NearUnchanged
    else if r.similarity >= modifiedThreshold then Modified
    else Changed
  }

  lemma {:induction false} StatusComesFrom(a: seq<string>, b: seq<string>, sim: seq<seq<real>>,
                                           modifiedThreshold: real, unchangedThreshold: real, maxExamples: int)
    requires Fits(a, b, sim) && a != [] && b != []
    ensures var r := DiffText(a, b, sim, modifiedThreshold, unchangedThreshold, maxExamples);
            r.status == StatusFrom(r, modifiedThreshold, unchangedThreshold)
  {
  }

  lemma {:induction false} MatchedWithin(a: seq<string>, b: seq<string>, sim: seq<seq<real>>, threshold: real)
    requires Fits(a, b, sim)
    ensures var g := Greedy(sim, threshold);
      OneToOne(g) && forall k :: 0 <= k < |g| ==> g[k].row < |a| && g[k].col < |b| && g[k].score >= threshold
  {
    var g := Greedy(sim, threshold);
    GreedyIsMatching(sim, threshold);
    forall k | 0 <= k < |g| ensures g[k].row < |a| && g[k].col < |b| && g[k].score >= threshold {
      assert g[k] in g && Qualifies(sim, threshold, g[k]);
    }
  }

  lemma {:induction false} StatusOfCounts(r: Report, g: seq<Pair>,
                                          modifiedThreshold: real, unchangedThreshold: real)
    requires r.similarity == Mean(g) && r.status == StatusFrom(r, modifiedThreshold, unchangedThreshold)
    requires forall k :: 0 <= k < |g| ==> g[k].score >= modifiedThreshold
    requires g == [] ==> r.addedCount + r.removedCount >= 2
    ensures var same := r.addedCount == 0 && r.removedCount == 0 && r.modifiedCount == 0;
      var near := g != [] && r.addedCount + r.removedCount <= 1 && Weight(g) >= unchangedThreshold * |g| as real;
      var changed := modifiedThreshold > 0.0 && g == [];
      && (r.status == Unchanged <==> same)
      && (r.status == NearUnchanged <==> !same && near)
      && (r.status == Changed <==> changed)
      && (r.status == Modified <==> !same && !near && !changed)
  {
    if g != [] {
      WeightAtLeast(g, modifiedThreshold);
      MeanReaches(g, modifiedThreshold);
      MeanReaches(g, unchangedThreshold);
    }
  }

  predicate Says(status: Status, same: bool, near: bool, changed: bool) {
    && (status == Unchanged <==> same)
    && (status == NearUnchanged <==> !same && near)
    && (status == Changed <==> changed)
    && (status == Modified <==> !same && !near && !changed)
  }

  /** Some cell qualifies, at most one unit is left over, and the matches reach the threshold on average. */
  predicate IsNear(sim: seq<seq<real>>, g: seq<Pair>, r: Report, modifiedThreshold: real, unchangedThreshold: real) {
    SomeCell(sim, modifiedThreshold) && r.addedCount + r.removedCount <= 1
    && Weight(g) >= unchangedThreshold * |g| as real
  }

  predicate HasCountsOf(r: Report, a: seq<string>, b: seq<string>, g: seq<Pair>, unchangedThreshold: real) {
    && r.addedCount == |Unmatched(b, Cols(g), 0)| && r.removedCount == |Unmatched(a, Rows(g), 0)|
    && r.modifiedCount == |Below(g, unchangedThreshold)| && r.similarity == Mean(g)
  }

  lemma {:induction false} StatusOfReport(r: Report, a: seq<string>, b: seq<string>, sim: seq<seq<real>>,
                                          g: seq<Pair>,
                                          modifiedThreshold: real, unchangedThreshold: real)
    requires a != [] && b != [] && HasCountsOf(r, a, b, g, unchangedThreshold)
    requires r.status == StatusFrom(r, modifiedThreshold, unchangedThreshold)
    requires OneToOne(g) && (g != [] <==> SomeCell(sim, modifiedThreshold))
    requires forall k :: 0 <= k < |g| ==> g[k].row < |a| && g[k].col < |b| && g[k].score >= modifiedThreshold
    ensures Says(r.status, AllMatched(g, |a|, |b|, unchangedThreshold),
                 IsNear(sim, g, r, modifiedThreshold, unchangedThreshold),
                 modifiedThreshold > 0.0 && !SomeCell(sim, modifiedThreshold))
  {
    CountsSayAllMatched(a, b, g, unchangedThreshold);
    if g == [] {
      NothingMatched(a, b, unchangedThreshold);
    }
    StatusOfCounts(r, g, modifiedThreshold, unchangedThreshold);
  }

  /** The status in terms of cells, counts and matches, for all thresholds and texts not both empty. */
  lemma {:induction false} StatusExactly(a: seq<string>, b: seq<string>, sim: seq<seq<real>>,
                                         modifiedThreshold: real, unchangedThreshold: real, maxExamples: int)
    requires Fits(a, b, sim) && (a != [] || b != [])
    ensures var r := DiffText(a, b, sim, modifiedThreshold, unchangedThreshold, maxExamples);
      var g := Greedy(sim, modifiedThreshold);
      Says(r.status, AllMatched(g, |a|, |b|, unchangedThreshold),
           IsNear(sim, g, r, modifiedThreshold, unchangedThreshold),
           a == [] || b == [] || (modifiedThreshold > 0.0 && !SomeCell(sim, modifiedThreshold)))
  {
    if a == [] || b == [] {
      OneSideEmpty(a, b, sim, modifiedThreshold, unchangedThreshold);
    } else {
      MatchesNeedCells(sim, modifiedThreshold);
      MatchedWithin(a, b, sim, modifiedThreshold);
      DiffCounts(a, b, sim, modifiedThreshold, unchangedThreshold, maxExamples);
      StatusComesFrom(a, b, sim, modifiedThreshold, unchangedThreshold, maxExamples);
      StatusOfReport(DiffText(a, b, sim, modifiedThreshold, unchangedThreshold, maxExamples), a, b, sim,
                     Greedy(sim, modifiedThreshold), modifiedThreshold, unchangedThreshold);
    }
  }

  lemma {:induction false} OneSideEmpty(a: seq<string>, b: seq<string>, sim: seq<seq<real>>,
                                        modifiedThreshold: real, unchangedThreshold: real)
    requires Fits(a, b, sim) && (a == [] || b == []) && (a != [] || b != [])
    ensures Greedy(sim, modifiedThreshold) == [] && !SomeCell(sim, modifiedThreshold)
    ensures !AllMatched([], |a|, |b|, unchangedThreshold)
  {
    MatchesNeedCells(sim, modifiedThreshold);
    if a != [] {
      assert !RowMatched([], 0, unchangedThreshold);
    } else {
      assert !ColMatched([], 0, unchangedThreshold);
    }
  }

  lemma {:induction false} NothingMatched(a: seq<string>, b: seq<string>, threshold: real)
    requires a != [] && b != []
    ensures !AllMatched([], |a|, |b|, threshold)
    ensures |Unmatched(a, Rows([]), 0)| + |Unmatched(b, Cols([]), 0)| >= 2
  {
    assert !RowMatched([], 0, threshold);
    UnmatchedNone(a, {}, 0);
    UnmatchedNone(b, {}, 0);
    assert Rows([]) == {} && Cols([]) == {};
  }

  lemma {:induction false} SimilarityIsMean(a: seq<string>, b: seq<string>, sim: seq<seq<real>>,
                                            modifiedThreshold: real, unchangedThreshold: real, maxExamples: int)
    requires Fits(a, b, sim)
    ensures DiffText(a, b, sim, modifiedThreshold, unchangedThreshold, maxExamples).similarity
      == if a == [] && b == [] then 1.0 else Mean(Greedy(sim, modifiedThreshold))
  {
    if a != [] && b != [] {
      DiffCounts(a, b, sim, modifiedThreshold, unchangedThreshold, maxExamples);
    } else {
      MatchesNeedCells(sim, modifiedThreshold);
    }
  }

  /** The mean of the matched scores, so between the lowest and the highest; zero when no cell qualifies. */
  predicate IsMean(x: real, sim: seq<seq<real>>, threshold: real, lo: real, hi: real) {
    if SomeCell(sim, threshold)
    then lo <= x <= hi && x * |Greedy(sim, threshold)| as real == Weight(Greedy(sim, threshold))
    else x == 0.0
  }

  lemma {:induction false} MeanIsMean(sim: seq<seq<real>>, threshold: real, lo: real, hi: real)
    requires forall k :: 0 <= k < |Greedy(sim, threshold)| ==> lo <= Greedy(sim, threshold)[k].score <= hi
    ensures IsMean(Mean(Greedy(sim, threshold)), sim, threshold, lo, hi)
  {
    MatchesNeedCells(sim, threshold);
    if Greedy(sim, threshold) != [] {
      MeanWithin(Greedy(sim, threshold), lo, hi);
    }
  }

  lemma {:induction false} SimilarityWithin(a: seq<string>, b: seq<string>, sim: seq<seq<real>>,
                                            modifiedThreshold: real, unchangedThreshold: real, maxExamples: int,
                                            lo: real, hi: real)
    requires Fits(a, b, sim)
    requires forall k :: 0 <= k < |Greedy(sim, modifiedThreshold)| ==>
               lo <= Greedy(sim, modifiedThreshold)[k].score <= hi
    ensures var x := DiffText(a, b, sim, modifiedThreshold, unchangedThreshold, maxExamples).similarity;
      if a == [] && b == [] then x == 1.0 else IsMean(x, sim, modifiedThreshold, lo, hi)
  {
    SimilarityIsMean(a, b, sim, modifiedThreshold, unchangedThreshold, maxExamples);
    MeanIsMean(sim, modifiedThreshold, lo, hi);
  }

  // ---------------------------------------------------------------- the examples

  /** Ascending places. */
  predicate InOrder(places: seq<nat>) { forall k, l :: 0 <= k < l < |places| ==> places[k] < places[l] }

  /** These are the units at the ascending places from i on that no match uses. */
  ghost predicate AreUnits(units: seq<string>, used: set<nat>, i: nat, places: seq<nat>, found: seq<string>) {
    && InOrder(places) && |found| == |places|
    && (forall j :: j in places <==> i <= j < |units| && j !in used)
    && (forall k :: 0 <= k < |places| ==> places[k] < |units| && found[k] == units[places[k]])
  }

  lemma {:induction false} UnmatchedAre(units: seq<string>, used: set<nat>, i: nat) returns (places: seq<nat>)
    ensures AreUnits(units, used, i, places, Unmatched(units, used, i))
    decreases |units| - i
  {
    if i >= |units| {
      places := [];
    } else {
      places := UnmatchedAre(units, used, i + 1);
      if i in used {
        PlaceLeftOut(units, used, i, places, Unmatched(units, used, i + 1));
        assert [] + Unmatched(units, used, i + 1) == Unmatched(units, used, i + 1);
      } else {
        PlaceInFront(units, used, i, places, Unmatched(units, used, i + 1));
        places := [i] + places;
      }
    }
  }

  lemma {:induction false} PlaceLeftOut(units: seq<string>, used: set<nat>, i: nat, places: seq<nat>,
                                        found: seq<string>)
    requires i in used && AreUnits(units, used, i + 1, places, found)
    ensures AreUnits(units, used, i, places, found)
  {
  }

  lemma {:induction false} PlaceInFront(units: seq<string>, used: set<nat>, i: nat, places: seq<nat>,
                                        found: seq<string>)
    requires i < |units| && i !in used && AreUnits(units, used, i + 1, places, found)
    ensures AreUnits(units, used, i, [i] + places, [units[i]] + found)
  {
    forall l | 0 <= l < |places| ensures i < places[l] {
      assert places[l] in places;
    }
  }

  /** The first n of them, for an n that is not negative. */
  predicate FirstOf<T(==)>(part: seq<T>, all: seq<T>, n: int) {
    part <= all && (n >= 0 ==> |part| == if n <= |all| then n else |all|)
  }

  lemma {:induction false} SliceIsFirst<T>(xs: seq<T>, n: int)
    ensures FirstOf(Slice(xs, n), xs, n)
    ensures n < 0 ==> |Slice(xs, n)| == if n + |xs| >= 0 then n + |xs| else 0
  {
  }

  lemma {:induction false} BelowSorted(g: seq<Pair>, threshold: real)
    requires Sorted(Before, g)
    ensures Sorted(Before, Below(g, threshold))
  {
    if g != [] {
      var rest := Below(g[1..], threshold);
      BelowSorted(g[1..], threshold);
      BelowMembers(g[1..], threshold);
      forall j | 0 <= j < |rest| ensures Before(g[0], rest[j]) {
        assert rest[j] in g[1..];
        var k :| 0 <= k < |g[1..]| && g[1..][k] == rest[j];
        assert g[k + 1] == rest[j];
      }
    }
  }

  /** The pairs matched below the threshold, best first, with both units and the score. */
  ghost predicate AreModified(a: seq<string>, b: seq<string>, g: seq<Pair>, threshold: real, pairs: seq<Pair>,
                              found: seq<ModifiedPair>) {
    && |found| == |pairs| && Sorted(Before, pairs)
    && (forall p :: p in pairs <==> p in g && p.score < threshold)
    && (forall k :: 0 <= k < |pairs| ==>
          pairs[k].row < |a| && pairs[k].col < |b|
          && found[k] == ModifiedPair(a[pairs[k].row], b[pairs[k].col], pairs[k].score))
  }

  lemma {:induction false} DescribeAt(a: seq<string>, b: seq<string>, pairs: seq<Pair>, k: nat)
    requires (forall p :: p in pairs ==> p.row < |a| && p.col < |b|) && k < |pairs|
    ensures |Describe(a, b, pairs)| == |pairs| && pairs[k] in pairs
    ensures Describe(a, b, pairs)[k] == ModifiedPair(a[pairs[k].row], b[pairs[k].col], pairs[k].score)
  {
    DescribeCount(a, b, pairs);
    if k > 0 {
      DescribeAt(a, b, pairs[1..], k - 1);
    }
  }

  lemma {:induction false} DescribedAre(a: seq<string>, b: seq<string>, g: seq<Pair>, threshold: real)
    requires (forall p :: p in g ==> p.row < |a| && p.col < |b|)
    requires Sorted(Before, g)
    ensures forall p :: p in Below(g, threshold) ==> p.row < |a| && p.col < |b|
    ensures AreModified(a, b, g, threshold, Below(g, threshold), Describe(a, b, Below(g, threshold)))
  {
    var m := Below(g, threshold);
    BelowMembers(g, threshold);
    BelowSorted(g, threshold);
    DescribeCount(a, b, m);
    forall k | 0 <= k < |m|
      ensures m[k].row < |a| && m[k].col < |b|
              && Describe(a, b, m)[k] == ModifiedPair(a[m[k].row], b[m[k].col], m[k].score)
    {
      DescribeAt(a, b, m, k);
    }
  }

  /** What the examples are taken from: the units of either text that no match uses, in order, and the
      matches below the threshold for being unchanged, best first. */
  ghost predicate ExamplesAre(a: seq<string>, b: seq<string>, g: seq<Pair>, threshold: real, maxExamples: int,
                              r: Report, added: seq<nat>, removed: seq<nat>, modified: seq<Pair>) {
    exists news, olds, changes ::
      && AreUnits(b, Cols(g), 0, added, news) && FirstOf(r.addedExamples, news, maxExamples)
      && AreUnits(a, Rows(g), 0, removed, olds) && FirstOf(r.removedExamples, olds, maxExamples)
      && AreModified(a, b, g, threshold, modified, changes) && FirstOf(r.modifiedExamples, changes, maxExamples)
      && r.addedCount == |added| && r.removedCount == |removed| && r.modifiedCount == |modified|
  }

  lemma {:induction false} ExamplesTellTheTruth(a: seq<string>, b: seq<string>, sim: seq<seq<real>>,
                                                modifiedThreshold: real, unchangedThreshold: real, maxExamples: int)
    returns (added: seq<nat>, removed: seq<nat>, modified: seq<Pair>)
    requires Fits(a, b, sim)
    ensures ExamplesAre(a, b, Greedy(sim, modifiedThreshold), unchangedThreshold, maxExamples,
                        DiffText(a, b, sim, modifiedThreshold, unchangedThreshold, maxExamples),
                        added, removed, modified)
  {
    var g := Greedy(sim, modifiedThreshold);
    GreedyIsMatching(sim, modifiedThreshold);
    MatchesNeedCells(sim, modifiedThreshold);
    forall p | p in g ensures p.row < |a| && p.col < |b| {
      assert Qualifies(sim, modifiedThreshold, p);
    }
    added := UnmatchedAre(b, Cols(g), 0);
    removed := UnmatchedAre(a, Rows(g), 0);
    modified := Below(g, unchangedThreshold);
    DescribedAre(a, b, g, unchangedThreshold);
    SliceIsFirst(Unmatched(b, Cols(g), 0), maxExamples);
    SliceIsFirst(Unmatched(a, Rows(g), 0), maxExamples);
    SliceIsFirst(Describe(a, b, modified), maxExamples);
    if a == [] || b == [] {
      NothingInUse(a, b, g);
    }
  }

  lemma {:induction false} NothingInUse(a: seq<string>, b: seq<string>, g: seq<Pair>)
    requires g == []
    ensures Unmatched(a, Rows(g), 0) == a && Unmatched(b, Cols(g), 0) == b
  {
    assert Rows(g) == {} && Cols(g) == {};
    AllFree(a, 0);
    AllFree(b, 0);
  }

  lemma {:induction false} AllFree(units: seq<string>, i: nat)
    requires i <= |units|
    ensures Unmatched(units, {}, i) == units[i..]
    decreases |units| - i
  {
    if i < |units| {
      AllFree(units, i + 1);
    }
  }
}
