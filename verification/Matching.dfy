/** Greedy one-to-one matching of the rows and columns of a similarity matrix:
    the step shared by the similar-document ranking and the semantic diff. */
module Matching {
  import opened Sorting

  datatype Pair = Pair(row: nat, col: nat, score: real)

  predicate IsMatrix(sim: seq<seq<real>>, cols: nat) {
    forall i :: 0 <= i < |sim| ==> |sim[i]| == cols
  }

  /** A cell of the matrix at or above the threshold. */
  predicate Qualifies(sim: seq<seq<real>>, threshold: real, p: Pair) {
    p.row < |sim| && p.col < |sim[p.row]| && p.score == sim[p.row][p.col] && p.score >= threshold
  }

  function Rows(m: seq<Pair>): set<nat> { set p | p in m :: p.row }

  function Cols(m: seq<Pair>): set<nat> { set p | p in m :: p.col }

  /** No two positions share a row or a column. */
  predicate OneToOne(m: seq<Pair>) {
    forall i, j :: 0 <= i < j < |m| ==> m[i].row != m[j].row && m[i].col != m[j].col
  }

  predicate QualifyingMatching(sim: seq<seq<real>>, threshold: real, m: seq<Pair>) {
    OneToOne(m) && forall p :: p in m ==> Qualifies(sim, threshold, p)
  }

  function Weight(m: seq<Pair>): real {
    if m == [] then 0.0 else m[0].score + Weight(m[1..])
  }

  predicate Shares(p: Pair, q: Pair) { p.row == q.row || p.col == q.col }

  // ---------------------------------------------------------------- the algorithm

  /** The sort key of the program: score only, highest first. */
  predicate Before(p: Pair, q: Pair) { p.score >= q.score }

  function RowPairs(row: seq<real>, i: nat, j: nat, threshold: real): seq<Pair>
    decreases |row| - j
  {
    if j >= |row| then []
    else (if row[j] >= threshold then [Pair(i, j, row[j])] else []) + RowPairs(row, i, j + 1, threshold)
  }

  function PairsFrom(sim: seq<seq<real>>, i: nat, threshold: real): seq<Pair>
    decreases |sim| - i
  {
    if i >= |sim| then [] else RowPairs(sim[i], i, 0, threshold) + PairsFrom(sim, i + 1, threshold)
  }

  function Choose(pairs: seq<Pair>, usedRows: set<nat>, usedCols: set<nat>): seq<Pair> {
    if pairs == [] then []
    else if pairs[0].row in usedRows || pairs[0].col in usedCols then Choose(pairs[1..], usedRows, usedCols)
    else [pairs[0]] + Choose(pairs[1..], usedRows + {pairs[0].row}, usedCols + {pairs[0].col})
  }

  function Greedy(sim: seq<seq<real>>, threshold: real): seq<Pair> {
    Choose(Sort(Before, PairsFrom(sim, 0, threshold)), {}, {})
  }

  method CollectPairs(sim: seq<seq<real>>, cols: nat, threshold: real) returns (pairs: seq<Pair>)
    requires IsMatrix(sim, cols)
    ensures pairs == PairsFrom(sim, 0, threshold)
  {
    pairs := [];
    for i := 0 to |sim|
      invariant pairs + PairsFrom(sim, i, threshold) == PairsFrom(sim, 0, threshold)
    {
      ghost var done := pairs;
      for j := 0 to cols
        invariant pairs + RowPairs(sim[i], i, j, threshold) == done + RowPairs(sim[i], i, 0, threshold)
      {
        var score := sim[i][j];
        if score >= threshold {
          pairs := pairs + [Pair(i, j, score)];
        }
      }
      assert RowPairs(sim[i], i, cols, threshold) == [];
      assert pairs == done + RowPairs(sim[i], i, 0, threshold);
      assert pairs + PairsFrom(sim, i + 1, threshold)
          == done + (RowPairs(sim[i], i, 0, threshold) + PairsFrom(sim, i + 1, threshold));
    }
  }

  method GreedyMatch(sim: seq<seq<real>>, cols: nat, threshold: real) returns (matches: seq<Pair>)
    requires IsMatrix(sim, cols)
    ensures matches == Greedy(sim, threshold)
  {
    var pairs := CollectPairs(sim, cols, threshold);
    pairs := Sort(Before, pairs);
    var usedRows: set<nat>, usedCols: set<nat> := {}, {};
    matches := [];
    for n := 0 to |pairs|
      invariant matches + Choose(pairs[n..], usedRows, usedCols) == Choose(pairs, {}, {})
    {
      var pair := pairs[n];
      assert pairs[n..][1..] == pairs[n + 1..];
      if !(pair.row in usedRows || pair.col in usedCols) {
        usedRows := usedRows + {pair.row};
        usedCols := usedCols + {pair.col};
        matches := matches + [pair];
      }
    }
  }

  // ---------------------------------------------------------------- what it returns

  lemma {:induction false} RowPairsMembers(row: seq<real>, i: nat, j: nat, threshold: real, p: Pair)
    ensures p in RowPairs(row, i, j, threshold) <==>
            p.row == i && j <= p.col < |row| && p.score == row[p.col] && p.score >= threshold
    decreases |row| - j
  {
    if j < |row| {
      RowPairsMembers(row, i, j + 1, threshold, p);
    }
  }

  lemma {:induction false} PairsMembers(sim: seq<seq<real>>, i: nat, threshold: real, p: Pair)
    ensures p in PairsFrom(sim, i, threshold) <==> i <= p.row && Qualifies(sim, threshold, p)
    decreases |sim| - i
  {
    if i < |sim| {
      RowPairsMembers(sim[i], i, 0, threshold, p);
      PairsMembers(sim, i + 1, threshold, p);
    }
  }

  /** Exactly the qualifying cells reach the selection loop, best first. */
  lemma {:induction false} SortedPairs(sim: seq<seq<real>>, threshold: real)
    ensures Sorted(Before, Sort(Before, PairsFrom(sim, 0, threshold)))
    ensures forall p :: p in Sort(Before, PairsFrom(sim, 0, threshold)) <==> Qualifies(sim, threshold, p)
  {
    var pairs := PairsFrom(sim, 0, threshold);
    SortSorted(Before, pairs);
    SortMembers(Before, pairs);
    forall p ensures p in pairs <==> Qualifies(sim, threshold, p) {
      PairsMembers(sim, 0, threshold, p);
    }
  }

  lemma {:induction false} OneToOneCons(p: Pair, m: seq<Pair>)
    requires OneToOne(m) && forall q :: q in m ==> q.row != p.row && q.col != p.col
    ensures OneToOne([p] + m)
  {
    forall i, j | 0 <= i < j < |[p] + m| ensures !Shares(([p] + m)[i], ([p] + m)[j]) {
      assert ([p] + m)[j] == m[j - 1] && m[j - 1] in m;
    }
  }

  lemma {:induction false} ChooseIsMatching(s: seq<Pair>, usedRows: set<nat>, usedCols: set<nat>)
    ensures var g := Choose(s, usedRows, usedCols);
            OneToOne(g) && forall p :: p in g ==> p in s && p.row !in usedRows && p.col !in usedCols
  {
    if s != [] {
      if s[0].row in usedRows || s[0].col in usedCols {
        ChooseIsMatching(s[1..], usedRows, usedCols);
      } else {
        ChooseIsMatching(s[1..], usedRows + {s[0].row}, usedCols + {s[0].col});
        OneToOneCons(s[0], Choose(s[1..], usedRows + {s[0].row}, usedCols + {s[0].col}));
      }
    }
  }

  /** Each candidate is blocked from outside, or meets a chosen pair that scores no less. */
  lemma {:induction false} ChooseDominates(s: seq<Pair>, usedRows: set<nat>, usedCols: set<nat>, p: Pair)
    requires Sorted(Before, s) && p in s
    ensures p.row in usedRows || p.col in usedCols ||
            exists q :: q in Choose(s, usedRows, usedCols) && Shares(p, q) && q.score >= p.score
  {
    if s[0].row in usedRows || s[0].col in usedCols {
      if p != s[0] {
        ChooseDominates(s[1..], usedRows, usedCols, p);
      }
    } else {
      var g := Choose(s[1..], usedRows + {s[0].row}, usedCols + {s[0].col});
      assert s[0] in [s[0]] + g;
      assert s[0].score >= p.score by {
        var k :| 0 <= k < |s| && s[k] == p;
      }
      if !Shares(p, s[0]) {
        ChooseDominates(s[1..], usedRows + {s[0].row}, usedCols + {s[0].col}, p);
        if p.row !in usedRows && p.col !in usedCols {
          var q :| q in g && Shares(p, q) && q.score >= p.score;
          assert q in [s[0]] + g;
        }
      }
    }
  }

  lemma {:induction false} ChooseDescends(s: seq<Pair>, usedRows: set<nat>, usedCols: set<nat>)
    requires Sorted(Before, s)
    ensures Sorted(Before, Choose(s, usedRows, usedCols))
  {
    if s != [] {
      if s[0].row in usedRows || s[0].col in usedCols {
        ChooseDescends(s[1..], usedRows, usedCols);
      } else {
        var rows, cols := usedRows + {s[0].row}, usedCols + {s[0].col};
        ChooseDescends(s[1..], rows, cols);
        ChooseIsMatching(s[1..], rows, cols);
        var g := Choose(s[1..], rows, cols);
        forall j | 0 <= j < |g| ensures s[0].score >= g[j].score {
          assert g[j] in s[1..];
          var k :| 0 <= k < |s[1..]| && s[1..][k] == g[j];
          assert s[k + 1] == g[j];
        }
      }
    }
  }

  /** The result is a matching of qualifying cells, listed best first. */
  lemma {:induction false} GreedyIsMatching(sim: seq<seq<real>>, threshold: real)
    ensures QualifyingMatching(sim, threshold, Greedy(sim, threshold))
    ensures Sorted(Before, Greedy(sim, threshold))
  {
    var s := Sort(Before, PairsFrom(sim, 0, threshold));
    SortedPairs(sim, threshold);
    ChooseIsMatching(s, {}, {});
    ChooseDescends(s, {}, {});
  }

  /** Every qualifying cell is chosen or conflicts with a chosen one of no smaller score. */
  lemma {:induction false} GreedyDominates(sim: seq<seq<real>>, threshold: real, p: Pair) returns (q: Pair)
    requires Qualifies(sim, threshold, p)
    ensures q in Greedy(sim, threshold) && Shares(p, q) && q.score >= p.score
  {
    var s := Sort(Before, PairsFrom(sim, 0, threshold));
    SortedPairs(sim, threshold);
    ChooseDominates(s, {}, {}, p);
    q :| q in Greedy(sim, threshold) && Shares(p, q) && q.score >= p.score;
  }

  lemma {:induction false} CountRows(m: seq<Pair>)
    requires OneToOne(m)
    ensures |Rows(m)| == |m|
  {
    if m == [] {
      assert Rows(m) == {};
    } else {
      CountRows(m[1..]);
      assert m == [m[0]] + m[1..];
      assert Rows(m) == {m[0].row} + Rows(m[1..]);
      assert m[0].row !in Rows(m[1..]);
    }
  }

  lemma {:induction false} CountCols(m: seq<Pair>)
    requires OneToOne(m)
    ensures |Cols(m)| == |m|
  {
    if m == [] {
      assert Cols(m) == {};
    } else {
      CountCols(m[1..]);
      assert m == [m[0]] + m[1..];
      assert Cols(m) == {m[0].col} + Cols(m[1..]);
      assert m[0].col !in Cols(m[1..]);
    }
  }

  lemma {:induction false} CountLines(m: seq<Pair>)
    requires OneToOne(m)
    ensures |Rows(m)| == |m| && |Cols(m)| == |m|
  {
    CountRows(m);
    CountCols(m);
  }

  /** No more pairs than rows or columns, so both coverages are at most one. */
  lemma {:induction false} GreedyFits(sim: seq<seq<real>>, cols: nat, threshold: real)
    requires IsMatrix(sim, cols)
    ensures |Greedy(sim, threshold)| <= |sim| && |Greedy(sim, threshold)| <= cols
  {
    GreedyIsMatching(sim, threshold);
    CountLines(Greedy(sim, threshold));
    BoundedSet(Rows(Greedy(sim, threshold)), |sim|);
    BoundedSet(Cols(Greedy(sim, threshold)), cols);
  }

  // ---------------------------------------------------------------- half of the optimum

  predicate Charged(q: Pair, p: Pair) { Shares(p, q) && p.score <= q.score }

  function Times(m: seq<Pair>, q: Pair): nat {
    (if q.row in Rows(m) then 1 else 0) + (if q.col in Cols(m) then 1 else 0)
  }

  function Uncharged(q: Pair, m: seq<Pair>): seq<Pair> {
    if m == [] then [] else (if Charged(q, m[0]) then [] else [m[0]]) + Uncharged(q, m[1..])
  }

  lemma {:induction false} UnchargedMembers(q: Pair, m: seq<Pair>)
    ensures forall p :: p in Uncharged(q, m) <==> p in m && !Charged(q, p)
  {
    if m != [] {
      UnchargedMembers(q, m[1..]);
    }
  }

  lemma {:induction false} UnchargedOneToOne(q: Pair, m: seq<Pair>)
    requires OneToOne(m)
    ensures OneToOne(Uncharged(q, m))
  {
    if m != [] {
      UnchargedOneToOne(q, m[1..]);
      UnchargedMembers(q, m[1..]);
      var rest := Uncharged(q, m[1..]);
      forall k | 0 <= k < |rest| ensures rest[k].row != m[0].row && rest[k].col != m[0].col {
        assert rest[k] in m[1..];
      }
    }
  }

  lemma {:induction false} TimesStep(m: seq<Pair>, q: Pair)
    requires OneToOne(m) && m != []
    ensures Times(m[1..], q) + (if Shares(m[0], q) then 1 else 0) <= Times(m, q)
  {
    assert m == [m[0]] + m[1..];
    assert Rows(m) == {m[0].row} + Rows(m[1..]);
    assert Cols(m) == {m[0].col} + Cols(m[1..]);
    assert m[0].row !in Rows(m[1..]) && m[0].col !in Cols(m[1..]);
  }

  /** Pairs of a matching are charged to q at most once by row and once by column. */
  lemma {:induction false} ChargeOne(m: seq<Pair>, q: Pair)
    requires OneToOne(m)
    ensures |m| <= |Uncharged(q, m)| + Times(m, q)
    ensures q.score >= 0.0 ==> Weight(m) <= Weight(Uncharged(q, m)) + Times(m, q) as real * q.score
  {
    if m != [] {
      ChargeOne(m[1..], q);
      TimesStep(m, q);
      var rest := Uncharged(q, m[1..]);
      assert ([m[0]] + rest)[1..] == rest;
      if q.score >= 0.0 {
        var t, u := Times(m[1..], q), Times(m, q);
        if Charged(q, m[0]) {
          assert Uncharged(q, m) == rest;
          Scale(t + 1, u, q.score);
          assert (t + 1) as real * q.score == t as real * q.score + q.score;
        } else {
          Scale(t, u, q.score);
        }
      }
    }
  }

  lemma {:induction false} Scale(t: nat, u: nat, x: real)
    requires t <= u && x >= 0.0
    ensures t as real * x <= u as real * x
  {
  }

  ghost predicate Covered(g: seq<Pair>, p: Pair) { exists q :: q in g && Charged(q, p) }

  lemma {:induction false} UnchargedCovered(m: seq<Pair>, g: seq<Pair>)
    requires g != [] && forall p :: p in m ==> Covered(g, p)
    ensures forall p :: p in Uncharged(g[0], m) ==> Covered(g[1..], p)
  {
    UnchargedMembers(g[0], m);
    forall p | p in Uncharged(g[0], m) ensures Covered(g[1..], p) {
      assert p in m;
      var q :| q in g && Charged(q, p);
      assert q in g[1..];
    }
  }

  lemma {:induction false} NothingCovered(m: seq<Pair>, g: seq<Pair>)
    requires g == [] && forall p :: p in m ==> Covered(g, p)
    ensures m == []
  {
    assert m != [] ==> m[0] in m;
    forall p ensures p !in m {
      assert !Covered(g, p);
    }
  }

  lemma {:induction false} HalfByCharging(m: seq<Pair>, g: seq<Pair>)
    requires OneToOne(m) && forall p :: p in m ==> Covered(g, p)
    ensures |m| <= 2 * |g|
    decreases |g|
  {
    if g == [] {
      NothingCovered(m, g);
    } else {
      ChargeOne(m, g[0]);
      UnchargedOneToOne(g[0], m);
      UnchargedCovered(m, g);
      HalfByCharging(Uncharged(g[0], m), g[1..]);
    }
  }

  lemma {:induction false} HalfWeightByCharging(m: seq<Pair>, g: seq<Pair>)
    requires OneToOne(m) && forall p :: p in m ==> Covered(g, p)
    requires forall q :: q in g ==> q.score >= 0.0
    ensures Weight(m) <= 2.0 * Weight(g)
    decreases |g|
  {
    if g == [] {
      NothingCovered(m, g);
    } else {
      ChargeOne(m, g[0]);
      UnchargedOneToOne(g[0], m);
      UnchargedCovered(m, g);
      HalfWeightByCharging(Uncharged(g[0], m), g[1..]);
      Scale(Times(m, g[0]), 2, g[0].score);
    }
  }

  /** Against every matching of qualifying cells, the greedy one has at least half
      the pairs and, for a threshold that is not negative, half the total score. */
  lemma {:induction false} GreedyHalfOptimal(sim: seq<seq<real>>, threshold: real, m: seq<Pair>)
    requires QualifyingMatching(sim, threshold, m)
    ensures |m| <= 2 * |Greedy(sim, threshold)|
    ensures threshold >= 0.0 ==> Weight(m) <= 2.0 * Weight(Greedy(sim, threshold))
  {
    var g := Greedy(sim, threshold);
    GreedyIsMatching(sim, threshold);
    forall p | p in m ensures Covered(g, p) {
      var q := GreedyDominates(sim, threshold, p);
      assert Charged(q, p);
    }
    HalfByCharging(m, g);
    if threshold >= 0.0 {
      HalfWeightByCharging(m, g);
    }
  }

  lemma {:induction false} SingleCell(t: real)
    ensures Greedy([[t]], t) == [Pair(0, 0, t)]
  {
    var p := Pair(0, 0, t);
    assert RowPairs([t], 0, 1, t) == [];
    assert RowPairs([t], 0, 0, t) == [p];
    assert PairsFrom([[t]], 1, t) == [];
    assert PairsFrom([[t]], 0, t) == [p];
    assert Sort(Before, [p]) == [p];
    assert [p][1..] == [];
    assert Choose([], {} + {0}, {} + {0}) == [];
    assert Choose([p], {}, {}) == [p];
  }

  ghost predicate HalfWeightGuaranteed(threshold: real) {
    forall sim: seq<seq<real>>, m: seq<Pair> ::
      QualifyingMatching(sim, threshold, m) ==> Weight(m) <= 2.0 * Weight(Greedy(sim, threshold))
  }

  /** The weight guarantee holds for a threshold exactly when it is not negative:
      below zero a single cell at the threshold is taken although nothing beats it. */
  lemma {:induction false} HalfWeightExactly(threshold: real)
    ensures HalfWeightGuaranteed(threshold) <==> threshold >= 0.0
  {
    if threshold >= 0.0 {
      forall sim: seq<seq<real>>, m: seq<Pair> | QualifyingMatching(sim, threshold, m)
        ensures Weight(m) <= 2.0 * Weight(Greedy(sim, threshold))
      {
        GreedyHalfOptimal(sim, threshold, m);
      }
    } else {
      var none: seq<Pair> := [];
      SingleCell(threshold);
      assert QualifyingMatching([[threshold]], threshold, none);
      assert Weight([Pair(0, 0, threshold)]) == threshold;
      assert Weight(none) > 2.0 * Weight(Greedy([[threshold]], threshold));
    }
  }

  lemma {:induction false} TightPairs()
    ensures PairsFrom([[1.0, 1.0], [1.0, 0.0]], 0, 0.5) == [Pair(0, 0, 1.0), Pair(0, 1, 1.0), Pair(1, 0, 1.0)]
  {
    var sim := [[1.0, 1.0], [1.0, 0.0]];
    assert RowPairs(sim[0], 0, 2, 0.5) == [] && RowPairs(sim[1], 1, 2, 0.5) == [];
    assert RowPairs(sim[0], 0, 1, 0.5) == [Pair(0, 1, 1.0)] && RowPairs(sim[1], 1, 1, 0.5) == [];
    assert PairsFrom(sim, 2, 0.5) == [];
  }

  lemma {:induction false} TightGreedy()
    ensures Greedy([[1.0, 1.0], [1.0, 0.0]], 0.5) == [Pair(0, 0, 1.0)]
  {
    var a, b, c := Pair(0, 0, 1.0), Pair(0, 1, 1.0), Pair(1, 0, 1.0);
    TightPairs();
    assert [a, b, c][1..] == [b, c] && [b, c][1..] == [c];
    assert Sort(Before, [c]) == [c];
    assert Sort(Before, [b, c]) == [b, c];
    assert Sort(Before, [a, b, c]) == [a, b, c];
    assert Choose([b, c], {0}, {0}) == Choose([c], {0}, {0}) == [];
    assert {} + {0} == {0};
  }

  /** The factor two is attained. */
  lemma {:induction false} HalfIsTight()
    ensures var sim := [[1.0, 1.0], [1.0, 0.0]];
            var m := [Pair(0, 1, 1.0), Pair(1, 0, 1.0)];
            QualifyingMatching(sim, 0.5, m) && |m| == 2 * |Greedy(sim, 0.5)|
            && Weight(m) == 2.0 * Weight(Greedy(sim, 0.5))
  {
    var m := [Pair(0, 1, 1.0), Pair(1, 0, 1.0)];
    TightGreedy();
    assert m[1..] == [m[1]];
  }

  /** The reported maximum: the best matched score, or zero without a match. */
  function MaxSimilarity(matches: seq<Pair>): real {
    if matches == [] then 0.0
    else if |matches| == 1 || matches[0].score >= MaxSimilarity(matches[1..]) then matches[0].score
    else MaxSimilarity(matches[1..])
  }

  lemma {:induction false} MaxOfDescending(m: seq<Pair>)
    requires m != [] && Sorted(Before, m)
    ensures MaxSimilarity(m) == m[0].score
  {
    if |m| > 1 {
      MaxOfDescending(m[1..]);
    }
  }

  /** The first pair attains the global maximum, so the reported maximum is that of
      the whole matrix whenever any cell qualifies. */
  lemma {:induction false} GreedyFindsMaximum(sim: seq<seq<real>>, threshold: real)
    ensures (Greedy(sim, threshold) == []) <==> (forall p :: !Qualifies(sim, threshold, p))
    ensures Greedy(sim, threshold) != [] ==>
              && MaxSimilarity(Greedy(sim, threshold)) == Greedy(sim, threshold)[0].score
              && forall i, j :: 0 <= i < |sim| && 0 <= j < |sim[i]| ==>
                   sim[i][j] <= Greedy(sim, threshold)[0].score
  {
    var g := Greedy(sim, threshold);
    GreedyIsMatching(sim, threshold);
    forall p | Qualifies(sim, threshold, p) ensures g != [] {
      var q := GreedyDominates(sim, threshold, p);
    }
    if g != [] {
      assert Qualifies(sim, threshold, g[0]);
      MaxOfDescending(g);
      forall i, j | 0 <= i < |sim| && 0 <= j < |sim[i]| ensures sim[i][j] <= g[0].score {
        var p := Pair(i, j, sim[i][j]);
        if p.score >= threshold {
          var q := GreedyDominates(sim, threshold, p);
          var k :| 0 <= k < |g| && g[k] == q;
          assert Before(g[0], g[k]);
        }
      }
    }
  }
}
