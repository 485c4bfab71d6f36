/** Which cells the greedy matching chooses, ties included. */
module MatchingOrder {
  import opened Sorting
  import opened Matching

  predicate RowMajor(p: Pair, q: Pair) { p.row < q.row || (p.row == q.row && p.col < q.col) }

  /** Better, or as good and further up or left in the matrix. */
  predicate Earlier(p: Pair, q: Pair) { p.score > q.score || (p.score == q.score && RowMajor(p, q)) }

  lemma {:induction false} RowInOrder(row: seq<real>, i: nat, j: nat, threshold: real)
    ensures Sorted(RowMajor, RowPairs(row, i, j, threshold))
    decreases |row| - j
  {
    if j < |row| {
      RowInOrder(row, i, j + 1, threshold);
      var rest := RowPairs(row, i, j + 1, threshold);
      forall k | 0 <= k < |rest| ensures rest[k].row == i && rest[k].col > j {
        RowPairsMembers(row, i, j + 1, threshold, rest[k]);
      }
    }
  }

  lemma {:induction false} PairsInOrder(sim: seq<seq<real>>, i: nat, threshold: real)
    ensures Sorted(RowMajor, PairsFrom(sim, i, threshold))
    decreases |sim| - i
  {
    if i < |sim| {
      var a, b := RowPairs(sim[i], i, 0, threshold), PairsFrom(sim, i + 1, threshold);
      RowInOrder(sim[i], i, 0, threshold);
      PairsInOrder(sim, i + 1, threshold);
      forall k, l | 0 <= k < l < |a + b| ensures RowMajor((a + b)[k], (a + b)[l]) {
        if k < |a| {
          RowPairsMembers(sim[i], i, 0, threshold, a[k]);
        }
        if l >= |a| {
          PairsMembers(sim, i + 1, threshold, b[l - |a|]);
        }
      }
    }
  }

  lemma {:induction false} FilterKeepsOrder(p: Pair -> bool, s: seq<Pair>, i: nat, j: nat) returns (k: nat, l: nat)
    requires i < j < |s| && p(s[i]) && p(s[j])
    ensures k < l < |Filter(p, s)| && Filter(p, s)[k] == s[i] && Filter(p, s)[l] == s[j]
  {
    var a, b, c := s[..i], s[i + 1..j], s[j + 1..];
    assert s == a + ([s[i]] + (b + ([s[j]] + c)));
    FilterAppend(p, a, [s[i]] + (b + ([s[j]] + c)));
    FilterAppend(p, [s[i]], b + ([s[j]] + c));
    FilterAppend(p, b, [s[j]] + c);
    FilterAppend(p, [s[j]], c);
    k := |Filter(p, a)|;
    l := k + 1 + |Filter(p, b)|;
  }

  /** The selection loop meets the qualifying cells best first, equal ones in row-major order. */
  lemma {:induction false} CandidatesInOrder(sim: seq<seq<real>>, threshold: real)
    ensures Sorted(Earlier, Sort(Before, PairsFrom(sim, 0, threshold)))
  {
    var s := PairsFrom(sim, 0, threshold);
    var t := Sort(Before, s);
    SortedPairs(sim, threshold);
    PairsInOrder(sim, 0, threshold);
    forall i, j | 0 <= i < j < |t| ensures Earlier(t[i], t[j]) {
      if t[i].score == t[j].score {
        var p := (q: Pair) => q.score == t[i].score;
        SortStable(Before, p, s);
        FilterSorted(RowMajor, p, s);
        var k, l := FilterKeepsOrder(p, t, i, j);
      }
    }
  }

  lemma {:induction false} ChosenExactly(s: seq<Pair>, usedRows: set<nat>, usedCols: set<nat>, p: Pair)
    requires Sorted(Earlier, s) && p in s
    ensures var g := Choose(s, usedRows, usedCols);
      p in g <==> p.row !in usedRows && p.col !in usedCols && forall q :: q in g && Earlier(q, p) ==> !Shares(p, q)
  {
    var h, rest := s[0], s[1..];
    assert p == h || p in rest;
    if h.row in usedRows || h.col in usedCols {
      ChooseIsMatching(s, usedRows, usedCols);
      if p != h {
        ChosenExactly(rest, usedRows, usedCols, p);
      }
    } else {
      var rows, cols := usedRows + {h.row}, usedCols + {h.col};
      var g := Choose(rest, rows, cols);
      ChooseIsMatching(rest, rows, cols);
      assert forall q :: q in [h] + g <==> q == h || q in g;
      if p == h {
        FirstIsFree(s, g);
      } else {
        HeadIsEarlier(s, p);
        ChosenExactly(rest, rows, cols, p);
      }
    }
  }

  lemma {:induction false} HeadIsEarlier(s: seq<Pair>, p: Pair)
    requires Sorted(Earlier, s) && s != [] && p in s[1..]
    ensures Earlier(s[0], p)
  {
    var k :| 0 <= k < |s[1..]| && s[1..][k] == p;
    assert s[k + 1] == p;
  }

  lemma {:induction false} FirstIsFree(s: seq<Pair>, g: seq<Pair>)
    requires Sorted(Earlier, s) && s != [] && forall q :: q in g ==> q in s[1..]
    ensures forall q :: q in g ==> !Earlier(q, s[0])
    ensures !Earlier(s[0], s[0])
  {
    forall q | q in g ensures !Earlier(q, s[0]) {
      HeadIsEarlier(s, q);
    }
  }

  /** A cell is chosen exactly when it qualifies and shares no row or column with a chosen one that is
      earlier. This leaves one matching only. */
  lemma {:induction false} GreedyExactly(sim: seq<seq<real>>, threshold: real, p: Pair)
    ensures var g := Greedy(sim, threshold);
      p in g <==> Qualifies(sim, threshold, p) && forall q :: q in g && Earlier(q, p) ==> !Shares(p, q)
  {
    var s := Sort(Before, PairsFrom(sim, 0, threshold));
    SortedPairs(sim, threshold);
    CandidatesInOrder(sim, threshold);
    ChooseIsMatching(s, {}, {});
    if p in s {
      ChosenExactly(s, {}, {}, p);
    }
  }
}
