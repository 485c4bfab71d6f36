/** The text report of the semantic diff engine, built on the greedy matching. */
module SemanticDiff {
  import opened Matching

  datatype Status = Unchanged | NearUnchanged | Modified | Changed

  datatype ModifiedPair = ModifiedPair(from: string, to: string, similarity: real)

  datatype Report = Report(
    similarity: real, status: Status,
    addedCount: nat, removedCount: nat, modifiedCount: nat, unchangedCount: nat,
    addedExamples: seq<string>, removedExamples: seq<string>, modifiedExamples: seq<ModifiedPair>)

  /** `xs[:n]` for an integer n of either sign. */
  function Slice<T>(xs: seq<T>, n: int): seq<T> {
    if n >= |xs| then xs else if n >= 0 then xs[..n] else if n + |xs| <= 0 then [] else xs[..n + |xs|]
  }

  /** The units, from position i on, that no match uses. */
  function Unmatched(units: seq<string>, used: set<nat>, i: nat): seq<string>
    decreases |units| - i
  {
    if i >= |units| then []
    else (if i in used then [] else [units[i]]) + Unmatched(units, used, i + 1)
  }

  function Below(matches: seq<Pair>, threshold: real): seq<Pair> {
    if matches == [] then []
    else (if matches[0].score < threshold then [matches[0]] else []) + Below(matches[1..], threshold)
  }

  function CountAtLeast(matches: seq<Pair>, threshold: real): nat {
    if matches == [] then 0
    else (if matches[0].score >= threshold then 1 else 0) + CountAtLeast(matches[1..], threshold)
  }

  function Mean(matches: seq<Pair>): real {
    if matches == [] then 0.0 else Weight(matches) / |matches| as real
  }

  function Describe(a: seq<string>, b: seq<string>, pairs: seq<Pair>): seq<ModifiedPair>
    requires forall p :: p in pairs ==> p.row < |a| && p.col < |b|
  {
    if pairs == [] then []
    else [ModifiedPair(a[pairs[0].row], b[pairs[0].col], pairs[0].score)] + Describe(a, b, pairs[1..])
  }

  lemma {:induction false} BelowMembers(matches: seq<Pair>, threshold: real)
    ensures forall p :: p in Below(matches, threshold) <==> p in matches && p.score < threshold
  {
    if matches != [] {
      BelowMembers(matches[1..], threshold);
    }
  }

  predicate Fits(a: seq<string>, b: seq<string>, sim: seq<seq<real>>) {
    |sim| == |a| && IsMatrix(sim, |b|)
  }

  function DiffText(a: seq<string>, b: seq<string>, sim: seq<seq<real>>,
                    modifiedThreshold: real, unchangedThreshold: real, maxExamples: int): Report
    requires Fits(a, b, sim)
  {
    if |a| == 0 && |b| == 0 then
      Report(1.0, Unchanged, 0, 0, 0, 0, [], [], [])
    else if |a| == 0 || |b| == 0 then
      Report(0.0, Changed,
             if |a| == 0 then |b| else 0, if |b| == 0 then |a| else 0, 0, 0,
             if |a| == 0 then Slice(b, maxExamples) else [], if |b| == 0 then Slice(a, maxExamples) else [], [])
    else
      var matches := Greedy(sim, modifiedThreshold);
      GreedyIsMatching(sim, modifiedThreshold);
      BelowMembers(matches, unchangedThreshold);
      assert forall p :: p in Below(matches, unchangedThreshold) ==> Qualifies(sim, modifiedThreshold, p);
      var removed := Unmatched(a, Rows(matches), 0);
      var added := Unmatched(b, Cols(matches), 0);
      var modified := Describe(a, b, Below(matches, unchangedThreshold));
      var similarity := Mean(matches);
      var status :=
        if |added| == 0 && |removed| == 0 && |modified| == 0 then Unchanged
        else if similarity >= unchangedThreshold && |added| + |removed| <= 1 then NearUnchanged
        else if similarity >= modifiedThreshold then Modified
        else Changed;
      Report(similarity, status, |added|, |removed|, |modified|, CountAtLeast(matches, unchangedThreshold),
             Slice(added, maxExamples), Slice(removed, maxExamples), Slice(modified, maxExamples))
  }

  // ---------------------------------------------------------------- conservation

  lemma {:induction false} SplitCount(matches: seq<Pair>, threshold: real)
    ensures |Below(matches, threshold)| + CountAtLeast(matches, threshold) == |matches|
  {
    if matches != [] {
      SplitCount(matches[1..], threshold);
    }
  }

  lemma {:induction false} DescribeCount(a: seq<string>, b: seq<string>, pairs: seq<Pair>)
    requires forall p :: p in pairs ==> p.row < |a| && p.col < |b|
    ensures |Describe(a, b, pairs)| == |pairs|
  {
    if pairs != [] {
      DescribeCount(a, b, pairs[1..]);
    }
  }

  lemma {:induction false} UnmatchedCount(units: seq<string>, used: set<nat>, i: nat)
    requires i <= |units| && forall x :: x in used ==> i <= x < |units|
    ensures |Unmatched(units, used, i)| + |used| == |units| - i
    decreases |units| - i
  {
    if i == |units| {
      assert used == {};
    } else {
      var rest := used - {i};
      UnmatchedCount(units, rest, i + 1);
      UnmatchedFrom(units, used, rest, i + 1);
    }
  }

  lemma {:induction false} UnmatchedFrom(units: seq<string>, used: set<nat>, used': set<nat>, i: nat)
    requires forall x :: i <= x ==> (x in used <==> x in used')
    ensures Unmatched(units, used, i) == Unmatched(units, used', i)
    decreases |units| - i
  {
    if i < |units| {
      UnmatchedFrom(units, used, used', i + 1);
    }
  }

  lemma {:induction false} DiffCounts(a: seq<string>, b: seq<string>, sim: seq<seq<real>>,
                   modifiedThreshold: real, unchangedThreshold: real, maxExamples: int)
    requires Fits(a, b, sim) && a != [] && b != []
    ensures var r := DiffText(a, b, sim, modifiedThreshold, unchangedThreshold, maxExamples);
            var g := Greedy(sim, modifiedThreshold);
            && r.modifiedCount == |Below(g, unchangedThreshold)|
            && r.unchangedCount == CountAtLeast(g, unchangedThreshold)
            && r.similarity == Mean(g)
            && r.addedCount == |Unmatched(b, Cols(g), 0)| && r.removedCount == |Unmatched(a, Rows(g), 0)|
  {
    var g := Greedy(sim, modifiedThreshold);
    GreedyIsMatching(sim, modifiedThreshold);
    BelowMembers(g, unchangedThreshold);
    assert forall p :: p in Below(g, unchangedThreshold) ==> Qualifies(sim, modifiedThreshold, p);
    DescribeCount(a, b, Below(g, unchangedThreshold));
  }

  /** Every unit of both texts is counted exactly once, whatever the similarities. */
  lemma {:induction false} DiffConserves(a: seq<string>, b: seq<string>, sim: seq<seq<real>>,
                      modifiedThreshold: real, unchangedThreshold: real, maxExamples: int)
    requires Fits(a, b, sim)
    ensures var r := DiffText(a, b, sim, modifiedThreshold, unchangedThreshold, maxExamples);
            && r.addedCount + r.modifiedCount + r.unchangedCount == |b|
            && r.removedCount + r.modifiedCount + r.unchangedCount == |a|
  {
    if |a| != 0 && |b| != 0 {
      var g := Greedy(sim, modifiedThreshold);
      GreedyIsMatching(sim, modifiedThreshold);
      CountLines(g);
      forall x | x in Rows(g) ensures 0 <= x < |a| {
        var p :| p in g && p.row == x;
        assert Qualifies(sim, modifiedThreshold, p);
      }
      forall x | x in Cols(g) ensures 0 <= x < |b| {
        var p :| p in g && p.col == x;
        assert Qualifies(sim, modifiedThreshold, p);
      }
      UnmatchedCount(a, Rows(g), 0);
      UnmatchedCount(b, Cols(g), 0);
      SplitCount(g, unchangedThreshold);
      DiffCounts(a, b, sim, modifiedThreshold, unchangedThreshold, maxExamples);
    }
  }

  // ---------------------------------------------------------------- a text against itself

  /** Similarities of a text with itself: one is the maximum, every unit is at one
      from itself, and being at one is an equivalence. */
  ghost predicate SelfSimilarity(sim: seq<seq<real>>) {
    && IsMatrix(sim, |sim|)
    && (forall i :: 0 <= i < |sim| ==> sim[i][i] == 1.0)
    && (forall i, j :: 0 <= i < |sim| && 0 <= j < |sim| ==> sim[i][j] <= 1.0)
    && (forall i, j :: 0 <= i < |sim| && 0 <= j < |sim| && sim[i][j] == 1.0 ==> sim[j][i] == 1.0)
    && (forall i, j, k :: 0 <= i < |sim| && 0 <= j < |sim| && 0 <= k < |sim| ==>
          (sim[i][j] == 1.0 && sim[j][k] == 1.0 ==> sim[i][k] == 1.0))
  }

  function Peers(sim: seq<seq<real>>, i: nat): set<nat>
    requires i < |sim| && IsMatrix(sim, |sim|)
  {
    set j: nat | j < |sim| && sim[i][j] == 1.0
  }

  function PeerPairs(g: seq<Pair>, peers: set<nat>): seq<Pair> {
    if g == [] then []
    else (if g[0].score == 1.0 && g[0].col in peers then [g[0]] else []) + PeerPairs(g[1..], peers)
  }

  lemma {:induction false} PeerPairsOf(g: seq<Pair>, peers: set<nat>)
    requires OneToOne(g)
    ensures OneToOne(PeerPairs(g, peers))
    ensures forall p :: p in PeerPairs(g, peers) <==> p in g && p.score == 1.0 && p.col in peers
  {
    if g != [] {
      PeerPairsOf(g[1..], peers);
      var rest := PeerPairs(g[1..], peers);
      forall k | 0 <= k < |rest| ensures rest[k].row != g[0].row && rest[k].col != g[0].col {
        assert rest[k] in g[1..];
      }
    }
  }

  lemma {:induction false} SharedPeer(sim: seq<seq<real>>, i: nat, r: nat, c: nat)
    requires SelfSimilarity(sim) && i < |sim| && r < |sim| && c < |sim|
    requires sim[i][c] == 1.0 && sim[r][c] == 1.0
    ensures sim[i][r] == 1.0
  {
    assert sim[c][r] == 1.0;
  }

  /** When row i is in no match of score one, all its peers' columns are. */
  lemma {:induction false} PeerColumnsTaken(sim: seq<seq<real>>, threshold: real, i: nat, pairs: seq<Pair>)
    requires SelfSimilarity(sim) && threshold <= 1.0 && i < |sim|
    requires forall q :: q in Greedy(sim, threshold) && q.score == 1.0 ==> q.row != i
    requires pairs == PeerPairs(Greedy(sim, threshold), Peers(sim, i))
    ensures Cols(pairs) == Peers(sim, i)
  {
    GreedyIsMatching(sim, threshold);
    PeerPairsOf(Greedy(sim, threshold), Peers(sim, i));
    forall j | j in Peers(sim, i) ensures j in Cols(pairs) {
      var q := GreedyDominates(sim, threshold, Pair(i, j, 1.0));
      assert Qualifies(sim, threshold, q);
      assert sim[q.row][q.col] <= 1.0;
      assert q in pairs && q.col == j;
    }
  }

  lemma {:induction false} PeerRowsAreOthers(sim: seq<seq<real>>, threshold: real, i: nat, pairs: seq<Pair>)
    requires SelfSimilarity(sim) && threshold <= 1.0 && i < |sim|
    requires forall q :: q in Greedy(sim, threshold) && q.score == 1.0 ==> q.row != i
    requires pairs == PeerPairs(Greedy(sim, threshold), Peers(sim, i))
    ensures Rows(pairs) <= Peers(sim, i) - {i}
  {
    GreedyIsMatching(sim, threshold);
    PeerPairsOf(Greedy(sim, threshold), Peers(sim, i));
    forall r | r in Rows(pairs) ensures r in Peers(sim, i) - {i} {
      var q :| q in pairs && q.row == r;
      assert Qualifies(sim, threshold, q);
      SharedPeer(sim, i, r, q.col);
    }
  }

  /** Counting peers: a row left out at score one would leave too few rows for its peers' columns. */
  lemma {:induction false} RowMatchedAtOne(sim: seq<seq<real>>, threshold: real, i: nat) returns (p: Pair)
    requires SelfSimilarity(sim) && threshold <= 1.0 && i < |sim|
    ensures p in Greedy(sim, threshold) && p.row == i && p.score == 1.0
  {
    var g := Greedy(sim, threshold);
    if q :| q in g && q.row == i && q.score == 1.0 {
      p := q;
    } else {
      var peers := Peers(sim, i);
      var pairs := PeerPairs(g, peers);
      GreedyIsMatching(sim, threshold);
      PeerPairsOf(g, peers);
      CountLines(pairs);
      PeerColumnsTaken(sim, threshold, i, pairs);
      PeerRowsAreOthers(sim, threshold, i, pairs);
      assert i in peers;
      SubsetSize(Rows(pairs), peers - {i});
      assert false;
    }
  }

  lemma {:induction false} SubsetSize(a: set<nat>, b: set<nat>)
    requires a <= b
    ensures |a| <= |b|
  {
    if a != {} {
      var x :| x in a;
      SubsetSize(a - {x}, b - {x});
    }
  }

  function UpTo(n: nat): (s: set<nat>)
    ensures (forall i: nat :: i in s <==> i < n) && |s| == n
  {
    if n == 0 then {} else UpTo(n - 1) + {n - 1}
  }

  /** A text matches itself completely at score one, duplicate lines included. */
  lemma {:induction false} SelfMatchComplete(sim: seq<seq<real>>, threshold: real)
    requires SelfSimilarity(sim) && threshold <= 1.0
    ensures |Greedy(sim, threshold)| == |sim|
    ensures forall p :: p in Greedy(sim, threshold) ==> p.score == 1.0
  {
    var g := Greedy(sim, threshold);
    GreedyIsMatching(sim, threshold);
    CountLines(g);
    var all := UpTo(|sim|);
    forall i | i in all ensures i in Rows(g) {
      var p := RowMatchedAtOne(sim, threshold, i);
    }
    forall p | p in g ensures p.score == 1.0 && p.row in all {
      assert Qualifies(sim, threshold, p);
      var q := RowMatchedAtOne(sim, threshold, p.row);
    }
    assert Rows(g) == all;
  }

  lemma {:induction false} AllOnes(g: seq<Pair>, threshold: real)
    requires forall p :: p in g ==> p.score == 1.0
    ensures Weight(g) == |g| as real
    ensures CountAtLeast(g, threshold) == if threshold <= 1.0 then |g| else 0
  {
    if g != [] {
      assert g[0] in g;
      AllOnes(g[1..], threshold);
    }
  }

  lemma {:induction false} SelfRatio(x: real)
    requires x != 0.0
    ensures x / x == 1.0
  {
  }

  lemma {:induction false} OnesCounts(g: seq<Pair>, threshold: real)
    requires g != [] && forall p :: p in g ==> p.score == 1.0
    ensures Mean(g) == 1.0
    ensures CountAtLeast(g, threshold) == (if threshold <= 1.0 then |g| else 0)
    ensures |Below(g, threshold)| == (if threshold <= 1.0 then 0 else |g|)
  {
    AllOnes(g, threshold);
    SplitCount(g, threshold);
    SelfRatio(|g| as real);
  }

  lemma {:induction false} SelfDiffMatched(a: seq<string>, sim: seq<seq<real>>,
                        modifiedThreshold: real, unchangedThreshold: real, maxExamples: int)
    requires Fits(a, a, sim) && SelfSimilarity(sim) && a != [] && modifiedThreshold <= 1.0
    ensures var r := DiffText(a, a, sim, modifiedThreshold, unchangedThreshold, maxExamples);
            && r.similarity == 1.0
            && r.unchangedCount == (if unchangedThreshold <= 1.0 then |a| else 0)
            && r.modifiedCount == (if unchangedThreshold <= 1.0 then 0 else |a|)
  {
    SelfMatchComplete(sim, modifiedThreshold);
    OnesCounts(Greedy(sim, modifiedThreshold), unchangedThreshold);
    DiffCounts(a, a, sim, modifiedThreshold, unchangedThreshold, maxExamples);
  }

  lemma {:induction false} SelfDiffUnmatched(a: seq<string>, sim: seq<seq<real>>,
                          modifiedThreshold: real, unchangedThreshold: real, maxExamples: int)
    requires Fits(a, a, sim) && SelfSimilarity(sim) && a != [] && modifiedThreshold > 1.0
    ensures var r := DiffText(a, a, sim, modifiedThreshold, unchangedThreshold, maxExamples);
            r.modifiedCount == r.unchangedCount == 0
  {
    var g := Greedy(sim, modifiedThreshold);
    forall p ensures !Qualifies(sim, modifiedThreshold, p) {
      if p.row < |sim| && p.col < |sim[p.row]| { assert sim[p.row][p.col] <= 1.0; }
    }
    GreedyFindsMaximum(sim, modifiedThreshold);
    assert g == [];
  }

  /** Diffing a text with itself reports "unchanged" exactly when the text is empty
      or both thresholds are at most the score of a perfect match; then nothing is
      added, removed or modified. */
  lemma {:induction false} SelfDiffUnchanged(a: seq<string>, sim: seq<seq<real>>,
                          modifiedThreshold: real, unchangedThreshold: real, maxExamples: int)
    requires Fits(a, a, sim) && SelfSimilarity(sim)
    ensures var r := DiffText(a, a, sim, modifiedThreshold, unchangedThreshold, maxExamples);
            && (r.status == Unchanged <==> a == [] || (modifiedThreshold <= 1.0 && unchangedThreshold <= 1.0))
            && (r.status == Unchanged ==>
                  r.similarity == 1.0 && r.unchangedCount == |a|
                  && r.addedCount == r.removedCount == r.modifiedCount == 0)
  {
    var r := DiffText(a, a, sim, modifiedThreshold, unchangedThreshold, maxExamples);
    DiffConserves(a, a, sim, modifiedThreshold, unchangedThreshold, maxExamples);
    if a != [] {
      if modifiedThreshold <= 1.0 {
        SelfDiffMatched(a, sim, modifiedThreshold, unchangedThreshold, maxExamples);
      } else {
        SelfDiffUnmatched(a, sim, modifiedThreshold, unchangedThreshold, maxExamples);
      }
    }
  }
}
