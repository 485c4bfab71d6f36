/** The fused ranking of lists that share no key: by rank, and the very first hit first. */
module RankOrder {
  import opened Sorting
  import opened Fusion
  import opened Overfetch

  predicate IsPlace(lists: seq<seq<Hit>>, i: int, r: int) { 0 <= i < |lists| && 0 <= r < |lists[i]| }

  /** No two places of the lists have the same key. */
  ghost predicate UniqueKeys(lists: seq<seq<Hit>>) {
    forall i, r, j, q :: IsPlace(lists, i, r) && IsPlace(lists, j, q) && (i != j || r != q) ==>
      HitKey(lists[i][r]) != HitKey(lists[j][q])
  }

  lemma {:induction false} ScoreAbsent(lists: seq<seq<Hit>>, key: string)
    requires forall i :: 0 <= i < |lists| ==> !HasKey(lists[i], key)
    ensures Score(lists, key) == 0.0
  {
    if lists != [] {
      ScoreAbsent(lists[..|lists| - 1], key);
      ListScoreAbsent(lists[|lists| - 1], key);
    }
  }

  /** A hit scores the share of its rank. */
  lemma {:induction false} ScoreOfPlace(lists: seq<seq<Hit>>, i: nat, r: nat)
    requires UniqueKeys(lists) && i < |lists| && r < |lists[i]|
    ensures Score(lists, HitKey(lists[i][r])) == Share(r)
  {
    var key, others := HitKey(lists[i][r]), lists[..i] + lists[i + 1..];
    ScorePull(lists, i, key);
    ListScoreAt(lists[i], r);
    forall j | 0 <= j < |others| ensures !HasKey(others[j], key) {
      assert others[j] == lists[if j < i then j else j + 1];
    }
    ScoreAbsent(others, key);
  }

  /** Position p of the ranking holds hit r of list i, with the score of its rank. */
  ghost predicate Holds(lists: seq<seq<Hit>>, p: nat, i: nat, r: nat) {
    && i < |lists| && r < |lists[i]|
    && p < |Ranking(lists)| && Ranking(lists)[p] == lists[i][r].(score := Share(r))
    && p < |SortedKeys(lists)| && SortedKeys(lists)[p] == HitKey(lists[i][r])
  }

  lemma {:induction false} PlaceOf(lists: seq<seq<Hit>>, p: nat) returns (i: nat, r: nat)
    requires UniqueKeys(lists) && p < |Ranking(lists)|
    ensures Holds(lists, p, i, r)
  {
    var g := RankedFrom(lists, p);
    i := FlatSource(lists, g);
    r :| 0 <= r < |lists[i]| && lists[i][r] == g;
    ScoreOfPlace(lists, i, r);
  }

  lemma {:induction false} KeyInFlat(lists: seq<seq<Hit>>, i: nat, r: nat)
    requires i < |lists| && r < |lists[i]|
    ensures HasKey(Flat(lists), HitKey(lists[i][r]))
  {
    var front, last := lists[..|lists| - 1], lists[|lists| - 1];
    if i < |front| {
      KeyInFlat(front, i, r);
    } else {
      assert HitKey(last[r]) == HitKey(lists[i][r]);
    }
    HasKeyAppend(Flat(front), last, HitKey(lists[i][r]));
  }

  lemma {:induction false} PositionOf(lists: seq<seq<Hit>>, i: nat, r: nat) returns (p: nat)
    requires UniqueKeys(lists) && i < |lists| && r < |lists[i]|
    ensures Holds(lists, p, i, r)
  {
    var key := HitKey(lists[i][r]);
    KeyInFlat(lists, i, r);
    SortedKeysPresent(lists);
    RankingIs(lists);
    assert key in SortedKeys(lists);
    p :| 0 <= p < |SortedKeys(lists)| && SortedKeys(lists)[p] == key;
    var j, q := PlaceOf(lists, p);
  }

  lemma {:induction false} HeldOnce(lists: seq<seq<Hit>>, p: nat, q: nat, i: nat, r: nat)
    requires Holds(lists, p, i, r) && Holds(lists, q, i, r)
    ensures p == q
  {
    SortedKeysDistinct(lists);
  }

  lemma {:induction false} LowerRankFirst(lists: seq<seq<Hit>>, p: nat, i: nat, r: nat, q: nat, j: nat, s: nat)
    requires UniqueKeys(lists) && Holds(lists, p, i, r) && Holds(lists, q, j, s) && r < s
    ensures p < q
  {
    ScoreOfPlace(lists, i, r);
    ScoreOfPlace(lists, j, s);
    ShareDecreases(r, s);
    if q <= p {
      EarlierScoresMore(lists, q, p);
    }
  }

  // ---------------------------------------------------------------- the first and the last

  lemma {:induction false} KeysHead(hits: seq<Hit>)
    requires hits != []
    ensures Keys(hits) != [] && Keys(hits)[0] == HitKey(hits[0])
  {
    if |hits| > 1 {
      KeysHead(hits[..|hits| - 1]);
    }
  }

  lemma {:induction false} FlatHead(lists: seq<seq<Hit>>)
    requires lists != [] && lists[0] != []
    ensures Flat(lists) != [] && Flat(lists)[0] == lists[0][0]
  {
    if |lists| > 1 {
      FlatHead(lists[..|lists| - 1]);
    } else {
      assert Flat(lists[..0]) == [];
    }
  }

  lemma {:induction false} HeadEarlier(keys: seq<string>, a: string, b: string)
    requires keys != [] && keys[0] == a && b in keys && a != b
    ensures Earlier(keys, a, b)
  {
  }

  /** The very first hit stands before every other: of those of rank zero it was seen first. */
  lemma {:induction false} FirstOfAll(lists: seq<seq<Hit>>, p: nat, q: nat, j: nat, s: nat)
    requires UniqueKeys(lists) && Holds(lists, p, 0, 0) && Holds(lists, q, j, s) && (j != 0 || s != 0)
    ensures p < q
  {
    if s > 0 {
      LowerRankFirst(lists, p, 0, 0, q, j, s);
    } else {
      TieGoesFirst(lists, p, q, j);
    }
  }

  lemma {:induction false} TieGoesFirst(lists: seq<seq<Hit>>, p: nat, q: nat, j: nat)
    requires UniqueKeys(lists) && Holds(lists, p, 0, 0) && Holds(lists, q, j, 0) && j != 0
    ensures p < q
  {
    var a, b := HitKey(lists[0][0]), HitKey(lists[j][0]);
    ScoreOfPlace(lists, 0, 0);
    ScoreOfPlace(lists, j, 0);
    FlatHead(lists);
    KeysHead(Flat(lists));
    KeyInFlat(lists, j, 0);
    KeysAre(Flat(lists));
    HeadEarlier(Keys(Flat(lists)), a, b);
    TiesKeepOrder(lists, a, b);
    SortedKeysDistinct(lists);
  }

  /** A hit of a higher rank than all others stands last. */
  lemma {:induction false} LastOfAll(lists: seq<seq<Hit>>, p: nat, i: nat, r: nat)
    requires UniqueKeys(lists) && Holds(lists, p, i, r)
    requires r == |lists[i]| - 1 && forall j :: 0 <= j < |lists| && j != i ==> |lists[j]| <= r
    ensures p == |Ranking(lists)| - 1
  {
    var q := |Ranking(lists)| - 1;
    var j, s := PlaceOf(lists, q);
    assert j != i ==> |lists[j]| <= r;
    if j == i && s == r {
      HeldOnce(lists, p, q, i, r);
    } else {
      LowerRankFirst(lists, q, j, s, p, i, r);
    }
  }

  // ---------------------------------------------------------------- how many

  lemma {:induction false} KeysLength(hits: seq<Hit>)
    requires DistinctKeys(hits)
    ensures |Keys(hits)| == |hits|
  {
    if hits != [] {
      var front := hits[..|hits| - 1];
      KeysLength(front);
      KeysAre(front);
    }
  }

  lemma {:induction false} FlatDistinct(lists: seq<seq<Hit>>)
    requires UniqueKeys(lists)
    ensures DistinctKeys(Flat(lists))
  {
    if lists != [] {
      var front, last := lists[..|lists| - 1], lists[|lists| - 1];
      FlatDistinct(front);
      var head := Flat(front);
      forall i, j | 0 <= i < j < |head + last| ensures HitKey((head + last)[i]) != HitKey((head + last)[j]) {
        if i < |head| <= j {
          var k := FlatSource(front, head[i]);
          var r :| 0 <= r < |front[k]| && front[k][r] == head[i];
          assert lists[k][r] == head[i] && lists[|lists| - 1][j - |head|] == last[j - |head|];
        } else if |head| <= i {
          assert lists[|lists| - 1][i - |head|] == last[i - |head|]
            && lists[|lists| - 1][j - |head|] == last[j - |head|];
        }
      }
    }
  }

  /** Every hit is ranked. */
  lemma {:induction false} RankingLength(lists: seq<seq<Hit>>)
    requires UniqueKeys(lists)
    ensures |Ranking(lists)| == |Flat(lists)|
  {
    FlatDistinct(lists);
    KeysLength(Flat(lists));
    SortMultiset(ByScore(lists), Keys(Flat(lists)));
    RankingIs(lists);
  }
}
