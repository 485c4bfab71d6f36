/** The numbers of the search: scores from ranks alone, how many chunks are ranked, how many hits
    are counted, and which uris are the same. */
module FusionScores {
  import opened Options
  import opened Fusion
  import opened Dedupe
  import opened SearchStability
  import opened StrategySearch

  /** The ranks of a key, list by list. */
  predicate AreRanks(lists: seq<seq<Hit>>, key: string, ranks: seq<Option<nat>>) {
    |ranks| == |lists| && forall i :: 0 <= i < |lists| ==> IsRank(lists[i], key, ranks[i])
  }

  ghost predicate AllDistinct(lists: seq<seq<Hit>>) { forall i :: 0 <= i < |lists| ==> DistinctKeys(lists[i]) }

  predicate IsRank(l: seq<Hit>, key: string, rank: Option<nat>) {
    match rank
    case None => forall r :: 0 <= r < |l| ==> HitKey(l[r]) != key
    case Some(r) => r < |l| && HitKey(l[r]) == key
  }

  function Reciprocals(ranks: seq<Option<nat>>): real {
    if ranks == [] then 0.0
    else
      Reciprocals(ranks[..|ranks| - 1])
      + match ranks[|ranks| - 1] case None => 0.0 case Some(r) => 1.0 / (60 + r) as real
  }

  lemma {:induction false} FrontRanks(lists: seq<seq<Hit>>, key: string, ranks: seq<Option<nat>>, n: nat)
    requires AllDistinct(lists) && AreRanks(lists, key, ranks) && n < |lists|
    ensures AllDistinct(lists[..n]) && AreRanks(lists[..n], key, ranks[..n])
    ensures DistinctKeys(lists[n]) && IsRank(lists[n], key, ranks[n])
  {
  }

  lemma {:induction false} ListScoreFromRank(l: seq<Hit>, key: string, rank: Option<nat>)
    requires DistinctKeys(l) && IsRank(l, key, rank)
    ensures ListScore(l, key) == match rank case None => 0.0 case Some(r) => 1.0 / (60 + r) as real
  {
    match rank
    case None => ListScoreAbsent(l, key);
    case Some(r) => ListScoreAt(l, r);
  }

  /** A key scores 1 / (60 + rank) for each list that holds it, ranks counting from zero. */
  lemma {:induction false} ScoreFromRanks(lists: seq<seq<Hit>>, key: string, ranks: seq<Option<nat>>)
    requires AllDistinct(lists) && AreRanks(lists, key, ranks)
    ensures Score(lists, key) == Reciprocals(ranks)
  {
    if lists != [] {
      var n := |lists| - 1;
      FrontRanks(lists, key, ranks, n);
      ScoreFromRanks(lists[..n], key, ranks[..n]);
      ListScoreFromRank(lists[n], key, ranks[n]);
    }
  }

  /** The first hit of a single list scores 1 / 60, the next 1 / 61, and so on. */
  lemma {:induction false} OneListScores(l: seq<Hit>, r: nat)
    requires DistinctKeys(l) && r < |l|
    ensures |Ranking([l])| == |l| && Ranking([l])[r].score == 1.0 / (60 + r) as real
    ensures HitKey(Ranking([l])[r]) == HitKey(l[r])
  {
    OneListKeepsOrder(l);
  }

  /** Place r of list i is the first that has the key: not earlier in the list, nor in a list before. */
  predicate IsFirstPlace(lists: seq<seq<Hit>>, key: string, i: nat, r: nat) {
    && i < |lists| && IsFirstIn(lists[i], key, r)
    && (forall j :: 0 <= j < i ==> !HasKey(lists[j], key))
  }

  predicate IsFirstIn(l: seq<Hit>, key: string, r: nat) {
    r < |l| && HitKey(l[r]) == key && forall s :: 0 <= s < r ==> HitKey(l[s]) != key
  }

  lemma {:induction false} FirstBehind(h: Hit, rest: seq<Hit>, key: string, r: nat)
    requires HitKey(h) != key && IsFirstIn(rest, key, r)
    ensures IsFirstIn([h] + rest, key, r + 1)
  {
    var l := [h] + rest;
    forall s | 0 <= s < r + 1 ensures HitKey(l[s]) != key {
      if s > 0 {
        assert l[s] == rest[s - 1];
      }
    }
  }

  lemma {:induction false} FirstInList(l: seq<Hit>, key: string) returns (r: nat)
    requires HasKey(l, key)
    ensures IsFirstIn(l, key, r) && l[r] == FirstHit(l, key)
  {
    r := 0;
    if HitKey(l[0]) != key {
      HeadFirst(l, []);
      HasKeyCons(l[0], l[1..], key);
      r := FirstInList(l[1..], key);
      FirstBehind(l[0], l[1..], key, r);
      r := r + 1;
    }
  }

  lemma {:induction false} FlatHas(front: seq<seq<Hit>>, last: seq<Hit>, key: string)
    requires HasKey(Flat(front + [last]), key)
    ensures HasKey(Flat(front), key) || HasKey(last, key)
    ensures FirstHit(Flat(front + [last]), key)
      == if HasKey(Flat(front), key) then FirstHit(Flat(front), key) else FirstHit(last, key)
  {
    assert (front + [last])[..|front|] == front;
    HasKeyAppend(Flat(front), last, key);
    FirstHitAppend(Flat(front), last, key);
  }

  lemma {:induction false} FirstPlace(lists: seq<seq<Hit>>, key: string) returns (i: nat, r: nat)
    requires HasKey(Flat(lists), key)
    ensures IsFirstPlace(lists, key, i, r) && lists[i][r] == FirstHit(Flat(lists), key)
  {
    var front, last := lists[..|lists| - 1], lists[|lists| - 1];
    assert lists == front + [last];
    FlatHas(front, last, key);
    if HasKey(Flat(front), key) {
      i, r := FirstPlace(front, key);
      StillFirst(front, last, key, i, r);
    } else {
      i := |front|;
      r := FirstInList(last, key);
      NowFirst(front, last, key, r);
    }
  }

  lemma {:induction false} StillFirst(front: seq<seq<Hit>>, last: seq<Hit>, key: string, i: nat, r: nat)
    requires IsFirstPlace(front, key, i, r)
    ensures IsFirstPlace(front + [last], key, i, r)
  {
    assert forall j :: 0 <= j < |front| ==> (front + [last])[j] == front[j];
  }

  lemma {:induction false} NowFirst(front: seq<seq<Hit>>, last: seq<Hit>, key: string, r: nat)
    requires !HasKey(Flat(front), key) && IsFirstIn(last, key, r)
    ensures IsFirstPlace(front + [last], key, |front|, r)
  {
    forall j | 0 <= j < |front| ensures !HasKey((front + [last])[j], key) {
      NotInPart(front, j, key);
    }
  }

  lemma {:induction false} NotInPart(lists: seq<seq<Hit>>, j: nat, key: string)
    requires j < |lists| && !HasKey(Flat(lists), key)
    ensures !HasKey(lists[j], key)
  {
    var front, last := lists[..|lists| - 1], lists[|lists| - 1];
    HasKeyAppend(Flat(front), last, key);
    if j < |front| {
      NotInPart(front, j, key);
    }
  }

  /** What is reported for a key is the hit at its first place, with the fused score. */
  lemma {:induction false} ReportedIsFirst(lists: seq<seq<Hit>>, p: nat) returns (i: nat, r: nat)
    requires p < |Ranking(lists)|
    ensures IsFirstPlace(lists, HitKey(Ranking(lists)[p]), i, r)
    ensures Ranking(lists)[p] == lists[i][r].(score := Score(lists, HitKey(lists[i][r])))
  {
    RankingIs(lists);
    i, r := FirstPlace(lists, SortedKeys(lists)[p]);
  }

  /** A lexical index ranks 200 chunks for each result, but from 1000 to 10000 in all. */
  lemma {:induction false} LimitIs(k: nat)
    ensures 1000 <= CandidateLimit(k) <= 10000
    ensures CandidateLimit(k) == 200 * k <==> 5 <= k <= 50
    ensures CandidateLimit(k) == 1000 <==> k <= 5
    ensures CandidateLimit(k) == 10000 <==> k >= 50
  {
  }

  /** The hits counted are those of all lists, before fusion. */
  lemma {:induction false} CountedBeforeFusion(lists: seq<seq<Hit>>)
    ensures TotalHits(lists) == |Flat(lists)|
  {
    if lists != [] {
      var front, last := lists[..|lists| - 1], lists[|lists| - 1];
      CountedBeforeFusion(front);
      TotalAppend(front, last);
      assert lists == front + [last];
    }
  }

  /** A path and the file uri of its normalised form on the host are the same; other uris stay apart
      from each other. */
  lemma {:induction false} SameUriExactly(loc: Locator, path: string, other: string)
    requires !HasScheme(path)
    ensures Canonical(loc, path) == Canonical(loc, "file://" + loc.host + loc.normalize(path))
    ensures !HasScheme(other) ==>
      (Canonical(loc, path) == Canonical(loc, other) <==> loc.normalize(path) == loc.normalize(other))
    ensures HasScheme(other) ==>
      (Canonical(loc, path) == Canonical(loc, other) <==> other == "file://" + loc.host + loc.normalize(path))
  {
    var rest := loc.host + loc.normalize(path);
    SchemeInside("file", rest);
    assert "file" + "://" + rest == "file://" + loc.host + loc.normalize(path);
    SameBehind("file" + "://" + loc.host, loc.normalize(path), loc.normalize(other));
    assert "file" + "://" + (loc.host + loc.normalize(path)) == "file" + "://" + loc.host + loc.normalize(path);
    assert "file" + "://" + (loc.host + loc.normalize(other)) == "file" + "://" + loc.host + loc.normalize(other);
  }

  lemma {:induction false} SameBehind(a: string, x: string, y: string)
    ensures a + x == a + y <==> x == y
  {
    if a + x == a + y {
      assert x == (a + x)[|a|..] && y == (a + y)[|a|..];
    }
  }
}
