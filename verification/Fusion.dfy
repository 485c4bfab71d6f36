/** Reciprocal rank fusion of ranked hit lists, and the deduplication before and after it. */
module Fusion {
  import opened Sorting
  import opened Text

  datatype Hit = Hit(uri: string, chunkIndex: int, score: real, tokens: int, text: string)

  const RRF_K: nat := 60

  function HitKey(h: Hit): string { h.uri + ":" + IntText(h.chunkIndex) }

  /** The key names the hit's document and chunk, whatever characters the uri holds. */
  lemma {:induction false} HitKeyInjective(g: Hit, h: Hit)
    ensures HitKey(g) == HitKey(h) <==> g.uri == h.uri && g.chunkIndex == h.chunkIndex
  {
    if HitKey(g) == HitKey(h) {
      IntTextHasNoColon(g.chunkIndex);
      IntTextHasNoColon(h.chunkIndex);
      SplitAtLast(':', g.uri, h.uri, IntText(g.chunkIndex), IntText(h.chunkIndex));
      IntTextInjective(g.chunkIndex, h.chunkIndex);
    }
  }

  /** What rank r (from zero) contributes. */
  function Share(rank: nat): real { 1.0 / (RRF_K + rank) as real }

  lemma {:induction false} ShareDecreases(r: nat, q: nat)
    requires r < q
    ensures Share(r) > Share(q) > 0.0
  {
    Reciprocal((RRF_K + r) as real, (RRF_K + q) as real);
  }

  lemma {:induction false} Reciprocal(x: real, y: real)
    requires 0.0 < x < y
    ensures 1.0 / x > 1.0 / y > 0.0
  {
    assert 1.0 / x * x == 1.0 && 1.0 / y * y == 1.0;
    if 1.0 / x <= 1.0 / y {
      assert false;
    }
  }

  function ListScore(ranked: seq<Hit>, key: string): real {
    if ranked == [] then 0.0
    else ListScore(ranked[..|ranked| - 1], key)
         + if HitKey(ranked[|ranked| - 1]) == key then Share(|ranked| - 1) else 0.0
  }

  function Score(lists: seq<seq<Hit>>, key: string): real {
    if lists == [] then 0.0 else Score(lists[..|lists| - 1], key) + ListScore(lists[|lists| - 1], key)
  }

  function Flat(lists: seq<seq<Hit>>): seq<Hit> {
    if lists == [] then [] else Flat(lists[..|lists| - 1]) + lists[|lists| - 1]
  }

  /** The distinct keys in order of first occurrence. */
  function Keys(hits: seq<Hit>): seq<string> {
    if hits == [] then []
    else
      var keys, key := Keys(hits[..|hits| - 1]), HitKey(hits[|hits| - 1]);
      if key in keys then keys else keys + [key]
  }

  /** The first hit with a key. */
  function FirstHit(hits: seq<Hit>, key: string): Hit
    requires exists i :: 0 <= i < |hits| && HitKey(hits[i]) == key
  {
    if HitKey(hits[0]) == key then hits[0] else FirstHit(hits[1..], key)
  }

  predicate HasKey(hits: seq<Hit>, key: string) { exists i :: 0 <= i < |hits| && HitKey(hits[i]) == key }

  function ByScore(lists: seq<seq<Hit>>): (string, string) -> bool {
    (a: string, b: string) => Score(lists, a) >= Score(lists, b)
  }

  function SortedKeys(lists: seq<seq<Hit>>): seq<string> { Sort(ByScore(lists), Keys(Flat(lists))) }

  function Scored(lists: seq<seq<Hit>>, key: string): Hit
    requires HasKey(Flat(lists), key)
  {
    FirstHit(Flat(lists), key).(score := Score(lists, key))
  }

  function ScoredAll(lists: seq<seq<Hit>>, keys: seq<string>): seq<Hit>
    requires forall key :: key in keys ==> HasKey(Flat(lists), key)
  {
    if keys == [] then [] else ScoredAll(lists, keys[..|keys| - 1]) + [Scored(lists, keys[|keys| - 1])]
  }

  /** All fused hits, best first. */
  function Ranking(lists: seq<seq<Hit>>): seq<Hit> {
    SortedKeysPresent(lists);
    ScoredAll(lists, SortedKeys(lists))
  }

  function Take<T>(s: seq<T>, n: nat): seq<T> { if n <= |s| then s[..n] else s }

  /** The fused list, cut to three times the number of results asked for. */
  function Merge(lists: seq<seq<Hit>>, k: nat): seq<Hit> { Take(Ranking(lists), 3 * k) }

  // ---------------------------------------------------------------- keys

  lemma {:induction false} HasKeyAppend(x: seq<Hit>, y: seq<Hit>, key: string)
    ensures HasKey(x + y, key) <==> HasKey(x, key) || HasKey(y, key)
  {
    forall i | 0 <= i < |x| && HitKey(x[i]) == key ensures HasKey(x + y, key) {
      assert HitKey((x + y)[i]) == key;
    }
    forall i | 0 <= i < |y| && HitKey(y[i]) == key ensures HasKey(x + y, key) {
      assert HitKey((x + y)[|x| + i]) == key;
    }
  }

  lemma {:induction false} KeysAre(hits: seq<Hit>)
    ensures Distinct(Keys(hits))
    ensures forall key :: key in Keys(hits) <==> HasKey(hits, key)
  {
    if hits != [] {
      var front, last := hits[..|hits| - 1], hits[|hits| - 1];
      KeysAre(front);
      assert hits == front + [last];
      forall key ensures key in Keys(hits) <==> HasKey(hits, key) {
        HasKeyAppend(front, [last], key);
        HasKeySingle(last, key);
      }
    }
  }

  lemma {:induction false} HasKeySingle(h: Hit, key: string)
    ensures HasKey([h], key) <==> HitKey(h) == key
  {
    assert HitKey([h][0]) == HitKey(h);
  }

  lemma {:induction false} SortedKeysPresent(lists: seq<seq<Hit>>)
    ensures forall key :: key in SortedKeys(lists) <==> HasKey(Flat(lists), key)
  {
    KeysAre(Flat(lists));
    SortMembers(ByScore(lists), Keys(Flat(lists)));
  }

  lemma {:induction false} SortedKeysDistinct(lists: seq<seq<Hit>>)
    ensures Distinct(SortedKeys(lists))
    ensures Sorted(ByScore(lists), SortedKeys(lists))
  {
    KeysAre(Flat(lists));
    SortMultiset(ByScore(lists), Keys(Flat(lists)));
    SortSorted(ByScore(lists), Keys(Flat(lists)));
    DistinctPermuted(Keys(Flat(lists)), SortedKeys(lists));
  }

  lemma {:induction false} ScoredAllAt(lists: seq<seq<Hit>>, keys: seq<string>)
    requires forall key :: key in keys ==> HasKey(Flat(lists), key)
    ensures |ScoredAll(lists, keys)| == |keys|
    ensures forall i :: 0 <= i < |keys| ==> ScoredAll(lists, keys)[i] == Scored(lists, keys[i])
  {
    if keys != [] {
      ScoredAllAt(lists, keys[..|keys| - 1]);
    }
  }

  lemma {:induction false} FirstHitIs(hits: seq<Hit>, key: string)
    requires HasKey(hits, key)
    ensures FirstHit(hits, key) in hits && HitKey(FirstHit(hits, key)) == key
  {
    if HitKey(hits[0]) != key {
      var i :| 0 <= i < |hits| && HitKey(hits[i]) == key;
      assert HitKey(hits[1..][i - 1]) == key;
      FirstHitIs(hits[1..], key);
    }
  }

  /** The ranking lists each key once, with its first hit and its fused score, best first. */
  lemma {:induction false} RankingIs(lists: seq<seq<Hit>>)
    ensures |Ranking(lists)| == |SortedKeys(lists)|
    ensures forall i :: 0 <= i < |Ranking(lists)| ==>
              && HasKey(Flat(lists), SortedKeys(lists)[i])
              && Ranking(lists)[i] == Scored(lists, SortedKeys(lists)[i])
              && HitKey(Ranking(lists)[i]) == SortedKeys(lists)[i]
  {
    var keys := SortedKeys(lists);
    SortedKeysPresent(lists);
    ScoredAllAt(lists, keys);
    forall i | 0 <= i < |keys|
      ensures HasKey(Flat(lists), keys[i]) && Ranking(lists)[i] == Scored(lists, keys[i])
              && HitKey(Ranking(lists)[i]) == keys[i]
    {
      assert keys[i] in keys;
      FirstHitIs(Flat(lists), keys[i]);
    }
  }

  // ---------------------------------------------------------------- unanimity

  ghost predicate DistinctKeys(ranked: seq<Hit>) {
    forall i, j :: 0 <= i < j < |ranked| ==> HitKey(ranked[i]) != HitKey(ranked[j])
  }

  lemma {:induction false} ListScoreAbsent(ranked: seq<Hit>, key: string)
    requires !HasKey(ranked, key)
    ensures ListScore(ranked, key) == 0.0
  {
    if ranked != [] {
      var front, last := ranked[..|ranked| - 1], ranked[|ranked| - 1];
      assert ranked == front + [last];
      HasKeyAppend(front, [last], key);
      HasKeySingle(last, key);
      ListScoreAbsent(front, key);
    }
  }

  /** In a list with distinct keys a hit scores the share of its rank. */
  lemma {:induction false} ListScoreAt(ranked: seq<Hit>, i: nat)
    requires DistinctKeys(ranked) && i < |ranked|
    ensures ListScore(ranked, HitKey(ranked[i])) == Share(i)
  {
    var front := ranked[..|ranked| - 1];
    if i == |ranked| - 1 {
      ListScoreAbsent(front, HitKey(ranked[i]));
    } else {
      ListScoreAt(front, i);
    }
  }

  ghost predicate Precedes(ranked: seq<Hit>, a: string, b: string) {
    forall j :: 0 <= j < |ranked| && HitKey(ranked[j]) == b ==> HasKey(ranked[..j], a)
  }

  lemma {:induction false} PrecedesScores(ranked: seq<Hit>, a: string, b: string)
    requires DistinctKeys(ranked) && Precedes(ranked, a, b)
    ensures ListScore(ranked, a) >= ListScore(ranked, b) >= 0.0
    ensures HasKey(ranked, b) ==> ListScore(ranked, a) > ListScore(ranked, b)
  {
    if HasKey(ranked, b) {
      var j :| 0 <= j < |ranked| && HitKey(ranked[j]) == b;
      var i :| 0 <= i < |ranked[..j]| && HitKey(ranked[..j][i]) == a;
      assert HitKey(ranked[i]) == a;
      ListScoreAt(ranked, i);
      ListScoreAt(ranked, j);
      ShareDecreases(i, j);
    } else {
      ListScoreAbsent(ranked, b);
      if HasKey(ranked, a) {
        var i :| 0 <= i < |ranked| && HitKey(ranked[i]) == a;
        ListScoreAt(ranked, i);
        ShareDecreases(i, i + 1);
      } else {
        ListScoreAbsent(ranked, a);
      }
    }
  }

  /** A key that precedes another in every list that has the other scores strictly more. */
  lemma {:induction false} UnanimousScore(lists: seq<seq<Hit>>, a: string, b: string)
    requires forall l :: l in lists ==> DistinctKeys(l) && Precedes(l, a, b)
    ensures Score(lists, a) >= Score(lists, b)
    ensures HasKey(Flat(lists), b) ==> Score(lists, a) > Score(lists, b)
  {
    if lists != [] {
      var front, last := lists[..|lists| - 1], lists[|lists| - 1];
      UnanimousScore(front, a, b);
      PrecedesScores(last, a, b);
      HasKeyAppend(Flat(front), last, b);
    }
  }

  /** Unanimity: what every list agrees on, the fused and cut list keeps. */
  lemma {:induction false} FusionIsUnanimous(lists: seq<seq<Hit>>, k: nat, a: string, b: string, q: nat)
    requires forall l :: l in lists ==> DistinctKeys(l) && Precedes(l, a, b)
    requires q < |Merge(lists, k)| && HitKey(Merge(lists, k)[q]) == b
    ensures exists p :: 0 <= p < q && HitKey(Merge(lists, k)[p]) == a
              && Merge(lists, k)[p].score > Merge(lists, k)[q].score
  {
    var keys := SortedKeys(lists);
    RankingIs(lists);
    SortedKeysDistinct(lists);
    SortedKeysPresent(lists);
    assert keys[q] == b;
    UnanimousScore(lists, a, b);
    KeyFromList(lists, b, a);
    assert a in keys;
    var p :| 0 <= p < |keys| && keys[p] == a;
    if q <= p {
      EarlierScoresMore(lists, q, p);
      assert false;
    }
    assert HitKey(Merge(lists, k)[p]) == a;
  }

  lemma {:induction false} EarlierScoresMore(lists: seq<seq<Hit>>, p: nat, q: nat)
    requires p <= q < |SortedKeys(lists)|
    ensures Score(lists, SortedKeys(lists)[p]) >= Score(lists, SortedKeys(lists)[q])
  {
    SortedKeysDistinct(lists);
    if p < q {
      assert ByScore(lists)(SortedKeys(lists)[p], SortedKeys(lists)[q]);
    }
  }

  lemma {:induction false} PrecedesHas(ranked: seq<Hit>, a: string, b: string)
    requires Precedes(ranked, a, b) && HasKey(ranked, b)
    ensures HasKey(ranked, a)
  {
    var j :| 0 <= j < |ranked| && HitKey(ranked[j]) == b;
    var i :| 0 <= i < |ranked[..j]| && HitKey(ranked[..j][i]) == a;
    assert HitKey(ranked[i]) == a;
  }

  lemma {:induction false} KeyFromList(lists: seq<seq<Hit>>, b: string, a: string)
    requires HasKey(Flat(lists), b) && forall l :: l in lists ==> Precedes(l, a, b)
    ensures HasKey(Flat(lists), a)
  {
    if lists != [] {
      var front, last := lists[..|lists| - 1], lists[|lists| - 1];
      HasKeyAppend(Flat(front), last, a);
      HasKeyAppend(Flat(front), last, b);
      if HasKey(last, b) {
        PrecedesHas(last, a, b);
      } else {
        KeyFromList(front, b, a);
      }
    }
  }

  // ---------------------------------------------------------------- ties

  ghost predicate Earlier(s: seq<string>, a: string, b: string) {
    exists i, j :: 0 <= i < j < |s| && s[i] == a && s[j] == b
  }

  lemma {:induction false} FilterEarlier(p: string -> bool, s: seq<string>, a: string, b: string)
    requires p(a) && p(b) && Earlier(s, a, b)
    ensures Earlier(Filter(p, s), a, b)
  {
    var i, j :| 0 <= i < j < |s| && s[i] == a && s[j] == b;
    var rest, f := s[1..], Filter(p, s[1..]);
    assert rest[j - 1] == b;
    if i == 0 {
      FilterMembers(p, rest);
      assert b in f;
      var l :| 0 <= l < |f| && f[l] == b;
      assert Filter(p, s)[0] == a && Filter(p, s)[l + 1] == b;
    } else {
      assert rest[i - 1] == a;
      FilterEarlier(p, rest, a, b);
      var k, l :| 0 <= k < l < |f| && f[k] == a && f[l] == b;
      assert p(s[0]) ==> Filter(p, s)[k + 1] == a && Filter(p, s)[l + 1] == b;
    }
  }

  lemma {:induction false} EarlierOnce(p: string -> bool, s: seq<string>, a: string, b: string)
    requires Distinct(s) && p(a) && p(b) && Earlier(Filter(p, s), a, b)
    ensures !Earlier(Filter(p, s), b, a)
  {
    var f := Filter(p, s);
    if Earlier(f, b, a) {
      var i, j :| 0 <= i < j < |f| && f[i] == a && f[j] == b;
      var k, l :| 0 <= k < l < |f| && f[k] == b && f[l] == a;
      FilterMultiset(p, s, a);
      FilterMultiset(p, s, b);
      AtMostOnce(s, a);
      AtMostOnce(s, b);
      if i < l {
        Twice(f, i, l);
      } else {
        Twice(f, k, j);
      }
    }
  }

  lemma {:induction false} EarlierEither(s: seq<string>, a: string, b: string)
    requires a in s && b in s && a != b
    ensures Earlier(s, a, b) || Earlier(s, b, a)
  {
    var i :| 0 <= i < |s| && s[i] == a;
    var j :| 0 <= j < |s| && s[j] == b;
    assert Earlier(s, b, a) || i < j;
  }

  lemma {:induction false} EarlierDiffer(s: seq<string>, a: string, b: string)
    requires Distinct(s) && Earlier(s, a, b)
    ensures a in s && b in s && a != b
  {
  }

  /** Equal fused scores stay in the order in which their keys were first seen. */
  lemma {:induction false} TiesKeepOrder(lists: seq<seq<Hit>>, a: string, b: string)
    requires Score(lists, a) == Score(lists, b) && Earlier(Keys(Flat(lists)), a, b)
    ensures Earlier(SortedKeys(lists), a, b)
  {
    var keys, sorted := Keys(Flat(lists)), SortedKeys(lists);
    var p := (key: string) => Score(lists, key) == Score(lists, a);
    KeysAre(Flat(lists));
    EarlierDiffer(keys, a, b);
    TiesUnmoved(lists, p, Score(lists, a));
    FilterEarlier(p, keys, a, b);
    EarlierOnce(p, keys, a, b);
    SortMembers(ByScore(lists), keys);
    EarlierEither(sorted, a, b);
    if Earlier(sorted, b, a) {
      FilterEarlier(p, sorted, b, a);
    }
  }

  lemma {:induction false} TiesUnmoved(lists: seq<seq<Hit>>, p: string -> bool, score: real)
    requires forall key :: p(key) == (Score(lists, key) == score)
    ensures Filter(p, SortedKeys(lists)) == Filter(p, Keys(Flat(lists)))
  {
    SortStable(ByScore(lists), p, Keys(Flat(lists)));
  }

  // ---------------------------------------------------------------- order of the lists

  lemma {:induction false} ScoreAppend(x: seq<seq<Hit>>, y: seq<seq<Hit>>, key: string)
    ensures Score(x + y, key) == Score(x, key) + Score(y, key)
  {
    if y == [] {
      assert x + y == x;
    } else {
      var front := y[..|y| - 1];
      ScoreAppend(x, front, key);
      assert (x + y)[..|x + y| - 1] == x + front && (x + y)[|x + y| - 1] == y[|y| - 1];
    }
  }

  lemma {:induction false} ScoreMiddle(x: seq<seq<Hit>>, l: seq<Hit>, y: seq<seq<Hit>>, key: string)
    ensures Score(x + ([l] + y), key) == ListScore(l, key) + Score(x + y, key)
  {
    ScoreAppend(x, [l] + y, key);
    ScoreAppend([l], y, key);
    ScoreAppend(x, y, key);
    assert [l][..0] == [];
  }

  lemma {:induction false} ScorePull(x: seq<seq<Hit>>, i: nat, key: string)
    requires i < |x|
    ensures Score(x, key) == ListScore(x[i], key) + Score(x[..i] + x[i + 1..], key)
  {
    assert x == x[..i] + ([x[i]] + x[i + 1..]);
    ScoreMiddle(x[..i], x[i], x[i + 1..], key);
  }

  lemma {:induction false} ScoreHead(x: seq<seq<Hit>>, key: string)
    requires x != []
    ensures Score(x, key) == ListScore(x[0], key) + Score(x[1..], key)
  {
    ScorePull(x, 0, key);
    assert x[..0] + x[1..] == x[1..];
  }

  /** Fused scores do not depend on the order of the lists. */
  lemma {:induction false} ScoreOrderIndependent(x: seq<seq<Hit>>, y: seq<seq<Hit>>, key: string)
    requires multiset(x) == multiset(y)
    ensures Score(x, key) == Score(y, key)
    decreases |x|
  {
    if x == [] {
      assert |multiset(y)| == 0;
    } else {
      var i := PullFirst(x, y);
      ScoreHead(x, key);
      ScorePull(y, i, key);
      ScoreOrderIndependent(x[1..], y[..i] + y[i + 1..], key);
    }
  }
}
