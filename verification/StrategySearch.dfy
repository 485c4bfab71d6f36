/** The loops of rank fusion and of the strategy search built on it. */
module StrategySearch {
  import opened Sorting
  import opened Fusion
  import opened Dedupe
  import opened Overfetch

  // ---------------------------------------------------------------- rank fusion with tables

  function Lookup(scores: map<string, real>, key: string): real {
    if key in scores then scores[key] else 0.0
  }

  function ByTable(scores: map<string, real>): (string, string) -> bool {
    (a: string, b: string) => Lookup(scores, a) >= Lookup(scores, b)
  }

  lemma {:induction false} HeadFirst(x: seq<Hit>, y: seq<Hit>)
    requires x != []
    ensures x == [x[0]] + x[1..] && x + y == [x[0]] + (x[1..] + y)
  {
  }

  lemma {:induction false} HasKeyCons(h: Hit, rest: seq<Hit>, key: string)
    ensures HasKey([h] + rest, key) <==> HitKey(h) == key || HasKey(rest, key)
  {
    HasKeyAppend([h], rest, key);
    HasKeySingle(h, key);
  }

  lemma {:induction false} FirstHitCons(h: Hit, rest: seq<Hit>, key: string)
    requires HasKey([h] + rest, key) && (HitKey(h) != key ==> HasKey(rest, key))
    ensures FirstHit([h] + rest, key) == if HitKey(h) == key then h else FirstHit(rest, key)
  {
    assert ([h] + rest)[0] == h && ([h] + rest)[1..] == rest;
  }

  /** The first hit with a key stands in the first part that has the key. */
  lemma {:induction false} FirstHitAppend(x: seq<Hit>, y: seq<Hit>, key: string)
    requires HasKey(x, key) || HasKey(y, key)
    ensures HasKey(x + y, key)
    ensures FirstHit(x + y, key) == if HasKey(x, key) then FirstHit(x, key) else FirstHit(y, key)
  {
    HasKeyAppend(x, y, key);
    if x == [] {
      assert x + y == y;
    } else {
      var h, rest := x[0], x[1..];
      HeadFirst(x, y);
      HasKeyCons(h, rest, key);
      if HitKey(h) != key {
        FirstHitAppend(rest, y, key);
      }
      FirstHitCons(h, rest + y, key);
      if HasKey(x, key) {
        FirstHitCons(h, rest, key);
      }
    }
  }

  lemma {:induction false} KeysStep(hits: seq<Hit>, h: Hit)
    ensures Keys(hits + [h]) == if HasKey(hits, HitKey(h)) then Keys(hits) else Keys(hits) + [HitKey(h)]
  {
    KeysAre(hits);
    assert (hits + [h])[..|hits + [h]| - 1] == hits;
  }

  /** The two dictionaries, with the insertion order the sort starts from. */
  datatype Tables = Tables(order: seq<string>, scores: map<string, real>, docs: map<string, Hit>)

  function Enter(t: Tables, h: Hit, rank: nat): Tables {
    var key := HitKey(h);
    Tables(if key in t.scores then t.order else t.order + [key],
           t.scores[key := Lookup(t.scores, key) + Share(rank)],
           if key in t.docs then t.docs else t.docs[key := h])
  }

  function EnterAll(t: Tables, ranked: seq<Hit>): Tables {
    if ranked == [] then t
    else Enter(EnterAll(t, ranked[..|ranked| - 1]), ranked[|ranked| - 1], |ranked| - 1)
  }

  function TablesOf(lists: seq<seq<Hit>>): Tables {
    if lists == [] then Tables([], map[], map[])
    else EnterAll(TablesOf(lists[..|lists| - 1]), lists[|lists| - 1])
  }

  lemma {:induction false} EnterAllScores(t: Tables, ranked: seq<Hit>, key: string)
    ensures Lookup(EnterAll(t, ranked).scores, key) == Lookup(t.scores, key) + ListScore(ranked, key)
    ensures key in EnterAll(t, ranked).scores <==> key in t.scores || HasKey(ranked, key)
  {
    if ranked != [] {
      var part, h := ranked[..|ranked| - 1], ranked[|ranked| - 1];
      EnterAllScores(t, part, key);
      assert ranked == part + [h];
      HasKeyAppend(part, [h], key);
      HasKeySingle(h, key);
    }
  }

  lemma {:induction false} EnterAllDocs(t: Tables, ranked: seq<Hit>, key: string)
    ensures key in EnterAll(t, ranked).docs <==> key in t.docs || HasKey(ranked, key)
    ensures key in t.docs ==> EnterAll(t, ranked).docs[key] == t.docs[key]
    ensures key !in t.docs && HasKey(ranked, key) ==> EnterAll(t, ranked).docs[key] == FirstHit(ranked, key)
  {
    if ranked != [] {
      var part, h := ranked[..|ranked| - 1], ranked[|ranked| - 1];
      EnterAllDocs(t, part, key);
      assert ranked == part + [h];
      HasKeyAppend(part, [h], key);
      HasKeySingle(h, key);
      if HasKey(ranked, key) {
        FirstHitAppend(part, [h], key);
      }
    }
  }

  /** The table of scores holds the fused scores. */
  lemma {:induction false} TablesScores(lists: seq<seq<Hit>>, key: string)
    ensures Lookup(TablesOf(lists).scores, key) == Score(lists, key)
    ensures key in TablesOf(lists).scores <==> HasKey(Flat(lists), key)
  {
    if lists != [] {
      var front, last := lists[..|lists| - 1], lists[|lists| - 1];
      TablesScores(front, key);
      EnterAllScores(TablesOf(front), last, key);
      HasKeyAppend(Flat(front), last, key);
    }
  }

  /** The table of documents holds the first hit of each key. */
  lemma {:induction false} TablesDocs(lists: seq<seq<Hit>>, key: string)
    ensures key in TablesOf(lists).docs <==> HasKey(Flat(lists), key)
    ensures HasKey(Flat(lists), key) ==> TablesOf(lists).docs[key] == FirstHit(Flat(lists), key)
  {
    if lists != [] {
      var front, last := lists[..|lists| - 1], lists[|lists| - 1];
      TablesDocs(front, key);
      EnterAllDocs(TablesOf(front), last, key);
      HasKeyAppend(Flat(front), last, key);
      if HasKey(Flat(lists), key) {
        FirstHitAppend(Flat(front), last, key);
      }
    }
  }

  lemma {:induction false} EnterAllOrder(front: seq<seq<Hit>>, ranked: seq<Hit>)
    requires TablesOf(front).order == Keys(Flat(front))
    ensures EnterAll(TablesOf(front), ranked).order == Keys(Flat(front) + ranked)
  {
    if ranked == [] {
      assert Flat(front) + ranked == Flat(front);
    } else {
      var part, h := ranked[..|ranked| - 1], ranked[|ranked| - 1];
      EnterAllOrder(front, part);
      EnterAllScores(TablesOf(front), part, HitKey(h));
      TablesScores(front, HitKey(h));
      HasKeyAppend(Flat(front), part, HitKey(h));
      OrderStep(EnterAll(TablesOf(front), part), Flat(front) + part, h, |part|);
      Regrouped(Flat(front), ranked);
    }
  }

  lemma {:induction false} OrderStep(t: Tables, hits: seq<Hit>, h: Hit, rank: nat)
    requires t.order == Keys(hits) && (HitKey(h) in t.scores <==> HasKey(hits, HitKey(h)))
    ensures Enter(t, h, rank).order == Keys(hits + [h])
  {
    KeysStep(hits, h);
  }

  lemma {:induction false} Regrouped(x: seq<Hit>, y: seq<Hit>)
    requires y != []
    ensures x + y == (x + y[..|y| - 1]) + [y[|y| - 1]]
  {
  }

  /** The table's keys stand in order of first occurrence. */
  lemma {:induction false} TablesOrder(lists: seq<seq<Hit>>)
    ensures TablesOf(lists).order == Keys(Flat(lists))
  {
    if lists != [] {
      TablesOrder(lists[..|lists| - 1]);
      EnterAllOrder(lists[..|lists| - 1], lists[|lists| - 1]);
    }
  }

  method AddHit(t: Tables, hit: Hit, rank: nat) returns (t': Tables)
    ensures t' == Enter(t, hit, rank)
  {
    var key := HitKey(hit);
    var order, docs := t.order, t.docs;
    if key !in t.scores {
      order := order + [key];
    }
    var scores := t.scores[key := Lookup(t.scores, key) + Share(rank)];
    if key !in docs {
      docs := docs[key := hit];
    }
    t' := Tables(order, scores, docs);
  }

  method AddList(t0: Tables, ranked: seq<Hit>) returns (t: Tables)
    ensures t == EnterAll(t0, ranked)
  {
    t := t0;
    for rank := 0 to |ranked|
      invariant t == EnterAll(t0, ranked[..rank])
    {
      t := AddHit(t, ranked[rank], rank);
      ghost var prefix := ranked[..rank + 1];
      assert |prefix| == rank + 1 && prefix[..rank] == ranked[..rank] && prefix[rank] == ranked[rank];
    }
    assert ranked[..|ranked|] == ranked;
  }

  method BuildTables(lists: seq<seq<Hit>>) returns (t: Tables)
    ensures t == TablesOf(lists)
  {
    t := Tables([], map[], map[]);
    for i := 0 to |lists|
      invariant t == TablesOf(lists[..i])
    {
      t := AddList(t, lists[i]);
      assert lists[..i + 1][..i] == lists[..i];
    }
    assert lists[..|lists|] == lists;
  }

  method RrfMerge(lists: seq<seq<Hit>>, k: nat) returns (merged: seq<Hit>)
    ensures merged == Merge(lists, k)
  {
    var t := BuildTables(lists);
    SortByTable(lists);
    PickIsMerge(lists, k);
    var sorted := Sort(ByTable(t.scores), t.order);
    merged := Pick(Take(sorted, 3 * k), t);
  }

  lemma {:induction false} SortByTable(lists: seq<seq<Hit>>)
    ensures Sort(ByTable(TablesOf(lists).scores), TablesOf(lists).order) == SortedKeys(lists)
  {
    var t := TablesOf(lists);
    TablesOrder(lists);
    forall a, b | a in t.order && b in t.order ensures ByTable(t.scores)(a, b) == ByScore(lists)(a, b) {
      TablesScores(lists, a);
      TablesScores(lists, b);
    }
    SortCongruent(ByTable(t.scores), ByScore(lists), t.order);
  }

  predicate Present(keys: seq<string>, t: Tables) {
    forall i :: 0 <= i < |keys| ==> keys[i] in t.scores && keys[i] in t.docs
  }

  function Pick(keys: seq<string>, t: Tables): seq<Hit>
    requires Present(keys, t)
  {
    seq(|keys|, i requires 0 <= i < |keys| => t.docs[keys[i]].(score := t.scores[keys[i]]))
  }

  lemma {:induction false} PickIsMerge(lists: seq<seq<Hit>>, k: nat)
    ensures Present(Take(SortedKeys(lists), 3 * k), TablesOf(lists))
    ensures Pick(Take(SortedKeys(lists), 3 * k), TablesOf(lists)) == Merge(lists, k)
  {
    var keys, t := Take(SortedKeys(lists), 3 * k), TablesOf(lists);
    RankingIs(lists);
    forall i | 0 <= i < |keys|
      ensures keys[i] in t.scores && keys[i] in t.docs
              && t.docs[keys[i]].(score := t.scores[keys[i]]) == Merge(lists, k)[i]
    {
      assert HasKey(Flat(lists), SortedKeys(lists)[i]);
      TablesScores(lists, keys[i]);
      TablesDocs(lists, keys[i]);
    }
  }

  // ---------------------------------------------------------------- the strategy search

  /** What one index of a strategy answers: nothing when it is unknown, too large, failed or has
      no text query to run; the ranking of all its embeddings; or the ranking of the chunks found
      by a text search for a limited number of them. */
  datatype Answer =
    | Skipped
    | Semantic(hits: seq<Hit>)
    | Lexical(found: nat -> seq<Hit>, rank: seq<Hit> -> seq<Hit>)

  /** How many chunks a lexical index ranks for a number of results. */
  function CandidateLimit(k: nat): nat {
    var wanted := if k * 200 <= 1000 then 1000 else k * 200;
    if wanted <= 10000 then wanted else 10000
  }

  function RawHits(a: Answer, k: nat): seq<Hit>
    requires !a.Skipped?
  {
    match a
    case Semantic(hits) => hits
    case Lexical(found, rank) => rank(found(CandidateLimit(k)))
  }

  function RankedLists(loc: Locator, answers: seq<Answer>, k: nat): seq<seq<Hit>> {
    if |answers| == 0 then []
    else
      var front, last := RankedLists(loc, answers[..|answers| - 1], k), answers[|answers| - 1];
      if last.Skipped? then front else front + [DedupeHits(loc, RawHits(last, 3 * k), 3 * k)]
  }

  method CollectLists(loc: Locator, answers: seq<Answer>, k: nat) returns (lists: seq<seq<Hit>>, totalChunks: nat)
    ensures lists == RankedLists(loc, answers, k) && totalChunks == TotalHits(lists)
  {
    var overFetch := k * 3;
    lists := [];
    totalChunks := 0;
    for i := 0 to |answers|
      invariant lists == RankedLists(loc, answers[..i], k)
      invariant totalChunks == TotalHits(lists)
    {
      ghost var prefix := answers[..i + 1];
      assert |prefix| == i + 1 && prefix[..i] == answers[..i] && prefix[i] == answers[i];
      if !answers[i].Skipped? {
        var ranked := ComputeDedupe(loc, RawHits(answers[i], overFetch), overFetch);
        TotalAppend(lists, ranked);
        lists := lists + [ranked];
        totalChunks := totalChunks + |ranked|;
      }
    }
    assert answers[..|answers|] == answers;
  }

  method RunStrategySearch(loc: Locator, answers: seq<Answer>, k: nat) returns (hits: seq<Hit>, totalChunks: nat)
    requires k >= 1
    ensures hits == Search(loc, RankedLists(loc, answers, k), k)
    ensures totalChunks == TotalHits(RankedLists(loc, answers, k))
  {
    var rankedLists;
    rankedLists, totalChunks := CollectLists(loc, answers, k);
    hits := Fuse(loc, rankedLists, k);
  }

  method Fuse(loc: Locator, rankedLists: seq<seq<Hit>>, k: nat) returns (hits: seq<Hit>)
    ensures hits == Search(loc, rankedLists, k)
  {
    if rankedLists == [] {
      return [];
    }
    var merged := RrfMerge(rankedLists, k);
    hits := ComputeDedupe(loc, merged, k);
  }

  function TotalHits(lists: seq<seq<Hit>>): nat {
    if lists == [] then 0 else |lists[0]| + TotalHits(lists[1..])
  }

  lemma {:induction false} TotalAppend(lists: seq<seq<Hit>>, l: seq<Hit>)
    ensures TotalHits(lists + [l]) == TotalHits(lists) + |l|
  {
    if lists != [] {
      TotalAppend(lists[1..], l);
      assert (lists + [l])[1..] == lists[1..] + [l];
    }
  }

  /** The lists that are fused are deduplicated, so their keys are distinct. */
  lemma {:induction false} RankedListsDeduped(loc: Locator, answers: seq<Answer>, k: nat)
    ensures AllDeduped(loc, RankedLists(loc, answers, k))
    ensures forall l :: l in RankedLists(loc, answers, k) ==> DistinctKeys(l)
    ensures |RankedLists(loc, answers, k)| <= |answers|
  {
    if |answers| > 0 {
      var last := answers[|answers| - 1];
      RankedListsDeduped(loc, answers[..|answers| - 1], k);
      if !last.Skipped? {
        var l := DedupeHits(loc, RawHits(last, 3 * k), 3 * k);
        DedupeIsDeduped(loc, RawHits(last, 3 * k), 3 * k);
        forall i, j | 0 <= i < j < |l| ensures HitKey(l[i]) != HitKey(l[j]) {
          HitKeyInjective(l[i], l[j]);
        }
      }
    }
  }

  /** Results are at most k (k is at least one) and pairwise different in uri and text. */
  lemma {:induction false} StrategyResults(loc: Locator, answers: seq<Answer>, k: nat)
    requires k >= 1
    ensures var hits := Search(loc, RankedLists(loc, answers, k), k);
            |hits| <= k && Deduped(loc, hits)
  {
    var merged := Merge(RankedLists(loc, answers, k), k);
    DedupeTakes(loc, merged, k);
    DedupeIsDeduped(loc, merged, k);
  }
}
