/** Two lists that fuse differently once the second is one hit longer: a document overtakes
    another that was already among the results. */
module Overtaking {
  import opened Fusion
  import opened Dedupe
  import opened Overfetch
  import opened RankOrder
  import opened Pages

  function UriList(hits: seq<Hit>): seq<string> { seq(|hits|, i requires 0 <= i < |hits| => hits[i].uri) }

  function Doc(name: nat, chunk: nat): Hit { Page(Opener(name), chunk, Opener(name)) }

  function Docs(n: nat): seq<Hit> { seq(n, j requires 0 <= j < n => Doc(j, 0)) }

  lemma {:induction false} DocsCompare(i: nat, c: nat, j: nat, d: nat)
    ensures Collides(Doc(i, c), Doc(j, d)) <==> i == j
    ensures Doc(i, c).uri == Doc(j, d).uri <==> i == j
    ensures HitKey(Doc(i, c)) == HitKey(Doc(j, d)) <==> i == j && c == d
  {
    PagesCompare(Opener(i), c, Opener(i), Opener(j), d, Opener(j));
    OpenersDiffer(i, j);
    NamesDiffer(Opener(i), Opener(j));
  }

  lemma {:induction false} DocCanonical(loc: Locator, j: nat, c: nat)
    ensures Canon(loc, Doc(j, c)) == Doc(j, c)
  {
    PageCanonical(loc, Opener(j), c, Opener(j));
  }

  /** Document k stands behind the first k in one list, and beyond place 3k in the other, which
      opens with other chunks of the first k. */
  function Front(k: nat): seq<Hit> { Docs(k + 1) }

  function BackName(k: nat, r: nat): nat { if r < k then r else if r < 3 * k then r + 1 else k }

  function BackDoc(k: nat, r: nat): Hit { Doc(BackName(k, r), if r < 3 * k then 1 else 0) }

  function Back(k: nat, n: nat): seq<Hit>
    requires n <= 3 * k + 1
  {
    seq(n, r requires 0 <= r < n => BackDoc(k, r))
  }

  lemma {:induction false} FrontDeduped(loc: Locator, k: nat)
    ensures Deduped(loc, Front(k)) && DistinctKeys(Front(k))
  {
    forall j | 0 <= j <= k ensures Canon(loc, Front(k)[j]) == Front(k)[j] {
      DocCanonical(loc, j, 0);
    }
    forall i, j | 0 <= i < j <= k
      ensures !Collides(Front(k)[i], Front(k)[j]) && HitKey(Front(k)[i]) != HitKey(Front(k)[j])
    {
      DocsCompare(i, 0, j, 0);
    }
  }

  lemma {:induction false} BackDeduped(loc: Locator, k: nat, n: nat)
    requires n <= 3 * k + 1
    ensures Deduped(loc, Back(k, n)) && DistinctKeys(Back(k, n))
  {
    var l := Back(k, n);
    forall r | 0 <= r < n ensures Canon(loc, l[r]) == l[r] {
      DocCanonical(loc, BackName(k, r), if r < 3 * k then 1 else 0);
    }
    forall r, q | 0 <= r < q < n ensures !Collides(l[r], l[q]) && HitKey(l[r]) != HitKey(l[q]) {
      DocsCompare(BackName(k, r), 1, BackName(k, q), if q < 3 * k then 1 else 0);
    }
  }

  /** The two lists in either order. */
  ghost predicate Pair(lists: seq<seq<Hit>>, k: nat, n: nat) {
    n <= 3 * k + 1 && (lists == [Front(k), Back(k, n)] || lists == [Back(k, n), Front(k)])
  }

  lemma {:induction false} ScoreOfTwo(x: seq<Hit>, y: seq<Hit>, key: string)
    ensures Score([x, y], key) == ListScore(x, key) + ListScore(y, key)
  {
    assert [x, y][..1] == [x] && [x][..0] == [];
    assert Score([x], key) == ListScore(x, key);
  }

  lemma {:induction false} PairScore(lists: seq<seq<Hit>>, k: nat, n: nat, key: string)
    requires Pair(lists, k, n)
    ensures Score(lists, key) == ListScore(Front(k), key) + ListScore(Back(k, n), key)
  {
    ScoreOfTwo(Front(k), Back(k, n), key);
    ScoreOfTwo(Back(k, n), Front(k), key);
  }

  lemma {:induction false} NotInFront(k: nat, r: nat)
    requires r < 3 * k
    ensures !HasKey(Front(k), HitKey(BackDoc(k, r)))
  {
    forall j | 0 <= j <= k ensures HitKey(Front(k)[j]) != HitKey(BackDoc(k, r)) {
      DocsCompare(j, 0, BackName(k, r), 1);
    }
  }

  lemma {:induction false} NotInBack(k: nat, n: nat, j: nat)
    requires n <= 3 * k + 1 && (j < k || n <= 3 * k)
    ensures !HasKey(Back(k, n), HitKey(Doc(j, 0)))
  {
    forall r | 0 <= r < n ensures HitKey(Back(k, n)[r]) != HitKey(Doc(j, 0)) {
      DocsCompare(BackName(k, r), if r < 3 * k then 1 else 0, j, 0);
    }
  }

  /** Only document k is scored by both lists, and only when the second is long enough. */
  lemma {:induction false} FrontScore(loc: Locator, lists: seq<seq<Hit>>, k: nat, n: nat, j: nat)
    requires Pair(lists, k, n) && j <= k
    ensures Score(lists, HitKey(Doc(j, 0))) == Share(j) + if j == k && n > 3 * k then Share(3 * k) else 0.0
  {
    var key := HitKey(Doc(j, 0));
    PairScore(lists, k, n, key);
    FrontDeduped(loc, k);
    ListScoreAt(Front(k), j);
    if j == k && n > 3 * k {
      BackDeduped(loc, k, n);
      ListScoreAt(Back(k, n), 3 * k);
    } else {
      NotInBack(k, n, j);
      ListScoreAbsent(Back(k, n), key);
    }
  }

  lemma {:induction false} BackScore(loc: Locator, lists: seq<seq<Hit>>, k: nat, n: nat, r: nat)
    requires Pair(lists, k, n) && r < n && r < 3 * k
    ensures Score(lists, HitKey(BackDoc(k, r))) == Share(r)
  {
    PairScore(lists, k, n, HitKey(BackDoc(k, r)));
    BackDeduped(loc, k, n);
    ListScoreAt(Back(k, n), r);
    NotInFront(k, r);
    ListScoreAbsent(Front(k), HitKey(BackDoc(k, r)));
  }

  /** Where a ranked hit comes from. */
  datatype Origin = InFront(j: nat) | InBack(r: nat)

  predicate IsOrigin(o: Origin, k: nat, n: nat) { if o.InFront? then o.j <= k else o.r < n && o.r < 3 * k }

  function OriginDoc(o: Origin, k: nat): Hit { if o.InFront? then Doc(o.j, 0) else BackDoc(k, o.r) }

  function OriginName(o: Origin, k: nat): nat { if o.InFront? then o.j else BackName(k, o.r) }

  function OriginRank(o: Origin): nat { if o.InFront? then o.j else o.r }

  lemma {:induction false} OriginScore(loc: Locator, lists: seq<seq<Hit>>, k: nat, n: nat, o: Origin)
    requires Pair(lists, k, n) && IsOrigin(o, k, n)
    ensures Score(lists, HitKey(OriginDoc(o, k)))
      == Share(OriginRank(o)) + if o == InFront(k) && n > 3 * k then Share(3 * k) else 0.0
  {
    if o.InFront? {
      FrontScore(loc, lists, k, n, o.j);
    } else {
      BackScore(loc, lists, k, n, o.r);
    }
  }

  lemma {:induction false} RankedOrigin(loc: Locator, lists: seq<seq<Hit>>, k: nat, n: nat, p: nat)
    returns (o: Origin)
    requires Pair(lists, k, n) && p < |Ranking(lists)|
    ensures IsOrigin(o, k, n) && p < |SortedKeys(lists)| && SortedKeys(lists)[p] == HitKey(OriginDoc(o, k))
    ensures Ranking(lists)[p].uri == OriginDoc(o, k).uri && Ranking(lists)[p].text == OriginDoc(o, k).text
    ensures Canon(loc, Ranking(lists)[p]) == Ranking(lists)[p]
  {
    var g := RankedFrom(lists, p);
    var i := FlatSource(lists, g);
    var r :| 0 <= r < |lists[i]| && lists[i][r] == g;
    if lists[i] == Front(k) {
      o := InFront(r);
    } else {
      o := if r < 3 * k then InBack(r) else InFront(k);
    }
    assert g == OriginDoc(o, k);
    DocCanonical(loc, OriginName(o, k), g.chunkIndex);
  }

  lemma {:induction false} FrontPosition(lists: seq<seq<Hit>>, k: nat, n: nat, j: nat) returns (p: nat)
    requires Pair(lists, k, n) && j <= k
    ensures p < |Ranking(lists)| == |SortedKeys(lists)| && SortedKeys(lists)[p] == HitKey(Doc(j, 0))
  {
    var i := if lists[0] == Front(k) then 0 else 1;
    KeyInFlat(lists, i, j);
    SortedKeysPresent(lists);
    RankingIs(lists);
    assert HitKey(Doc(j, 0)) in SortedKeys(lists);
    p :| 0 <= p < |SortedKeys(lists)| && SortedKeys(lists)[p] == HitKey(Doc(j, 0));
  }

  // ---------------------------------------------------------------- k results

  predicate IsEarly(uri: string, k: nat) { exists j :: 0 <= j < k && uri == Doc(j, 0).uri }

  /** Document k - 1 is ranked at place last, with the second list cut. */
  ghost predicate IsLast(lists: seq<seq<Hit>>, k: nat, last: nat) {
    && k >= 1 && Pair(lists, k, 3 * k) && last < |Ranking(lists)| == |SortedKeys(lists)|
    && SortedKeys(lists)[last] == HitKey(Doc(k - 1, 0))
  }

  lemma {:induction false} RankOfShare(r: nat, q: nat)
    requires Share(r) >= Share(q)
    ensures r <= q
  {
    if q < r {
      ShareDecreases(q, r);
    }
  }

  lemma {:induction false} EarlyRank(loc: Locator, lists: seq<seq<Hit>>, k: nat, o: Origin)
    requires k >= 1 && Pair(lists, k, 3 * k) && IsOrigin(o, k, 3 * k)
    requires Score(lists, HitKey(OriginDoc(o, k))) >= Score(lists, HitKey(Doc(k - 1, 0)))
    ensures OriginRank(o) < k
  {
    OriginScore(loc, lists, k, 3 * k, o);
    FrontScore(loc, lists, k, 3 * k, k - 1);
    RankOfShare(OriginRank(o), k - 1);
  }

  /** Only the first k documents stand before it. */
  lemma {:induction false} EarlyName(loc: Locator, lists: seq<seq<Hit>>, k: nat, last: nat, p: nat) returns (r: nat)
    requires IsLast(lists, k, last) && p <= last
    ensures r < k && Ranking(lists)[p].uri == Doc(r, 0).uri && Canon(loc, Ranking(lists)[p]) == Ranking(lists)[p]
  {
    var o := RankedOrigin(loc, lists, k, 3 * k, p);
    r := OriginRank(o);
    EarlierScoresMore(lists, p, last);
    EarlyRank(loc, lists, k, o);
  }

  lemma {:induction false} FewUris(hits: seq<Hit>, uris: set<string>)
    requires forall i, j :: 0 <= i < j < |hits| ==> hits[i].uri != hits[j].uri
    requires forall h :: h in hits ==> h.uri in uris
    ensures |hits| <= |uris|
  {
    if hits != [] {
      FewUris(hits[..|hits| - 1], uris - {hits[|hits| - 1].uri});
    }
  }

  lemma {:induction false} FewDocs(k: nat)
    ensures |set j | 0 <= j < k :: Doc(j, 0).uri| <= k
  {
    if k > 0 {
      FewDocs(k - 1);
      assert (set j | 0 <= j < k :: Doc(j, 0).uri) == (set j | 0 <= j < k - 1 :: Doc(j, 0).uri) + {Doc(k - 1, 0).uri};
    }
  }

  lemma {:induction false} FewEarly(loc: Locator, hits: seq<Hit>, k: nat)
    requires Deduped(loc, hits) && forall h :: h in hits ==> IsEarly(h.uri, k)
    ensures |hits| <= k
  {
    FewDocs(k);
    FewUris(hits, set j | 0 <= j < k :: Doc(j, 0).uri);
  }

  lemma {:induction false} EarlyKept(loc: Locator, lists: seq<seq<Hit>>, k: nat, last: nat, h: Hit)
    requires IsLast(lists, k, last) && h in Kept(loc, Ranking(lists)[..last + 1], {}, {})
    ensures IsEarly(h.uri, k)
  {
    var part := Ranking(lists)[..last + 1];
    var q :| 0 <= q < |Kept(loc, part, {}, {})| && Kept(loc, part, {}, {})[q] == h;
    var p := ResultIsHit(loc, part, q);
    var r := EarlyName(loc, lists, k, last, p);
  }

  /** The results up to the one for document k - 1: at most k, all for the first k documents. */
  lemma {:induction false} EarlyResults(loc: Locator, lists: seq<seq<Hit>>, k: nat)
    returns (kept: seq<Hit>, i: nat)
    requires k >= 1 && Pair(lists, k, 3 * k)
    ensures kept <= Kept(loc, Ranking(lists), {}, {}) && i < |kept| <= k
    ensures (forall h :: h in kept ==> IsEarly(h.uri, k)) && kept[i].uri == Doc(k - 1, 0).uri
  {
    var last := FrontPosition(lists, k, 3 * k, k - 1);
    var part := Ranking(lists)[..last + 1];
    kept := Kept(loc, part, {}, {});
    KeptOfPrefix(loc, Ranking(lists), last + 1);
    forall h | h in kept ensures IsEarly(h.uri, k) {
      EarlyKept(loc, lists, k, last, h);
    }
    KeptIsDeduped(loc, part, {}, {});
    FewEarly(loc, kept, k);
    i := DocumentIsKept(loc, lists, k, last);
  }

  lemma {:induction false} DocumentIsKept(loc: Locator, lists: seq<seq<Hit>>, k: nat, last: nat) returns (i: nat)
    requires IsLast(lists, k, last)
    ensures var kept := Kept(loc, Ranking(lists)[..last + 1], {}, {});
            i < |kept| && kept[i].uri == Doc(k - 1, 0).uri
  {
    var part, h := Ranking(lists)[..last + 1], 0;
    i, h := HitIsRepresented(loc, part, last);
    var o := RankedOrigin(loc, lists, k, 3 * k, last);
    var g := RankedOrigin(loc, lists, k, 3 * k, h);
    KeyNamesDoc(o, k, k - 1);
    DocsCompare(OriginName(g, k), 0, k - 1, 0);
  }

  lemma {:induction false} KeyNamesDoc(o: Origin, k: nat, j: nat)
    requires HitKey(OriginDoc(o, k)) == HitKey(Doc(j, 0))
    ensures OriginDoc(o, k) == Doc(j, 0)
  {
    DocsCompare(OriginName(o, k), OriginDoc(o, k).chunkIndex, j, 0);
  }

  // ---------------------------------------------------------------- more results

  /** With the whole second list, document k scores more than documents k - 1. */
  lemma {:induction false} TwoSharesBeatOne(k: nat)
    requires k >= 1
    ensures Share(k) + Share(3 * k) > Share(k - 1)
  {
    var x, y, z := (k + 59) as real, (k + 60) as real, (3 * k + 60) as real;
    assert Share(k - 1) == 1.0 / x && Share(k) == 1.0 / y && Share(3 * k) == 1.0 / z;
    Apart(x, y, z);
  }

  lemma {:induction false} Apart(x: real, y: real, z: real)
    requires x > 0.0 && y == x + 1.0 && z > 0.0 && x * y > z
    ensures 1.0 / y + 1.0 / z > 1.0 / x
  {
    var a, b, c := 1.0 / x, 1.0 / y, 1.0 / z;
    assert a - b == a * b;
    assert a * b * (x * y) == 1.0;
  }

  /** Document k is ranked at place both, with the whole second list. */
  ghost predicate IsBoth(lists: seq<seq<Hit>>, k: nat, both: nat) {
    && k >= 1 && Pair(lists, k, 3 * k + 1) && both < |Ranking(lists)| == |SortedKeys(lists)|
    && SortedKeys(lists)[both] == HitKey(Doc(k, 0))
  }

  lemma {:induction false} SortedOnce(lists: seq<seq<Hit>>, p: nat, q: nat)
    requires p < q < |SortedKeys(lists)|
    ensures SortedKeys(lists)[p] != SortedKeys(lists)[q]
  {
    SortedKeysDistinct(lists);
  }

  lemma {:induction false} OriginBeforeBoth(loc: Locator, lists: seq<seq<Hit>>, k: nat, both: nat, p: nat)
    returns (o: Origin)
    requires IsBoth(lists, k, both) && p < both
    ensures IsOrigin(o, k, 3 * k + 1) && o != InFront(k)
    ensures Ranking(lists)[p].uri == OriginDoc(o, k).uri && Ranking(lists)[p].text == OriginDoc(o, k).text
    ensures Canon(loc, Ranking(lists)[p]) == Ranking(lists)[p]
    ensures Score(lists, HitKey(OriginDoc(o, k))) >= Score(lists, HitKey(Doc(k, 0)))
  {
    o := RankedOrigin(loc, lists, k, 3 * k + 1, p);
    EarlierScoresMore(lists, p, both);
    SortedOnce(lists, p, both);
  }

  lemma {:induction false} BothRank(loc: Locator, lists: seq<seq<Hit>>, k: nat, o: Origin)
    requires k >= 1 && Pair(lists, k, 3 * k + 1) && IsOrigin(o, k, 3 * k + 1) && o != InFront(k)
    requires Score(lists, HitKey(OriginDoc(o, k))) >= Score(lists, HitKey(Doc(k, 0)))
    ensures OriginRank(o) + 1 < k
  {
    OriginScore(loc, lists, k, 3 * k + 1, o);
    FrontScore(loc, lists, k, 3 * k + 1, k);
    TwoSharesBeatOne(k);
    RankOfShare(OriginRank(o), k - 1);
  }

  /** Only the first k - 1 documents stand before it. */
  lemma {:induction false} NameBeforeBoth(loc: Locator, lists: seq<seq<Hit>>, k: nat, both: nat, p: nat)
    returns (r: nat)
    requires IsBoth(lists, k, both) && p < both
    ensures r + 1 < k && Ranking(lists)[p].uri == Doc(r, 0).uri && Ranking(lists)[p].text == Doc(r, 0).text
    ensures Canon(loc, Ranking(lists)[p]) == Ranking(lists)[p]
  {
    var o := OriginBeforeBoth(loc, lists, k, both, p);
    r := OriginRank(o);
    BothRank(loc, lists, k, o);
  }

  lemma {:induction false} NoneBeforeBoth(loc: Locator, lists: seq<seq<Hit>>, k: nat, both: nat, h: Hit)
    requires IsBoth(lists, k, both) && h in Kept(loc, Ranking(lists)[..both], {}, {})
    ensures h.uri != Doc(k - 1, 0).uri && !Collides(h, Doc(k, 0))
  {
    var part := Ranking(lists)[..both];
    var q :| 0 <= q < |Kept(loc, part, {}, {})| && Kept(loc, part, {}, {})[q] == h;
    var p := ResultIsHit(loc, part, q);
    var r := NameBeforeBoth(loc, lists, k, both, p);
    DocsCompare(r, 0, k - 1, 0);
    DocsCompare(r, 0, k, 0);
  }

  lemma {:induction false} BothIsDocument(loc: Locator, lists: seq<seq<Hit>>, k: nat, both: nat)
    requires IsBoth(lists, k, both)
    ensures var h := Ranking(lists)[both];
            h.uri == Doc(k, 0).uri && h.text == Doc(k, 0).text && Canon(loc, h) == h
  {
    var o := RankedOrigin(loc, lists, k, 3 * k + 1, both);
    KeyNamesDoc(o, k, k);
  }

  lemma {:induction false} BothIsKept(loc: Locator, lists: seq<seq<Hit>>, k: nat, both: nat)
    requires IsBoth(lists, k, both)
    ensures Kept(loc, Ranking(lists)[..both], {}, {}) + [Ranking(lists)[both]] <= Kept(loc, Ranking(lists), {}, {})
    ensures Ranking(lists)[both].uri == Doc(k, 0).uri
  {
    BothIsDocument(loc, lists, k, both);
    forall h | h in Kept(loc, Ranking(lists)[..both], {}, {}) ensures !Collides(h, Ranking(lists)[both]) {
      NoneBeforeBoth(loc, lists, k, both, h);
    }
    NextIsKept(loc, Ranking(lists), both);
  }

  /** Then document k is a result, and none before it is for document k - 1. */
  lemma {:induction false} LateResults(loc: Locator, lists: seq<seq<Hit>>, k: nat)
    returns (before: seq<Hit>, last: Hit)
    requires k >= 1 && Pair(lists, k, 3 * k + 1)
    ensures before + [last] <= Kept(loc, Ranking(lists), {}, {}) && last.uri == Doc(k, 0).uri
    ensures forall h :: h in before ==> h.uri != Doc(k - 1, 0).uri
  {
    var both := FrontPosition(lists, k, 3 * k + 1, k);
    before, last := Kept(loc, Ranking(lists)[..both], {}, {}), Ranking(lists)[both];
    BothIsKept(loc, lists, k, both);
    forall h | h in before ensures h.uri != Doc(k - 1, 0).uri {
      NoneBeforeBoth(loc, lists, k, both, h);
    }
  }

  // ---------------------------------------------------------------- the overtaking

  lemma {:induction false} TwoListsUncut(loc: Locator, lists: seq<seq<Hit>>, k: nat, n: nat, more: nat)
    requires Pair(lists, k, n) && more >= 1
    ensures Search(loc, lists, more) == Take(Kept(loc, Ranking(lists), {}, {}), more)
  {
    FrontDeduped(loc, k);
    BackDeduped(loc, k, n);
    CutIsLossless(loc, lists, more);
    DedupeTakes(loc, Ranking(lists), more);
  }

  lemma {:induction false} FewSide(loc: Locator, lists: seq<seq<Hit>>, k: nat) returns (i: nat)
    requires k >= 1 && Pair(lists, k, 3 * k)
    ensures var uris := UriList(Search(loc, lists, k));
            i < |uris| && uris[i] == Doc(k - 1, 0).uri && forall q :: 0 <= q < i ==> uris[q] != Doc(k, 0).uri
  {
    TwoListsUncut(loc, lists, k, 3 * k, k);
    var early;
    early, i := EarlyResults(loc, lists, k);
    NotEarly(k);
    forall q | 0 <= q < i ensures early[q].uri != Doc(k, 0).uri {
      assert early[q] in early;
    }
    var all := Kept(loc, Ranking(lists), {}, {});
    assert forall q :: 0 <= q <= i ==> Take(all, k)[q] == early[q];
  }

  lemma {:induction false} ManySide(loc: Locator, lists: seq<seq<Hit>>, k: nat, more: nat) returns (j: nat)
    requires 1 <= k <= more && Pair(lists, k, 3 * k + 1)
    ensures var uris := UriList(Search(loc, lists, more));
            (j < |uris| ==> uris[j] == Doc(k, 0).uri)
            && forall q :: 0 <= q < |uris| && q < j ==> uris[q] != Doc(k - 1, 0).uri
  {
    TwoListsUncut(loc, lists, k, 3 * k + 1, more);
    var before, last := LateResults(loc, lists, k);
    j := |before|;
    var all, uris := Kept(loc, Ranking(lists), {}, {}), UriList(Search(loc, lists, more));
    forall q | 0 <= q < |uris| && q < j ensures uris[q] != Doc(k - 1, 0).uri {
      assert all[q] == (before + [last])[q] == before[q];
    }
    assert all[j] == (before + [last])[j];
  }

  lemma {:induction false} Overtakes(few: seq<string>, many: seq<string>, i: nat, j: nat, first: string, last: string)
    requires i < |few| && few[i] == first && forall q :: 0 <= q < i ==> few[q] != last
    requires first != last && (j < |many| ==> many[j] == last)
    requires forall q :: 0 <= q < |many| && q < j ==> many[q] != first
    ensures !(few <= many)
  {
    if i < |many| {
      var q := if i < j then i else j;
      assert few[q] != many[q];
    }
  }

  /** Document k overtakes document k - 1, which is among the k results. */
  lemma {:induction false} PairOvertakes(loc: Locator, few: seq<seq<Hit>>, many: seq<seq<Hit>>, k: nat, more: nat)
    requires 1 <= k <= more && Pair(few, k, 3 * k) && Pair(many, k, 3 * k + 1)
    ensures !(UriList(Search(loc, few, k)) <= UriList(Search(loc, many, more)))
  {
    var i := FewSide(loc, few, k);
    var j := ManySide(loc, many, k, more);
    DocsCompare(k - 1, 0, k, 0);
    Overtakes(UriList(Search(loc, few, k)), UriList(Search(loc, many, more)), i, j, Doc(k - 1, 0).uri, Doc(k, 0).uri);
  }

  lemma {:induction false} NotEarly(k: nat)
    ensures !IsEarly(Doc(k, 0).uri, k)
  {
    forall j | 0 <= j < k ensures Doc(k, 0).uri != Doc(j, 0).uri {
      DocsCompare(k, 0, j, 0);
    }
  }
}
