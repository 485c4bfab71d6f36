/** Fusion returns three times the results asked for, to survive the final deduplication.
    When is that enough? */
module Overfetch {
  import opened Fusion
  import opened Dedupe

  /** The results without any cut. */
  function SearchUncut(loc: Locator, lists: seq<seq<Hit>>, k: nat): seq<Hit> { DedupeHits(loc, Ranking(lists), k) }

  /** A hit with the number of the list it was taken from. */
  datatype Tagged = Tagged(hit: Hit, tag: nat)

  function Untag(s: seq<Tagged>): (r: seq<Hit>)
    ensures |r| == |s|
  {
    if s == [] then [] else [s[0].hit] + Untag(s[1..])
  }

  /** Canonical hits; those from one list never collide; lists are numbered below n. */
  ghost predicate FromDeduped(loc: Locator, s: seq<Tagged>, n: nat) {
    && (forall q :: q in s ==> Canon(loc, q.hit) == q.hit && q.tag < n)
    && (forall i, j :: 0 <= i < j < |s| && s[i].tag == s[j].tag ==> !Collides(s[i].hit, s[j].hit))
  }

  function Free(h: Hit, s: seq<Tagged>): seq<Tagged> {
    if s == [] then [] else if Collides(h, s[0].hit) then Free(h, s[1..]) else [s[0]] + Free(h, s[1..])
  }

  /** A collision by list and kind: by uri, or else by text. */
  function TokenOf(h: Hit, q: Tagged): (nat, bool) { (q.tag, h.uri == q.hit.uri) }

  function Tokens(h: Hit, s: seq<Tagged>): set<(nat, bool)> {
    set q | q in s && Collides(h, q.hit) :: TokenOf(h, q)
  }

  lemma {:induction false} FreeKeeps(loc: Locator, h: Hit, s: seq<Tagged>, n: nat)
    requires FromDeduped(loc, s, n)
    ensures FromDeduped(loc, Free(h, s), n)
    ensures forall q :: q in Free(h, s) <==> q in s && !Collides(h, q.hit)
  {
    if s != [] {
      FreeKeeps(loc, h, s[1..], n);
      var rest := Free(h, s[1..]);
      forall j | 0 <= j < |rest| && s[0].tag == rest[j].tag ensures !Collides(s[0].hit, rest[j].hit) {
        assert rest[j] in s[1..];
      }
    }
  }

  /** Collisions with one hit have different tokens. */
  lemma {:induction false} CountCollisions(loc: Locator, h: Hit, s: seq<Tagged>, n: nat)
    requires FromDeduped(loc, s, n)
    ensures |s| == |Free(h, s)| + |Tokens(h, s)|
  {
    if s == [] {
      assert Tokens(h, s) == {};
    } else {
      CountCollisions(loc, h, s[1..], n);
      TokensStep(h, s);
      if Collides(h, s[0].hit) {
        TokenIsNew(loc, h, s, n);
      }
    }
  }

  lemma {:induction false} TokensStep(h: Hit, s: seq<Tagged>)
    requires s != []
    ensures Tokens(h, s) == Tokens(h, s[1..]) + if Collides(h, s[0].hit) then {TokenOf(h, s[0])} else {}
  {
    assert s == [s[0]] + s[1..];
  }

  lemma {:induction false} TokenIsNew(loc: Locator, h: Hit, s: seq<Tagged>, n: nat)
    requires FromDeduped(loc, s, n) && s != [] && Collides(h, s[0].hit)
    ensures TokenOf(h, s[0]) !in Tokens(h, s[1..])
  {
    forall q | q in s[1..] && Collides(h, q.hit) ensures TokenOf(h, q) != TokenOf(h, s[0]) {
      var j :| 0 <= j < |s[1..]| && s[1..][j] == q;
      assert s[j + 1] == q;
    }
  }

  /** Two kinds of collision in each list other than the hit's own. */
  lemma {:induction false} TokenBound(t: set<(nat, bool)>, n: nat, own: nat)
    requires own < n && forall x :: x in t ==> x.0 < n && x.0 != own
    ensures |t| <= 2 * (n - 1)
  {
    if own == n - 1 {
      TokenBoundBelow(t, n - 1);
    } else {
      var rest := t - {(n - 1, true), (n - 1, false)};
      forall x | x in rest ensures x.0 < n - 1 {
        assert x == if x.1 then (x.0, true) else (x.0, false);
      }
      TokenBound(rest, n - 1, own);
    }
  }

  lemma {:induction false} TokenBoundBelow(t: set<(nat, bool)>, n: nat)
    requires forall x :: x in t ==> x.0 < n
    ensures |t| <= 2 * n
  {
    if n == 0 {
      assert t == {};
    } else {
      var rest := t - {(n - 1, true), (n - 1, false)};
      forall x | x in rest ensures x.0 < n - 1 {
        assert x == if x.1 then (x.0, true) else (x.0, false);
      }
      TokenBoundBelow(rest, n - 1);
    }
  }

  /** Skipping what collides with a kept hit is the same as deduplicating the rest without it. */
  lemma {:induction false} KeptWithoutCollisions(loc: Locator, h: Hit, s: seq<Tagged>, n: nat, uris: set<string>,
                                                 texts: set<string>)
    requires FromDeduped(loc, s, n)
    ensures Kept(loc, Untag(s), uris + {h.uri}, texts + {h.text}) == Kept(loc, Untag(Free(h, s)), uris, texts)
  {
    if s != [] {
      var x := s[0].hit;
      assert s[0] in s && Canon(loc, x) == x;
      assert Untag(s)[1..] == Untag(s[1..]);
      if Collides(h, x) {
        KeptWithoutCollisions(loc, h, s[1..], n, uris, texts);
      } else {
        assert Untag(Free(h, s)) == [x] + Untag(Free(h, s[1..])) by {
          assert Free(h, s)[1..] == Free(h, s[1..]);
        }
        if x.uri in uris || x.text in texts {
          KeptWithoutCollisions(loc, h, s[1..], n, uris, texts);
        } else {
          KeptWithoutCollisions(loc, h, s[1..], n, uris + {x.uri}, texts + {x.text});
          assert uris + {h.uri} + {x.uri} == uris + {x.uri} + {h.uri};
          assert texts + {h.text} + {x.text} == texts + {x.text} + {h.text};
        }
      }
    }
  }

  /** Each kept hit stands for itself and at most two hits of every other list. */
  lemma {:induction false} KeptCovers(loc: Locator, s: seq<Tagged>, n: nat)
    requires FromDeduped(loc, s, n) && n > 0
    ensures |s| <= (2 * n - 1) * |Kept(loc, Untag(s), {}, {})|
    decreases |s|
  {
    if s != [] {
      var h, rest := s[0].hit, s[1..];
      HeadTokens(loc, s, n);
      CountCollisions(loc, h, rest, n);
      FreeKeeps(loc, h, rest, n);
      KeptCovers(loc, Free(h, rest), n);
      KeptHead(loc, s, n);
      Distribute(2 * n - 1, |Kept(loc, Untag(Free(h, rest)), {}, {})|);
    }
  }

  lemma {:induction false} HeadTokens(loc: Locator, s: seq<Tagged>, n: nat)
    requires FromDeduped(loc, s, n) && s != []
    ensures FromDeduped(loc, s[1..], n) && n > 0
    ensures |Tokens(s[0].hit, s[1..])| <= 2 * (n - 1)
  {
    var h, rest := s[0].hit, s[1..];
    assert s[0] in s;
    assert forall q :: q in rest ==> q in s;
    forall x | x in Tokens(h, rest) ensures x.0 < n && x.0 != s[0].tag {
      var q :| q in rest && Collides(h, q.hit) && x == (q.tag, h.uri == q.hit.uri);
      var j :| 0 <= j < |rest| && rest[j] == q;
      assert s[j + 1] == q;
    }
    TokenBound(Tokens(h, rest), n, s[0].tag);
  }

  lemma {:induction false} KeptHead(loc: Locator, s: seq<Tagged>, n: nat)
    requires FromDeduped(loc, s, n) && s != [] && FromDeduped(loc, s[1..], n)
    ensures |Kept(loc, Untag(s), {}, {})| == 1 + |Kept(loc, Untag(Free(s[0].hit, s[1..])), {}, {})|
  {
    var h, rest := s[0].hit, s[1..];
    assert s[0] in s && Canon(loc, h) == h;
    assert Untag(s)[1..] == Untag(rest);
    KeptWithoutCollisions(loc, h, rest, n, {}, {});
  }

  lemma {:induction false} Distribute(c: int, m: int)
    ensures c * (1 + m) == c + c * m
  {
  }

  // ---------------------------------------------------------------- the ranking, tagged

  lemma {:induction false} FlatSource(lists: seq<seq<Hit>>, h: Hit) returns (i: nat)
    requires h in Flat(lists)
    ensures i < |lists| && h in lists[i]
  {
    var front, last := lists[..|lists| - 1], lists[|lists| - 1];
    if h in last {
      i := |lists| - 1;
    } else {
      assert h in Flat(front);
      i := FlatSource(front, h);
      assert front[i] == lists[i];
    }
  }

  lemma {:induction false} RankedFrom(lists: seq<seq<Hit>>, p: nat) returns (g: Hit)
    requires p < |Ranking(lists)|
    ensures g in Flat(lists) && p < |SortedKeys(lists)| && HitKey(g) == SortedKeys(lists)[p]
    ensures Ranking(lists)[p] == g.(score := Score(lists, HitKey(g)))
  {
    RankingIs(lists);
    g := FirstHit(Flat(lists), SortedKeys(lists)[p]);
    FirstHitIs(Flat(lists), SortedKeys(lists)[p]);
  }

  ghost predicate AllDeduped(loc: Locator, lists: seq<seq<Hit>>) {
    forall l :: l in lists ==> Deduped(loc, l)
  }

  /** The fused hit at a position and a list that holds it, score aside. */
  ghost predicate TakenFrom(lists: seq<seq<Hit>>, q: Tagged) {
    q.tag < |lists| && exists g :: g in lists[q.tag] && q.hit == g.(score := q.hit.score)
  }

  lemma {:induction false} TagOne(lists: seq<seq<Hit>>, p: nat) returns (q: Tagged)
    requires p < |Ranking(lists)|
    ensures TakenFrom(lists, q) && q.hit == Ranking(lists)[p]
  {
    var g := RankedFrom(lists, p);
    var i := FlatSource(lists, g);
    q := Tagged(Ranking(lists)[p], i);
  }

  lemma {:induction false} TagRanking(lists: seq<seq<Hit>>, n: nat) returns (s: seq<Tagged>)
    requires n <= |Ranking(lists)|
    ensures |s| == n && Untag(s) == Ranking(lists)[..n]
    ensures forall i :: 0 <= i < |s| ==> TakenFrom(lists, s[i])
  {
    if n == 0 {
      s := [];
    } else {
      var front := TagRanking(lists, n - 1);
      var q := TagOne(lists, n - 1);
      UntagAppend(front, q);
      s := front + [q];
    }
  }

  lemma {:induction false} UntagAppend(s: seq<Tagged>, q: Tagged)
    ensures Untag(s + [q]) == Untag(s) + [q.hit]
  {
    if s != [] {
      UntagAppend(s[1..], q);
      assert (s + [q])[1..] == s[1..] + [q];
    }
  }

  lemma {:induction false} UntagAt(s: seq<Tagged>, i: nat)
    requires i < |s|
    ensures Untag(s)[i] == s[i].hit
  {
    if i > 0 {
      UntagAt(s[1..], i - 1);
    }
  }

  lemma {:induction false} SameListNoCollision(loc: Locator, lists: seq<seq<Hit>>, p: Tagged, q: Tagged)
    requires AllDeduped(loc, lists) && TakenFrom(lists, p) && TakenFrom(lists, q) && p.tag == q.tag
    requires HitKey(p.hit) != HitKey(q.hit)
    ensures !Collides(p.hit, q.hit)
  {
    var l := lists[p.tag];
    assert Deduped(loc, l);
    var g :| g in l && p.hit == g.(score := p.hit.score);
    var h :| h in l && q.hit == h.(score := q.hit.score);
    var i :| 0 <= i < |l| && l[i] == g;
    var j :| 0 <= j < |l| && l[j] == h;
    assert HitKey(g) == HitKey(p.hit) && HitKey(h) == HitKey(q.hit);
    assert i != j;
    assert Collides(p.hit, q.hit) <==> Collides(g, h);
    assert Collides(g, h) <==> Collides(h, g);
  }

  lemma {:induction false} TaggedFromDeduped(loc: Locator, lists: seq<seq<Hit>>, s: seq<Tagged>)
    requires AllDeduped(loc, lists) && |s| <= |Ranking(lists)| && Untag(s) == Ranking(lists)[..|s|]
    requires forall i :: 0 <= i < |s| ==> TakenFrom(lists, s[i])
    ensures FromDeduped(loc, s, |lists|)
  {
    forall q | q in s ensures Canon(loc, q.hit) == q.hit && q.tag < |lists| {
      assert TakenFrom(lists, q);
      var g :| g in lists[q.tag] && q.hit == g.(score := q.hit.score);
      assert Deduped(loc, lists[q.tag]);
      assert Canon(loc, g) == g;
    }
    RankingIs(lists);
    SortedKeysDistinct(lists);
    forall i, j | 0 <= i < j < |s| && s[i].tag == s[j].tag ensures !Collides(s[i].hit, s[j].hit) {
      UntagAt(s, i);
      UntagAt(s, j);
      assert SortedKeys(lists)[i] != SortedKeys(lists)[j];
      assert s[i] in s && s[j] in s;
      SameListNoCollision(loc, lists, s[i], s[j]);
    }
  }

  // ---------------------------------------------------------------- enough

  lemma {:induction false} Grows(c: nat, m: nat, n: nat)
    requires m <= n
    ensures c * m <= c * n
  {
  }

  lemma {:induction false} EnoughKept(loc: Locator, lists: seq<seq<Hit>>, k: nat)
    requires AllDeduped(loc, lists) && k >= 1 && |Ranking(lists)| >= 3 * k
    requires |lists| > 0 ==> (2 * |lists| - 1) * (k - 1) < 3 * k
    ensures |Kept(loc, Ranking(lists)[..3 * k], {}, {})| >= k
  {
    var s := TagRanking(lists, 3 * k);
    TaggedFromDeduped(loc, lists, s);
    RankingNeedsLists(lists);
    KeptCovers(loc, s, |lists|);
    Enough(2 * |lists| - 1, |Kept(loc, Untag(s), {}, {})|, k);
  }

  lemma {:induction false} Enough(c: nat, m: nat, k: nat)
    requires k >= 1 && 3 * k <= c * m && c * (k - 1) < 3 * k
    ensures m >= k
  {
    if m < k {
      Grows(c, m, k - 1);
    }
  }

  lemma {:induction false} EnoughMeansLossless(loc: Locator, all: seq<Hit>, cut: nat, k: nat)
    requires k >= 1 && (|all| <= cut || |Kept(loc, Take(all, cut), {}, {})| >= k)
    ensures DedupeHits(loc, Take(all, cut), k) == DedupeHits(loc, all, k)
  {
    var p, a := Kept(loc, Take(all, cut), {}, {}), Kept(loc, all, {}, {});
    KeptOfPrefix(loc, all, cut);
    DedupeTakes(loc, Take(all, cut), k);
    DedupeTakes(loc, all, k);
    if |all| > cut {
      assert p == a[..|p|];
      assert p[..k] == a[..k];
    } else {
      assert Take(all, cut) == all;
    }
  }

  /** Cutting at 3k loses no result when n deduplicated lists satisfy (2n - 1)(k - 1) < 3k. */
  lemma {:induction false} CutIsLossless(loc: Locator, lists: seq<seq<Hit>>, k: nat)
    requires AllDeduped(loc, lists) && k >= 1
    requires |lists| > 0 ==> (2 * |lists| - 1) * (k - 1) < 3 * k
    ensures Search(loc, lists, k) == SearchUncut(loc, lists, k)
  {
    if |Ranking(lists)| > 3 * k {
      EnoughKept(loc, lists, k);
    }
    EnoughMeansLossless(loc, Ranking(lists), 3 * k, k);
  }

  lemma {:induction false} RankingNeedsLists(lists: seq<seq<Hit>>)
    ensures Ranking(lists) != [] ==> lists != []
  {
    RankingIs(lists);
    if Ranking(lists) != [] {
      assert HasKey(Flat(lists), SortedKeys(lists)[0]);
    }
  }
}
