/** Deduplication of ranked hits by canonical uri and by text, first one wins, and what
    it gives together with rank fusion. */
module Dedupe {
  import opened Fusion

  /** What turns a path into a uri: the host's name and path normalisation. */
  datatype Locator = Locator(host: string, normalize: string -> string)

  predicate HasScheme(s: string) {
    |s| >= 3 && (s[..3] == "://" || HasScheme(s[1..]))
  }

  function Canonical(loc: Locator, raw: string): string {
    if HasScheme(raw) then raw else "file" + "://" + (loc.host + loc.normalize(raw))
  }

  lemma {:induction false} SchemeInside(a: string, b: string)
    ensures HasScheme(a + "://" + b)
  {
    var s := a + "://" + b;
    if a == [] {
      assert s[..3] == "://";
    } else {
      SchemeInside(a[1..], b);
      assert s[1..] == a[1..] + "://" + b;
    }
  }

  lemma {:induction false} CanonicalTwice(loc: Locator, raw: string)
    ensures Canonical(loc, Canonical(loc, raw)) == Canonical(loc, raw)
  {
    SchemeInside("file", loc.host + loc.normalize(raw));
  }

  function Canon(loc: Locator, h: Hit): Hit { h.(uri := Canonical(loc, h.uri)) }

  /** The loop with its limit: stop once k hits are kept. Text hashes are idealised as the texts. */
  function DedupeFrom(loc: Locator, hits: seq<Hit>, uris: set<string>, texts: set<string>, count: nat, k: int)
    : seq<Hit>
  {
    if hits == [] then []
    else
      var h := Canon(loc, hits[0]);
      if h.uri in uris || h.text in texts then DedupeFrom(loc, hits[1..], uris, texts, count, k)
      else [h] + if count + 1 >= k then []
                 else DedupeFrom(loc, hits[1..], uris + {h.uri}, texts + {h.text}, count + 1, k)
  }

  function DedupeHits(loc: Locator, hits: seq<Hit>, k: int): seq<Hit> { DedupeFrom(loc, hits, {}, {}, 0, k) }

  /** First wins, without a limit. */
  function Kept(loc: Locator, hits: seq<Hit>, uris: set<string>, texts: set<string>): seq<Hit> {
    if hits == [] then []
    else
      var h := Canon(loc, hits[0]);
      if h.uri in uris || h.text in texts then Kept(loc, hits[1..], uris, texts)
      else [h] + Kept(loc, hits[1..], uris + {h.uri}, texts + {h.text})
  }

  method ComputeDedupe(loc: Locator, hits: seq<Hit>, k: int) returns (deduped: seq<Hit>)
    ensures deduped == DedupeHits(loc, hits, k)
  {
    deduped := [];
    var seenUris: set<string>, seenTexts: set<string> := {}, {};
    ghost var goal := DedupeHits(loc, hits, k);
    var i := 0;
    while i < |hits|
      invariant 0 <= i <= |hits|
      invariant deduped + DedupeFrom(loc, hits[i..], seenUris, seenTexts, |deduped|, k) == goal
    {
      var hit := Canon(loc, hits[i]);
      i := i + 1;
      if hit.uri in seenUris || hit.text in seenTexts {
        continue;
      }
      deduped := deduped + [hit];
      seenUris := seenUris + {hit.uri};
      seenTexts := seenTexts + {hit.text};
      if |deduped| >= k {
        return;
      }
    }
  }

  // ---------------------------------------------------------------- the limit

  function Limit(k: int): nat { if k >= 1 then k else 1 }

  lemma {:induction false} DedupeFromTakes(loc: Locator, hits: seq<Hit>, uris: set<string>, texts: set<string>,
                                           count: nat, k: int)
    ensures DedupeFrom(loc, hits, uris, texts, count, k) == Take(Kept(loc, hits, uris, texts), Limit(k - count))
  {
    if hits != [] {
      var h := Canon(loc, hits[0]);
      if h.uri in uris || h.text in texts {
        DedupeFromTakes(loc, hits[1..], uris, texts, count, k);
      } else {
        DedupeFromTakes(loc, hits[1..], uris + {h.uri}, texts + {h.text}, count + 1, k);
      }
    }
  }

  /** The limit cuts the unlimited result; even a limit below one leaves one hit. */
  lemma {:induction false} DedupeTakes(loc: Locator, hits: seq<Hit>, k: int)
    ensures DedupeHits(loc, hits, k) == Take(Kept(loc, hits, {}, {}), Limit(k))
  {
    DedupeFromTakes(loc, hits, {}, {}, 0, k);
  }

  // ---------------------------------------------------------------- what is kept

  function Uris(hits: seq<Hit>): set<string> { set h | h in hits :: h.uri }

  function Texts(hits: seq<Hit>): set<string> { set h | h in hits :: h.text }

  predicate Collides(g: Hit, h: Hit) { g.uri == h.uri || g.text == h.text }

  /** Canonical uris, all different, and texts all different. */
  ghost predicate Deduped(loc: Locator, hits: seq<Hit>) {
    && (forall h :: h in hits ==> Canon(loc, h) == h)
    && (forall i, j :: 0 <= i < j < |hits| ==> !Collides(hits[i], hits[j]))
  }

  lemma {:induction false} KeptIsDeduped(loc: Locator, hits: seq<Hit>, uris: set<string>, texts: set<string>)
    ensures Deduped(loc, Kept(loc, hits, uris, texts))
    ensures forall h :: h in Kept(loc, hits, uris, texts) ==> h.uri !in uris && h.text !in texts
  {
    if hits != [] {
      var h := Canon(loc, hits[0]);
      CanonicalTwice(loc, hits[0].uri);
      if h.uri in uris || h.text in texts {
        KeptIsDeduped(loc, hits[1..], uris, texts);
      } else {
        var rest := Kept(loc, hits[1..], uris + {h.uri}, texts + {h.text});
        KeptIsDeduped(loc, hits[1..], uris + {h.uri}, texts + {h.text});
        forall j | 0 <= j < |rest| ensures !Collides(h, rest[j]) {
          assert rest[j] in rest;
        }
      }
    }
  }

  /** Results have canonical uris, all different, and texts all different. */
  lemma {:induction false} DedupeIsDeduped(loc: Locator, hits: seq<Hit>, k: int)
    ensures Deduped(loc, DedupeHits(loc, hits, k))
  {
    DedupeTakes(loc, hits, k);
    KeptIsDeduped(loc, hits, {}, {});
  }

  lemma {:induction false} KeptAppend(loc: Locator, a: seq<Hit>, b: seq<Hit>, uris: set<string>, texts: set<string>)
    ensures var kept := Kept(loc, a, uris, texts);
            Kept(loc, a + b, uris, texts) == kept + Kept(loc, b, uris + Uris(kept), texts + Texts(kept))
  {
    if a == [] {
      assert a + b == b;
      assert uris + Uris([]) == uris && texts + Texts([]) == texts;
    } else {
      assert (a + b)[1..] == a[1..] + b;
      var h := Canon(loc, a[0]);
      if h.uri in uris || h.text in texts {
        KeptAppend(loc, a[1..], b, uris, texts);
      } else {
        KeptAppend(loc, a[1..], b, uris + {h.uri}, texts + {h.text});
        var rest := Kept(loc, a[1..], uris + {h.uri}, texts + {h.text});
        assert uris + {h.uri} + Uris(rest) == uris + Uris([h] + rest);
        assert texts + {h.text} + Texts(rest) == texts + Texts([h] + rest);
      }
    }
  }

  /** One more hit is appended, canonical, or it collides with a hit kept before it. */
  lemma {:induction false} SkippedCollides(loc: Locator, hits: seq<Hit>, h: Hit)
    ensures var kept := Kept(loc, hits, {}, {});
            if exists g :: g in kept && Collides(g, Canon(loc, h))
            then Kept(loc, hits + [h], {}, {}) == kept
            else Kept(loc, hits + [h], {}, {}) == kept + [Canon(loc, h)]
  {
    var kept := Kept(loc, hits, {}, {});
    KeptAppend(loc, hits, [h], {}, {});
    var c := Canon(loc, h);
    assert (c.uri in {} + Uris(kept) || c.text in {} + Texts(kept)) <==> exists g :: g in kept && Collides(g, c);
  }

  /** Result q is a hit, and the results before it are those of the hits before that one. */
  lemma {:induction false} ResultIsHit(loc: Locator, hits: seq<Hit>, q: nat) returns (j: nat)
    requires q < |Kept(loc, hits, {}, {})|
    ensures j < |hits| && Kept(loc, hits, {}, {})[q] == Canon(loc, hits[j])
    ensures Kept(loc, hits[..j], {}, {}) == Kept(loc, hits, {}, {})[..q]
  {
    var front, last := hits[..|hits| - 1], hits[|hits| - 1];
    assert hits == front + [last];
    var kept := Kept(loc, front, {}, {});
    SkippedCollides(loc, front, last);
    if q < |kept| {
      j := ResultIsHit(loc, front, q);
      assert hits[..j] == front[..j];
    } else {
      j := |front|;
    }
  }

  /** Once it was met, a hit is kept or collides with a hit that is. */
  lemma {:induction false} LastIsRepresented(loc: Locator, front: seq<Hit>, last: Hit) returns (p: nat)
    ensures p < |Kept(loc, front + [last], {}, {})|
    ensures Collides(Kept(loc, front + [last], {}, {})[p], Canon(loc, last))
  {
    var kept := Kept(loc, front, {}, {});
    SkippedCollides(loc, front, last);
    if g :| g in kept && Collides(g, Canon(loc, last)) {
      p :| 0 <= p < |kept| && kept[p] == g;
    } else {
      p := |kept|;
    }
  }

  /** Every hit is a result or collides with one taken from a hit before it. */
  lemma {:induction false} HitIsRepresented(loc: Locator, hits: seq<Hit>, i: nat) returns (p: nat, h: nat)
    requires i < |hits|
    ensures h <= i && p < |Kept(loc, hits, {}, {})| && Kept(loc, hits, {}, {})[p] == Canon(loc, hits[h])
    ensures Collides(Canon(loc, hits[h]), Canon(loc, hits[i]))
  {
    var part := hits[..i + 1];
    assert part == hits[..i] + [hits[i]] && hits == part + hits[i + 1..];
    KeptAppend(loc, part, hits[i + 1..], {}, {});
    p := LastIsRepresented(loc, hits[..i], hits[i]);
    h := ResultIsHit(loc, part, p);
  }

  lemma {:induction false} DedupedIsKept(loc: Locator, hits: seq<Hit>, uris: set<string>, texts: set<string>)
    requires Deduped(loc, hits)
    requires forall h :: h in hits ==> h.uri !in uris && h.text !in texts
    ensures Kept(loc, hits, uris, texts) == hits
  {
    if hits != [] {
      assert hits == [hits[0]] + hits[1..];
      assert Canon(loc, hits[0]) == hits[0];
      forall h | h in hits[1..] ensures !Collides(hits[0], h) {
        var j :| 0 <= j < |hits[1..]| && hits[1..][j] == h;
        assert hits[j + 1] == h;
      }
      DedupedIsKept(loc, hits[1..], uris + {hits[0].uri}, texts + {hits[0].text});
    }
  }

  /** Deduplicating twice changes nothing more. */
  lemma {:induction false} DedupeIdempotent(loc: Locator, hits: seq<Hit>, k: int)
    ensures DedupeHits(loc, DedupeHits(loc, hits, k), k) == DedupeHits(loc, hits, k)
  {
    var once := DedupeHits(loc, hits, k);
    DedupeIsDeduped(loc, hits, k);
    DedupedIsKept(loc, once, {}, {});
    DedupeTakes(loc, once, k);
    DedupeTakes(loc, hits, k);
  }

  // ---------------------------------------------------------------- the number of results

  function Search(loc: Locator, lists: seq<seq<Hit>>, k: nat): seq<Hit> { DedupeHits(loc, Merge(lists, k), k) }

  lemma {:induction false} KeptOfPrefix(loc: Locator, hits: seq<Hit>, n: nat)
    ensures Kept(loc, Take(hits, n), {}, {}) <= Kept(loc, hits, {}, {})
  {
    var front := Take(hits, n);
    assert hits == front + hits[|front|..];
    KeptAppend(loc, front, hits[|front|..], {}, {});
  }

  /** A canonical hit that collides with none kept before it is kept next. */
  lemma {:induction false} NextIsKept(loc: Locator, all: seq<Hit>, n: nat)
    requires n < |all| && Canon(loc, all[n]) == all[n]
    requires forall g :: g in Kept(loc, all[..n], {}, {}) ==> !Collides(g, all[n])
    ensures Kept(loc, all[..n], {}, {}) + [all[n]] <= Kept(loc, all, {}, {})
  {
    SkippedCollides(loc, all[..n], all[n]);
    assert all[..n + 1] == all[..n] + [all[n]];
    KeptOfPrefix(loc, all, n + 1);
  }

  /** For fixed ranked lists, more results extend the ones already there. (A strategy fetches its
      lists anew for every number of results.) */
  lemma {:induction false} MoreResultsExtend(loc: Locator, lists: seq<seq<Hit>>, k: nat, more: nat)
    requires 1 <= k <= more
    ensures Search(loc, lists, k) <= Search(loc, lists, more)
  {
    DedupeTakes(loc, Merge(lists, k), k);
    DedupeTakes(loc, Merge(lists, more), more);
    assert Merge(lists, k) == Take(Merge(lists, more), 3 * k);
    KeptOfPrefix(loc, Merge(lists, more), 3 * k);
  }
}
