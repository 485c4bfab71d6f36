/** Deduplication when everything collides with a few hits that come first. */
module Kernels {
  import opened Fusion
  import opened Dedupe

  lemma {:induction false} KeptComesFrom(loc: Locator, hits: seq<Hit>, uris: set<string>, texts: set<string>, g: Hit)
    requires g in Kept(loc, hits, uris, texts)
    ensures exists h :: h in hits && Canon(loc, h) == g
  {
    var c := Canon(loc, hits[0]);
    if c.uri in uris || c.text in texts {
      KeptComesFrom(loc, hits[1..], uris, texts, g);
    } else if g != c {
      KeptComesFrom(loc, hits[1..], uris + {c.uri}, texts + {c.text}, g);
    } else {
      assert hits[0] in hits;
    }
  }

  /** When every hit outside a collision-free kernel collides with a kernel hit before it,
      deduplication keeps kernel hits only. */
  ghost predicate Kernel(loc: Locator, hits: seq<Hit>, kernel: set<Hit>) {
    && (forall h :: h in hits ==> Canon(loc, h) == h)
    && (forall i, j :: 0 <= i < j < |hits| ==> hits[i] != hits[j])
    && (forall g, h :: g in kernel && h in kernel && g != h ==> !Collides(g, h))
    && (forall n :: 0 <= n < |hits| && hits[n] !in kernel ==>
          exists p :: 0 <= p < n && hits[p] in kernel && Collides(hits[p], hits[n]))
  }

  lemma {:induction false} KernelFits(loc: Locator, hits: seq<Hit>, kernel: set<Hit>, n: nat)
    requires Kernel(loc, hits, kernel) && n < |hits| && hits[n] in kernel
    requires forall h :: h in Kept(loc, hits[..n], {}, {}) ==> h in kernel
    ensures Kept(loc, hits[..n + 1], {}, {}) == Kept(loc, hits[..n], {}, {}) + [hits[n]]
  {
    forall g | g in Kept(loc, hits[..n], {}, {}) ensures !Collides(g, hits[n]) {
      KeptComesFrom(loc, hits[..n], {}, {}, g);
      assert exists p :: 0 <= p < n && hits[p] == g;
    }
    OneMoreHit(loc, hits, kernel, n);
  }

  lemma {:induction false} OneMoreHit(loc: Locator, hits: seq<Hit>, kernel: set<Hit>, n: nat)
    requires Kernel(loc, hits, kernel) && n < |hits|
    ensures var kept := Kept(loc, hits[..n], {}, {});
            Kept(loc, hits[..n + 1], {}, {})
            == if exists g :: g in kept && Collides(g, hits[n]) then kept else kept + [hits[n]]
  {
    assert hits[n] in hits;
    assert hits[..n + 1] == hits[..n] + [hits[n]];
    SkippedCollides(loc, hits[..n], hits[n]);
  }

  /** What is kept of the first n hits: kernel hits only, and all of them. */
  ghost predicate KernelOnly(kept: seq<Hit>, hits: seq<Hit>, kernel: set<Hit>, n: nat)
    requires n <= |hits|
  {
    && (forall h :: h in kept ==> h in kernel)
    && (forall p :: 0 <= p < n && hits[p] in kernel ==> hits[p] in kept)
  }

  lemma {:induction false} KernelStep(loc: Locator, hits: seq<Hit>, kernel: set<Hit>, n: nat)
    requires Kernel(loc, hits, kernel) && n < |hits|
    requires KernelOnly(Kept(loc, hits[..n], {}, {}), hits, kernel, n)
    ensures KernelOnly(Kept(loc, hits[..n + 1], {}, {}), hits, kernel, n + 1)
  {
    if hits[n] in kernel {
      KernelFits(loc, hits, kernel, n);
    } else {
      KernelSkips(loc, hits, kernel, n);
    }
  }

  lemma {:induction false} KernelKept(loc: Locator, hits: seq<Hit>, kernel: set<Hit>, n: nat)
    requires Kernel(loc, hits, kernel) && n <= |hits|
    ensures KernelOnly(Kept(loc, hits[..n], {}, {}), hits, kernel, n)
  {
    if n > 0 {
      KernelKept(loc, hits, kernel, n - 1);
      KernelStep(loc, hits, kernel, n - 1);
    }
  }

  lemma {:induction false} KernelSkips(loc: Locator, hits: seq<Hit>, kernel: set<Hit>, n: nat)
    requires Kernel(loc, hits, kernel) && n < |hits| && hits[n] !in kernel
    requires forall p :: 0 <= p < n && hits[p] in kernel ==> hits[p] in Kept(loc, hits[..n], {}, {})
    ensures Kept(loc, hits[..n + 1], {}, {}) == Kept(loc, hits[..n], {}, {})
  {
    var p :| 0 <= p < n && hits[p] in kernel && Collides(hits[p], hits[n]);
    assert hits[p] in Kept(loc, hits[..n], {}, {});
    OneMoreHit(loc, hits, kernel, n);
  }

  lemma {:induction false} FewKept(hits: seq<Hit>, kernel: set<Hit>)
    requires forall i, j :: 0 <= i < j < |hits| ==> hits[i] != hits[j]
    requires forall h :: h in hits ==> h in kernel
    ensures |hits| <= |kernel|
    decreases |hits|
  {
    if hits != [] {
      FewKept(hits[1..], kernel - {hits[0]});
    }
  }
}
