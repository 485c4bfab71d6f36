/** For how many lists and results three times the results is enough. */
module OverfetchLimit {
  import opened Fusion
  import opened Dedupe
  import opened Overfetch
  import opened RankOrder
  import opened Kernels
  import opened Pages

  ghost predicate LosslessFor(n: nat, k: nat) {
    forall loc: Locator, lists: seq<seq<Hit>> ::
      |lists| == n && AllDeduped(loc, lists) ==> Search(loc, lists, k) == SearchUncut(loc, lists, k)
  }

  // ---------------------------------------------------------------- lists that lose a result

  /** Hit r of list i. List 0 holds m openers. Every other list has two hits for each opener,
      one with its uri and one with its text; the last list ends with one more document. */
  function HitAt(m: nat, i: nat, r: nat): Hit {
    if i == 0 then Page(Opener(r), 0, Opener(r))
    else if r == 2 * m then Page(Extra(i, r), 0, Extra(i, r))
    else if r % 2 == 0 then Page(Opener(r / 2), i, Extra(i, r))
    else Page(Extra(i, r), i, Opener(r / 2))
  }

  function Length(n: nat, m: nat, i: nat): nat { if i == 0 then m else if i == n - 1 then 2 * m + 1 else 2 * m }

  function ListAt(n: nat, m: nat, i: nat): seq<Hit> {
    seq(Length(n, m, i), r requires 0 <= r < Length(n, m, i) => HitAt(m, i, r))
  }

  /** The first t of the n lists. */
  function Crowd(n: nat, m: nat, t: nat): (lists: seq<seq<Hit>>)
    ensures |lists| == t
  {
    if t == 0 then [] else Crowd(n, m, t - 1) + [ListAt(n, m, t - 1)]
  }

  lemma {:induction false} CrowdAt(n: nat, m: nat, t: nat, i: nat)
    requires i < t
    ensures Crowd(n, m, t)[i] == ListAt(n, m, i)
    decreases t
  {
    if i < t - 1 {
      CrowdAt(n, m, t - 1, i);
    }
  }

  lemma {:induction false} CrowdSize(n: nat, m: nat, t: nat)
    requires n >= 2 && 1 <= t <= n
    ensures |Flat(Crowd(n, m, t))| == m + (t - 1) * (2 * m) + if t == n then 1 else 0
    decreases t
  {
    var lists := Crowd(n, m, t);
    assert lists[..t - 1] == Crowd(n, m, t - 1);
    if t == 1 {
      assert Flat(lists[..0]) == [];
    } else {
      CrowdSize(n, m, t - 1);
      assert (t - 1) * (2 * m) == (t - 2) * (2 * m) + 2 * m;
    }
  }

  // ---------------------------------------------------------------- names of the places

  predicate IsSlot(m: nat, i: nat, r: nat) { if i == 0 then r < m else r <= 2 * m }

  function NameAt(m: nat, i: nat, r: nat): string {
    if i == 0 then Opener(r) else if r < 2 * m && r % 2 == 0 then Opener(r / 2) else Extra(i, r)
  }

  function TextAt(m: nat, i: nat, r: nat): string {
    if i == 0 then Opener(r) else if r < 2 * m && r % 2 == 1 then Opener(r / 2) else Extra(i, r)
  }

  function ChunkAt(m: nat, i: nat, r: nat): nat { if r == 2 * m then 0 else i }

  lemma {:induction false} HitAtIs(m: nat, i: nat, r: nat)
    requires IsSlot(m, i, r)
    ensures HitAt(m, i, r) == Page(NameAt(m, i, r), if i == 0 then 0 else ChunkAt(m, i, r), TextAt(m, i, r))
  {
  }

  lemma {:induction false} Halves(r: nat, q: nat)
    requires r / 2 == q / 2 && r % 2 == q % 2
    ensures r == q
  {
  }

  /** Which places share a name: those for one opener, at most one a list. */
  lemma {:induction false} NamesCompare(m: nat, i: nat, r: nat, j: nat, q: nat)
    requires IsSlot(m, i, r) && IsSlot(m, j, q) && NameAt(m, i, r) == NameAt(m, j, q)
    ensures i == j ==> r == q
    ensures i != j ==> r != 2 * m || i == 0
    ensures i != j && i != 0 ==> ChunkAt(m, i, r) == i
  {
    var a, b := if i == 0 then r else r / 2, if j == 0 then q else q / 2;
    OpenersDiffer(a, b);
    ExtrasDiffer(i, r, j, q);
    OpenerIsNoExtra(a, j, q);
    OpenerIsNoExtra(b, i, r);
    if a == b && r % 2 == q % 2 && i != 0 && j != 0 {
      Halves(r, q);
    }
  }

  lemma {:induction false} TextsCompare(m: nat, i: nat, r: nat, q: nat)
    requires IsSlot(m, i, r) && IsSlot(m, i, q) && TextAt(m, i, r) == TextAt(m, i, q)
    ensures r == q
  {
    OpenersDiffer(if i == 0 then r else r / 2, if i == 0 then q else q / 2);
    ExtrasDiffer(i, r, i, q);
    OpenerIsNoExtra(r / 2, i, q);
    OpenerIsNoExtra(q / 2, i, r);
    if r / 2 == q / 2 && r % 2 == q % 2 {
      Halves(r, q);
    }
  }

  lemma {:induction false} PlacesDiffer(m: nat, i: nat, r: nat, j: nat, q: nat)
    requires IsSlot(m, i, r) && IsSlot(m, j, q) && (i != j || r != q)
    ensures HitKey(HitAt(m, i, r)) != HitKey(HitAt(m, j, q))
    ensures i == j ==> !Collides(HitAt(m, i, r), HitAt(m, j, q))
  {
    HitAtIs(m, i, r);
    HitAtIs(m, j, q);
    PagesCompare(NameAt(m, i, r), if i == 0 then 0 else ChunkAt(m, i, r), TextAt(m, i, r),
                 NameAt(m, j, q), if j == 0 then 0 else ChunkAt(m, j, q), TextAt(m, j, q));
    if NameAt(m, i, r) == NameAt(m, j, q) {
      NamesCompare(m, i, r, j, q);
      NamesCompare(m, j, q, i, r);
    }
    if i == j && TextAt(m, i, r) == TextAt(m, j, q) {
      TextsCompare(m, i, r, q);
    }
  }

  // ---------------------------------------------------------------- what the lists satisfy

  lemma {:induction false} PlaceIsSlot(n: nat, m: nat, i: int, r: int)
    requires IsPlace(Crowd(n, m, n), i, r)
    ensures IsSlot(m, i, r) && Crowd(n, m, n)[i][r] == HitAt(m, i, r)
    ensures r == 2 * m && i > 0 ==> i == n - 1
  {
    CrowdAt(n, m, n, i);
  }

  lemma {:induction false} CrowdUnique(n: nat, m: nat)
    ensures UniqueKeys(Crowd(n, m, n))
  {
    var lists := Crowd(n, m, n);
    forall i, r, j, q | IsPlace(lists, i, r) && IsPlace(lists, j, q) && (i != j || r != q)
      ensures HitKey(lists[i][r]) != HitKey(lists[j][q])
    {
      PlaceIsSlot(n, m, i, r);
      PlaceIsSlot(n, m, j, q);
      PlacesDiffer(m, i, r, j, q);
    }
  }

  lemma {:induction false} HitCanonical(loc: Locator, m: nat, i: nat, r: nat)
    requires IsSlot(m, i, r)
    ensures Canon(loc, HitAt(m, i, r)) == HitAt(m, i, r)
  {
    HitAtIs(m, i, r);
    PageCanonical(loc, NameAt(m, i, r), if i == 0 then 0 else ChunkAt(m, i, r), TextAt(m, i, r));
  }

  lemma {:induction false} ListDeduped(loc: Locator, n: nat, m: nat, i: nat)
    requires i < n
    ensures Deduped(loc, ListAt(n, m, i))
  {
    var l := ListAt(n, m, i);
    forall h | h in l ensures Canon(loc, h) == h {
      var r :| 0 <= r < |l| && l[r] == h;
      HitCanonical(loc, m, i, r);
    }
    forall r, q | 0 <= r < q < |l| ensures !Collides(l[r], l[q]) {
      PlacesDiffer(m, i, r, i, q);
    }
  }

  lemma {:induction false} CrowdDeduped(loc: Locator, n: nat, m: nat)
    ensures AllDeduped(loc, Crowd(n, m, n))
  {
    var lists := Crowd(n, m, n);
    forall l | l in lists ensures Deduped(loc, l) {
      var i :| 0 <= i < |lists| && lists[i] == l;
      CrowdAt(n, m, n, i);
      ListDeduped(loc, n, m, i);
    }
  }

  // ---------------------------------------------------------------- the openers are a kernel

  function Opening(m: nat, j: nat): Hit { HitAt(m, 0, j).(score := Share(j)) }

  function Openings(m: nat): set<Hit> { set j | 0 <= j < m :: Opening(m, j) }

  lemma {:induction false} FewOpenings(m: nat, t: nat)
    ensures |set j | 0 <= j < t :: Opening(m, j)| <= t
  {
    if t > 0 {
      FewOpenings(m, t - 1);
      assert (set j | 0 <= j < t :: Opening(m, j)) == (set j | 0 <= j < t - 1 :: Opening(m, j)) + {Opening(m, t - 1)};
    }
  }

  /** Every hit of another list collides with its opener, which is ranked before it. */
  lemma {:induction false} OpenerComesFirst(n: nat, m: nat, q: nat, i: nat, r: nat) returns (p: nat)
    requires n >= 2 && Holds(Crowd(n, m, n), q, i, r) && i > 0 && r < 2 * m
    ensures p < q && Ranking(Crowd(n, m, n))[p] == Opening(m, r / 2)
    ensures Collides(Ranking(Crowd(n, m, n))[p], Ranking(Crowd(n, m, n))[q])
  {
    var lists := Crowd(n, m, n);
    var j := r / 2;
    CrowdUnique(n, m);
    CrowdAt(n, m, n, 0);
    CrowdAt(n, m, n, i);
    assert lists[0][j] == HitAt(m, 0, j);
    p := PositionOf(lists, 0, j);
    PagesCompare(Opener(j), 0, Opener(j), NameAt(m, i, r), i, TextAt(m, i, r));
    HitAtIs(m, i, r);
    if j < r {
      LowerRankFirst(lists, p, 0, j, q, i, r);
    } else {
      FirstOfAll(lists, p, q, i, r);
    }
  }

  lemma {:induction false} RankedCanonical(loc: Locator, n: nat, m: nat, p: nat) returns (i: nat, r: nat)
    requires p < |Ranking(Crowd(n, m, n))|
    ensures Holds(Crowd(n, m, n), p, i, r) && IsSlot(m, i, r) && Crowd(n, m, n)[i][r] == HitAt(m, i, r)
    ensures Canon(loc, Ranking(Crowd(n, m, n))[p]) == Ranking(Crowd(n, m, n))[p]
  {
    CrowdUnique(n, m);
    i, r := PlaceOf(Crowd(n, m, n), p);
    PlaceIsSlot(n, m, i, r);
    HitCanonical(loc, m, i, r);
  }

  lemma {:induction false} OpeningsApart(m: nat, g: Hit, h: Hit)
    requires g in Openings(m) && h in Openings(m) && g != h
    ensures !Collides(g, h)
  {
    var i :| 0 <= i < m && g == Opening(m, i);
    var j :| 0 <= j < m && h == Opening(m, j);
    PlacesDiffer(m, 0, i, 0, j);
  }

  lemma {:induction false} Covered(n: nat, m: nat, last: nat, q: nat)
    requires n >= 2 && Holds(Crowd(n, m, n), last, n - 1, 2 * m) && q < last
    requires Ranking(Crowd(n, m, n))[q] !in Openings(m)
    ensures exists p :: 0 <= p < q && Ranking(Crowd(n, m, n))[p] in Openings(m)
              && Collides(Ranking(Crowd(n, m, n))[p], Ranking(Crowd(n, m, n))[q])
  {
    var lists := Crowd(n, m, n);
    CrowdUnique(n, m);
    var i, r := PlaceOf(lists, q);
    PlaceIsSlot(n, m, i, r);
    assert i == 0 ==> Opening(m, r) in Openings(m);
    if i == 0 {
      assert false;
    } else if r == 2 * m {
      HeldOnce(lists, q, last, i, r);
    } else {
      var p := OpenerComesFirst(n, m, q, i, r);
    }
  }

  lemma {:induction false} RankedOnce(lists: seq<seq<Hit>>, i: nat, j: nat)
    requires i < j < |Ranking(lists)|
    ensures Ranking(lists)[i] != Ranking(lists)[j]
  {
    RankingIs(lists);
    SortedKeysDistinct(lists);
    assert SortedKeys(lists)[i] != SortedKeys(lists)[j];
  }

  /** Before the last document, the openers are a kernel of the ranking. */
  lemma {:induction false} OpeningsAreKernel(loc: Locator, n: nat, m: nat, last: nat)
    requires n >= 2 && Holds(Crowd(n, m, n), last, n - 1, 2 * m)
    ensures Kernel(loc, Ranking(Crowd(n, m, n))[..last], Openings(m))
  {
    var all := Ranking(Crowd(n, m, n));
    var hits := all[..last];
    forall h | h in hits ensures Canon(loc, h) == h {
      var p :| 0 <= p < |hits| && hits[p] == h;
      var i, r := RankedCanonical(loc, n, m, p);
    }
    forall i, j | 0 <= i < j < |hits| ensures hits[i] != hits[j] {
      RankedOnce(Crowd(n, m, n), i, j);
    }
    forall g, h | g in Openings(m) && h in Openings(m) && g != h ensures !Collides(g, h) {
      OpeningsApart(m, g, h);
    }
    forall q: nat | q < |hits| && hits[q] !in Openings(m)
      ensures exists p :: 0 <= p < q && hits[p] in Openings(m) && Collides(hits[p], hits[q])
    {
      Covered(n, m, last, q);
      var p :| 0 <= p < q && all[p] in Openings(m) && Collides(all[p], all[q]);
      assert hits[p] == all[p];
    }
  }

  // ---------------------------------------------------------------- the loss

  /** The last document stands behind everything else. */
  lemma {:induction false} LastDocument(n: nat, m: nat) returns (last: nat)
    requires n >= 2
    ensures Holds(Crowd(n, m, n), last, n - 1, 2 * m)
    ensures last == |Ranking(Crowd(n, m, n))| - 1 == m + (n - 1) * (2 * m)
  {
    var lists := Crowd(n, m, n);
    CrowdUnique(n, m);
    LastListIsLongest(n, m);
    last := PositionOf(lists, n - 1, 2 * m);
    LastOfAll(lists, last, n - 1, 2 * m);
    RankingLength(lists);
    CrowdSize(n, m, n);
  }

  lemma {:induction false} LastListIsLongest(n: nat, m: nat)
    requires n >= 2
    ensures |Crowd(n, m, n)[n - 1]| == 2 * m + 1
    ensures forall j :: 0 <= j < n && j != n - 1 ==> |Crowd(n, m, n)[j]| <= 2 * m
  {
    CrowdAt(n, m, n, n - 1);
    forall j | 0 <= j < n && j != n - 1 ensures |Crowd(n, m, n)[j]| <= 2 * m {
      CrowdAt(n, m, n, j);
    }
  }

  lemma {:induction false} LastIsNew(n: nat, m: nat, last: nat, p: nat)
    requires n >= 2 && Holds(Crowd(n, m, n), last, n - 1, 2 * m) && p < last
    ensures !Collides(Ranking(Crowd(n, m, n))[p], Ranking(Crowd(n, m, n))[last])
  {
    var lists := Crowd(n, m, n);
    CrowdUnique(n, m);
    var i, r := PlaceOf(lists, p);
    PlaceIsSlot(n, m, i, r);
    PlaceIsSlot(n, m, n - 1, 2 * m);
    if i == n - 1 && r == 2 * m {
      HeldOnce(lists, p, last, i, r);
    } else {
      SlotIsNew(n, m, i, r);
    }
  }

  lemma {:induction false} SlotIsNew(n: nat, m: nat, i: nat, r: nat)
    requires n >= 2 && IsSlot(m, i, r) && (i != n - 1 || r != 2 * m)
    ensures !Collides(HitAt(m, i, r), HitAt(m, n - 1, 2 * m))
  {
    HitAtIs(m, i, r);
    HitAtIs(m, n - 1, 2 * m);
    var new' := Extra(n - 1, 2 * m);
    PagesCompare(NameAt(m, i, r), if i == 0 then 0 else ChunkAt(m, i, r), TextAt(m, i, r), new', 0, new');
    ExtrasDiffer(i, r, n - 1, 2 * m);
    OpenerIsNoExtra(r, n - 1, 2 * m);
    OpenerIsNoExtra(r / 2, n - 1, 2 * m);
  }

  /** Only openers survive before the last document, and it survives as well. */
  lemma {:induction false} KeptSizes(loc: Locator, n: nat, m: nat, last: nat)
    requires n >= 2 && Holds(Crowd(n, m, n), last, n - 1, 2 * m)
    ensures |Kept(loc, Ranking(Crowd(n, m, n))[..last], {}, {})| <= m
    ensures |Kept(loc, Ranking(Crowd(n, m, n)), {}, {})| > |Kept(loc, Ranking(Crowd(n, m, n))[..last], {}, {})|
  {
    var all := Ranking(Crowd(n, m, n));
    var front := all[..last];
    var kept := Kept(loc, front, {}, {});
    OpeningsAreKernel(loc, n, m, last);
    KernelKept(loc, front, Openings(m), last);
    assert front[..last] == front;
    KeptIsDeduped(loc, front, {}, {});
    FewKept(kept, Openings(m));
    FewOpenings(m, m);
    forall g | g in kept ensures !Collides(g, all[last]) {
      KeptComesFrom(loc, front, {}, {}, g);
      var h :| h in front && Canon(loc, h) == g;
      var p :| 0 <= p < last && front[p] == h;
      var i, r := RankedCanonical(loc, n, m, p);
      LastIsNew(n, m, last, p);
    }
    var i, r := RankedCanonical(loc, n, m, last);
    NextIsKept(loc, all, last);
  }

  /** A result is lost when the cut leaves fewer than k different hits and more are behind. */
  lemma {:induction false} LossBySizes(loc: Locator, lists: seq<seq<Hit>>, last: nat, k: nat)
    requires k >= 1 && 3 * k <= last <= |Ranking(lists)|
    requires |Kept(loc, Ranking(lists)[..last], {}, {})| < k
    requires |Kept(loc, Ranking(lists), {}, {})| > |Kept(loc, Ranking(lists)[..last], {}, {})|
    ensures Search(loc, lists, k) != SearchUncut(loc, lists, k)
  {
    var all := Ranking(lists);
    DedupeTakes(loc, Merge(lists, k), k);
    DedupeTakes(loc, all, k);
    assert Merge(lists, k) == Take(all[..last], 3 * k);
    KeptOfPrefix(loc, all[..last], 3 * k);
  }

  lemma {:induction false} Places(n: nat, m: nat)
    requires n >= 1
    ensures m + (n - 1) * (2 * m) == (2 * n - 1) * m
  {
    assert (n - 1) * (2 * m) == (2 * n - 2) * m;
  }

  lemma {:induction false} CrowdLoses(loc: Locator, n: nat, k: nat)
    requires n >= 2 && k >= 1 && (2 * n - 1) * (k - 1) >= 3 * k
    ensures Search(loc, Crowd(n, k - 1, n), k) != SearchUncut(loc, Crowd(n, k - 1, n), k)
  {
    var m := k - 1;
    var last := LastDocument(n, m);
    Places(n, m);
    KeptSizes(loc, n, m, last);
    LossBySizes(loc, Crowd(n, m, n), last, k);
  }

  /** Cutting the fused list at three times the results loses nothing, for every choice of n
      deduplicated lists and k results, exactly when (2n - 1)(k - 1) < 3k: always for up to
      two lists or a single result, for three lists up to two results, and never else. */
  lemma {:induction false} LosslessExactly(n: nat, k: nat)
    requires k >= 1
    ensures LosslessFor(n, k) <==> (2 * n - 1) * (k - 1) < 3 * k
  {
    if (2 * n - 1) * (k - 1) < 3 * k {
      forall loc: Locator, lists: seq<seq<Hit>> | |lists| == n && AllDeduped(loc, lists)
        ensures Search(loc, lists, k) == SearchUncut(loc, lists, k)
      {
        CutIsLossless(loc, lists, k);
      }
    } else {
      FewListsFit(n, k);
      var loc := Locator("", (s: string) => s);
      CrowdDeduped(loc, n, k - 1);
      CrowdLoses(loc, n, k);
    }
  }

  lemma {:induction false} FewListsFit(n: nat, k: nat)
    requires k >= 1 && (2 * n - 1) * (k - 1) >= 3 * k
    ensures n >= 3
  {
    assert n == 2 ==> (2 * n - 1) * (k - 1) == 3 * (k - 1);
    assert n == 1 ==> (2 * n - 1) * (k - 1) == k - 1;
    assert n == 0 ==> (2 * n - 1) * (k - 1) == 1 - k;
  }
}
