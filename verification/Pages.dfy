/** Hits to build examples from: the uri, the chunk and the text of each are chosen at will. */
module Pages {
  import opened Text
  import opened Fusion
  import opened Dedupe

  function Page(name: string, chunk: nat, text: string): Hit { Hit(name + "://", chunk, 0.0, 1, text) }

  lemma {:induction false} PageCanonical(loc: Locator, name: string, chunk: nat, text: string)
    ensures Canon(loc, Page(name, chunk, text)) == Page(name, chunk, text)
  {
    SchemeInside(name, "");
    assert name + "://" + "" == name + "://";
  }

  lemma {:induction false} NamesDiffer(a: string, b: string)
    ensures a + "://" == b + "://" <==> a == b
  {
    if a + "://" == b + "://" {
      assert a == (a + "://")[..|a|] && b == (b + "://")[..|b|];
    }
  }

  /** Pages collide by name or by text, and share a key by name and chunk. */
  lemma {:induction false} PagesCompare(a: string, c: nat, x: string, b: string, d: nat, y: string)
    ensures Collides(Page(a, c, x), Page(b, d, y)) <==> a == b || x == y
    ensures HitKey(Page(a, c, x)) == HitKey(Page(b, d, y)) <==> a == b && c == d
  {
    NamesDiffer(a, b);
    HitKeyInjective(Page(a, c, x), Page(b, d, y));
  }

  // ---------------------------------------------------------------- names

  /** A document that opens a group. */
  function Opener(j: nat): string { "o" + Decimal(j) }

  /** A name used at one place only. */
  function Extra(i: nat, r: nat): string { "e" + Decimal(i) + "," + Decimal(r) }

  lemma {:induction false} DecimalInjective(m: nat, n: nat)
    requires Decimal(m) == Decimal(n)
    ensures m == n
  {
    DecimalRoundTrip(m);
    DecimalRoundTrip(n);
  }

  lemma {:induction false} OpenersDiffer(j: nat, k: nat)
    ensures Opener(j) == Opener(k) <==> j == k
  {
    if Opener(j) == Opener(k) {
      assert Decimal(j) == Opener(j)[1..] && Decimal(k) == Opener(k)[1..];
      DecimalInjective(j, k);
    }
  }

  lemma {:induction false} ExtrasDiffer(i: nat, r: nat, j: nat, q: nat)
    ensures Extra(i, r) == Extra(j, q) <==> i == j && r == q
  {
    if Extra(i, r) == Extra(j, q) {
      DecimalRoundTrip(i);
      DecimalRoundTrip(j);
      assert Extra(i, r)[1..] == Decimal(i) + [','] + Decimal(r);
      assert Extra(j, q)[1..] == Decimal(j) + [','] + Decimal(q);
      SplitAtFirst(',', Decimal(i), Decimal(j), Decimal(r), Decimal(q));
      DecimalInjective(i, j);
      DecimalInjective(r, q);
    }
  }

  lemma {:induction false} OpenerIsNoExtra(j: nat, i: nat, r: nat)
    ensures Opener(j) != Extra(i, r)
  {
    assert Opener(j)[0] == 'o' && Extra(i, r)[0] == 'e';
  }
}
