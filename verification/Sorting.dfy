/** Stable sorting by a comparison, as the list sorts of the program use it.
    `leq(x, y)` says that x may stand before y; a descending sort passes the
    reversed comparison of the keys. */
module Sorting {

  ghost predicate TotalPreorder<T(!new)>(leq: (T, T) -> bool) {
    && (forall x, y :: leq(x, y) || leq(y, x))
    && (forall x, y, z :: leq(x, y) && leq(y, z) ==> leq(x, z))
  }

  ghost predicate Sorted<T>(leq: (T, T) -> bool, s: seq<T>) {
    forall i, j :: 0 <= i < j < |s| ==> leq(s[i], s[j])
  }

  function Insert<T>(leq: (T, T) -> bool, x: T, s: seq<T>): seq<T> {
    if s == [] || leq(x, s[0]) then [x] + s else [s[0]] + Insert(leq, x, s[1..])
  }

  /** The stable sort: an element is placed in front of its equals from further right. */
  function Sort<T>(leq: (T, T) -> bool, s: seq<T>): seq<T> {
    if s == [] then [] else Insert(leq, s[0], Sort(leq, s[1..]))
  }

  function Filter<T>(p: T -> bool, s: seq<T>): seq<T> {
    if s == [] then [] else if p(s[0]) then [s[0]] + Filter(p, s[1..]) else Filter(p, s[1..])
  }

  function Not<T>(p: T -> bool): T -> bool { (x: T) => !p(x) }

  lemma {:induction false} InsertMultiset<T(!new)>(leq: (T, T) -> bool, x: T, s: seq<T>)
    ensures multiset(Insert(leq, x, s)) == multiset{x} + multiset(s)
  {
    if s == [] || leq(x, s[0]) {
    } else {
      InsertMultiset(leq, x, s[1..]);
      assert s == [s[0]] + s[1..];
    }
  }

  lemma {:induction false} SortMultiset<T(!new)>(leq: (T, T) -> bool, s: seq<T>)
    ensures multiset(Sort(leq, s)) == multiset(s)
    ensures |Sort(leq, s)| == |s|
  {
    if s != [] {
      SortMultiset(leq, s[1..]);
      InsertMultiset(leq, s[0], Sort(leq, s[1..]));
      assert s == [s[0]] + s[1..];
    }
    assert |multiset(Sort(leq, s))| == |multiset(s)|;
  }

  lemma {:induction false} SortMembers<T(!new)>(leq: (T, T) -> bool, s: seq<T>)
    ensures forall x :: x in Sort(leq, s) <==> x in s
  {
    SortMultiset(leq, s);
    forall x ensures x in Sort(leq, s) <==> x in s {
      assert x in Sort(leq, s) <==> x in multiset(Sort(leq, s));
      assert x in s <==> x in multiset(s);
    }
  }

  lemma {:induction false} InsertMembers<T(!new)>(leq: (T, T) -> bool, x: T, s: seq<T>)
    ensures forall y :: y in Insert(leq, x, s) <==> y == x || y in s
  {
    InsertMultiset(leq, x, s);
    forall y ensures y in Insert(leq, x, s) <==> y == x || y in s {
      assert y in Insert(leq, x, s) <==> y in multiset(Insert(leq, x, s));
      assert y in s <==> y in multiset(s);
    }
  }

  lemma {:induction false} InsertSorted<T(!new)>(leq: (T, T) -> bool, x: T, s: seq<T>)
    requires TotalPreorder(leq) && Sorted(leq, s)
    ensures Sorted(leq, Insert(leq, x, s))
  {
    if s == [] {
    } else if leq(x, s[0]) {
      forall j | 0 <= j < |s| ensures leq(x, s[j]) {
        assert leq(s[0], s[0]);
      }
    } else {
      InsertSorted(leq, x, s[1..]);
      InsertMembers(leq, x, s[1..]);
      var t := Insert(leq, x, s[1..]);
      forall j | 0 <= j < |t| ensures leq(s[0], t[j]) {
        assert t[j] in t;
        if t[j] != x {
          var k :| 0 <= k < |s[1..]| && s[1..][k] == t[j];
          assert s[k + 1] == t[j];
        }
      }
    }
  }

  lemma {:induction false} SortSorted<T(!new)>(leq: (T, T) -> bool, s: seq<T>)
    requires TotalPreorder(leq)
    ensures Sorted(leq, Sort(leq, s))
  {
    if s != [] {
      SortSorted(leq, s[1..]);
      InsertSorted(leq, s[0], Sort(leq, s[1..]));
    }
  }

  lemma {:induction false} FilterAppend<T(!new)>(p: T -> bool, a: seq<T>, b: seq<T>)
    ensures Filter(p, a + b) == Filter(p, a) + Filter(p, b)
  {
    if a == [] {
      assert a + b == b;
    } else {
      assert a + b != [] && (a + b)[0] == a[0] && (a + b)[1..] == a[1..] + b;
      FilterAppend(p, a[1..], b);
    }
  }

  lemma {:induction false} InsertStable<T(!new)>(leq: (T, T) -> bool, p: T -> bool, x: T, s: seq<T>)
    requires forall y, z :: y in [x] + s && z in [x] + s && p(y) && p(z) ==> leq(y, z)
    ensures Filter(p, Insert(leq, x, s)) == Filter(p, [x] + s)
  {
    if s == [] || leq(x, s[0]) {
    } else {
      InsertStable(leq, p, x, s[1..]);
      var t := Insert(leq, x, s[1..]);
      assert Insert(leq, x, s) == [s[0]] + t;
      assert ([s[0]] + t)[1..] == t;
      assert ([x] + s)[1..] == s;
      assert ([x] + s[1..])[1..] == s[1..];
      if p(x) {
        assert x in [x] + s && s[0] in [x] + s;
        assert !p(s[0]);
      }
    }
  }

  /** Stability: elements the comparison does not tell apart keep their order. */
  lemma {:induction false} SortStable<T(!new)>(leq: (T, T) -> bool, p: T -> bool, s: seq<T>)
    requires forall y, z :: y in s && z in s && p(y) && p(z) ==> leq(y, z)
    ensures Filter(p, Sort(leq, s)) == Filter(p, s)
  {
    if s != [] {
      SortStable(leq, p, s[1..]);
      var t := Sort(leq, s[1..]);
      SortMembers(leq, s[1..]);
      assert s[0] in s;
      assert forall y :: y in s[1..] ==> y in s;
      assert forall y :: y in [s[0]] + t ==> y == s[0] || y in t;
      assert forall y :: y in [s[0]] + t ==> y in s;
      InsertStable(leq, p, s[0], t);
      assert ([s[0]] + t)[1..] == t;
    }
  }

  lemma {:induction false} FilterMultiset<T(!new)>(p: T -> bool, s: seq<T>, x: T)
    ensures multiset(Filter(p, s))[x] == if p(x) then multiset(s)[x] else 0
  {
    if s != [] {
      FilterMultiset(p, s[1..], x);
      assert s == [s[0]] + s[1..];
      assert multiset(s) == multiset{s[0]} + multiset(s[1..]);
    }
  }

  /** Filtering commutes with reordering. */
  lemma {:induction false} FilterPermuted<T(!new)>(p: T -> bool, a: seq<T>, b: seq<T>)
    requires multiset(a) == multiset(b)
    ensures multiset(Filter(p, a)) == multiset(Filter(p, b))
  {
    var m, n := multiset(Filter(p, a)), multiset(Filter(p, b));
    forall x ensures m[x] == n[x] {
      FilterMultiset(p, a, x);
      FilterMultiset(p, b, x);
    }
    assert m == n;
  }

  lemma {:induction false} FilterMembers<T(!new)>(p: T -> bool, s: seq<T>)
    ensures forall x :: x in Filter(p, s) <==> x in s && p(x)
    ensures |Filter(p, s)| <= |s|
  {
    if s != [] {
      FilterMembers(p, s[1..]);
    }
  }

  /** A sum over a sequence does not depend on its order. */
  function Sum<T>(f: T -> int, s: seq<T>): int {
    if s == [] then 0 else f(s[0]) + Sum(f, s[1..])
  }

  lemma {:induction false} SumAppend<T(!new)>(f: T -> int, a: seq<T>, b: seq<T>)
    ensures Sum(f, a + b) == Sum(f, a) + Sum(f, b)
  {
    if a == [] {
      assert a + b == b;
    } else {
      SumAppend(f, a[1..], b);
      assert (a + b)[1..] == a[1..] + b;
    }
  }

  lemma {:induction false} RemoveAtMultiset<T(!new)>(b: seq<T>, i: nat)
    requires i < |b|
    ensures multiset(b[..i] + b[i + 1..]) == multiset(b) - multiset{b[i]}
  {
    assert b == b[..i] + [b[i]] + b[i + 1..];
  }

  lemma {:induction false} SumMiddle<T(!new)>(f: T -> int, l: seq<T>, x: T, r: seq<T>)
    ensures Sum(f, l + ([x] + r)) == f(x) + Sum(f, l + r)
  {
    SumAppend(f, l, [x] + r);
    SumAppend(f, l, r);
    assert ([x] + r)[1..] == r;
  }

  /** Where a reordering has the first element, and what remains without it. */
  lemma {:induction false} PullFirst<T(!new)>(a: seq<T>, b: seq<T>) returns (i: nat)
    requires multiset(a) == multiset(b) && a != []
    ensures i < |b| && b[i] == a[0] && multiset(a[1..]) == multiset(b[..i] + b[i + 1..])
  {
    assert a[0] in multiset(b);
    i :| 0 <= i < |b| && b[i] == a[0];
    RemoveAtMultiset(b, i);
    RemoveAtMultiset(a, 0);
    assert a[..0] + a[1..] == a[1..];
  }

  lemma {:induction false} SumPermuted<T(!new)>(f: T -> int, a: seq<T>, b: seq<T>)
    requires multiset(a) == multiset(b)
    ensures Sum(f, a) == Sum(f, b)
    decreases |a|
  {
    if a == [] {
      assert |multiset(b)| == 0;
    } else {
      var i := PullFirst(a, b);
      assert b == b[..i] + ([b[i]] + b[i + 1..]);
      SumMiddle(f, b[..i], b[i], b[i + 1..]);
      SumPermuted(f, a[1..], b[..i] + b[i + 1..]);
    }
  }

  lemma {:induction false} SumSplit<T(!new)>(f: T -> int, p: T -> bool, s: seq<T>)
    ensures Sum(f, s) == Sum(f, Filter(p, s)) + Sum(f, Filter(Not(p), s))
  {
    if s != [] {
      SumSplit(f, p, s[1..]);
      var q := Not(p);
      if p(s[0]) {
        assert Filter(q, s) == Filter(q, s[1..]);
        assert Filter(p, s)[1..] == Filter(p, s[1..]);
      } else {
        assert Filter(p, s) == Filter(p, s[1..]);
        assert Filter(q, s)[1..] == Filter(q, s[1..]);
      }
    }
  }

  lemma {:induction false} SumMember<T(!new)>(f: T -> int, s: seq<T>, x: T)
    requires (forall y :: f(y) >= 0) && x in s
    ensures Sum(f, s) >= f(x)
  {
    if x != s[0] {
      SumMember(f, s[1..], x);
    } else {
      SumNonNegative(f, s[1..]);
    }
  }

  lemma {:induction false} SumNonNegative<T(!new)>(f: T -> int, s: seq<T>)
    requires forall y :: f(y) >= 0
    ensures Sum(f, s) >= 0
  {
    if s != [] {
      SumNonNegative(f, s[1..]);
    }
  }

  lemma {:induction false} FilterAll<T(!new)>(p: T -> bool, s: seq<T>)
    ensures (forall x :: x in s ==> p(x)) ==> Filter(p, s) == s
    ensures (forall x :: x in s ==> !p(x)) ==> Filter(p, s) == []
  {
    if s != [] {
      FilterAll(p, s[1..]);
      assert s == [s[0]] + s[1..];
    }
  }

  lemma {:induction false} FilterSorted<T(!new)>(leq: (T, T) -> bool, p: T -> bool, s: seq<T>)
    requires Sorted(leq, s)
    ensures Sorted(leq, Filter(p, s))
  {
    if s != [] {
      FilterSorted(leq, p, s[1..]);
      FilterMembers(p, s[1..]);
      var rest := Filter(p, s[1..]);
      forall j | 0 <= j < |rest| ensures leq(s[0], rest[j]) {
        assert rest[j] in s[1..];
        var k :| 0 <= k < |s[1..]| && s[1..][k] == rest[j];
        assert s[k + 1] == rest[j];
      }
    }
  }

  /** Sorting what is sorted changes nothing. */
  lemma {:induction false} SortOfSorted<T(!new)>(leq: (T, T) -> bool, s: seq<T>)
    requires Sorted(leq, s)
    ensures Sort(leq, s) == s
  {
    if s != [] {
      SortOfSorted(leq, s[1..]);
      if |s| > 1 {
        assert leq(s[0], s[1]);
      }
      assert s == [s[0]] + s[1..];
    }
  }

  lemma {:induction false} InsertCongruent<T(!new)>(leq: (T, T) -> bool, leq': (T, T) -> bool, x: T, s: seq<T>)
    requires forall y :: y in s ==> leq(x, y) == leq'(x, y)
    ensures Insert(leq, x, s) == Insert(leq', x, s)
  {
    if s != [] && !leq(x, s[0]) {
      InsertCongruent(leq, leq', x, s[1..]);
    }
  }

  /** Only the comparison's values on the elements matter. */
  lemma {:induction false} SortCongruent<T(!new)>(leq: (T, T) -> bool, leq': (T, T) -> bool, s: seq<T>)
    requires forall x, y :: x in s && y in s ==> leq(x, y) == leq'(x, y)
    ensures Sort(leq, s) == Sort(leq', s)
  {
    if s != [] {
      SortCongruent(leq, leq', s[1..]);
      SortMembers(leq', s[1..]);
      InsertCongruent(leq, leq', s[0], Sort(leq', s[1..]));
    }
  }

  ghost predicate Distinct<T>(s: seq<T>) { forall i, j :: 0 <= i < j < |s| ==> s[i] != s[j] }

  lemma {:induction false} DistinctPermuted<T(!new)>(a: seq<T>, b: seq<T>)
    requires multiset(a) == multiset(b) && Distinct(a)
    ensures Distinct(b)
  {
    forall i, j | 0 <= i < j < |b| ensures b[i] != b[j] {
      AtMostOnce(a, b[i]);
      if b[i] == b[j] {
        Twice(b, i, j);
        assert false;
      }
    }
  }

  lemma {:induction false} Twice<T(!new)>(b: seq<T>, i: nat, j: nat)
    requires i < j < |b| && b[i] == b[j]
    ensures multiset(b)[b[i]] >= 2
  {
    assert b == b[..i] + [b[i]] + b[i + 1..j] + [b[j]] + b[j + 1..];
  }

  lemma {:induction false} AtMostOnce<T(!new)>(a: seq<T>, x: T)
    requires Distinct(a)
    ensures multiset(a)[x] <= 1
  {
    if a != [] {
      AtMostOnce(a[1..], x);
      assert a == [a[0]] + a[1..];
      assert a[0] !in a[1..];
    }
  }

  lemma {:induction false} BoundedSet(s: set<nat>, n: nat)
    requires forall x :: x in s ==> x < n
    ensures |s| <= n
  {
    if n == 0 {
      assert s == {};
    } else {
      BoundedSet(s - {n - 1}, n - 1);
    }
  }
}
