/** Strings: separators, decimal numbers, white space, words and lines as the program's
    string functions see them. */
module Text {

  // ---------------------------------------------------------------- separators

  function UpToFirst(c: char, s: string): (head: string)
    ensures |head| <= |s| && (c in s ==> |head| < |s|)
  {
    if s == [] || s[0] == c then [] else [s[0]] + UpToFirst(c, s[1..])
  }

  function AfterLast(c: char, s: string): string {
    if c !in s then s else AfterLast(c, s[1..])
  }

  lemma {:induction false} UpToFirstOf(c: char, a: string, x: string)
    requires c !in a
    ensures UpToFirst(c, a + [c] + x) == a
  {
    if a == [] {
      assert (a + [c] + x)[0] == c;
    } else {
      UpToFirstOf(c, a[1..], x);
      assert (a + [c] + x)[1..] == a[1..] + [c] + x;
    }
  }

  lemma {:induction false} AfterLastOf(c: char, a: string, x: string)
    requires c !in x
    ensures AfterLast(c, a + [c] + x) == x
  {
    var s := a + [c] + x;
    assert s[|a|] == c;
    if a == [] {
      assert s[1..] == x;
    } else {
      AfterLastOf(c, a[1..], x);
      assert s[1..] == a[1..] + [c] + x;
    }
  }

  /** A separator absent from both heads splits equal strings at the same place. */
  lemma {:induction false} SplitAtFirst(c: char, a: string, b: string, x: string, y: string)
    requires c !in a && c !in b && a + [c] + x == b + [c] + y
    ensures a == b && x == y
  {
    UpToFirstOf(c, a, x);
    UpToFirstOf(c, b, y);
    assert (a + [c] + x)[|a| + 1..] == x;
    assert (b + [c] + y)[|b| + 1..] == y;
  }

  /** A separator absent from both tails splits equal strings at the same place. */
  lemma {:induction false} SplitAtLast(c: char, a: string, b: string, x: string, y: string)
    requires c !in x && c !in y && a + [c] + x == b + [c] + y
    ensures a == b && x == y
  {
    AfterLastOf(c, a, x);
    AfterLastOf(c, b, y);
    var n := |a|;
    assert |a| == |b|;
    assert (a + [c] + x)[..n] == a;
    assert (b + [c] + y)[..n] == b;
  }

  // ---------------------------------------------------------------- decimal numbers

  function Digit(d: nat): char
    requires d < 10
  {
    ('0' as int + d) as char
  }

  predicate IsDigit(c: char) { '0' <= c <= '9' }

  predicate AllDigits(s: string) { forall i :: 0 <= i < |s| ==> IsDigit(s[i]) }

  function Decimal(n: nat): string {
    if n < 10 then [Digit(n)] else Decimal(n / 10) + [Digit(n % 10)]
  }

  function DigitsValue(s: string): nat
    requires AllDigits(s)
  {
    if s == [] then 0 else DigitsValue(s[..|s| - 1]) * 10 + (s[|s| - 1] as int - '0' as int)
  }

  /** Printing a number and reading it back. */
  lemma {:induction false} DecimalRoundTrip(n: nat)
    ensures Decimal(n) != [] && AllDigits(Decimal(n)) && DigitsValue(Decimal(n)) == n
  {
    if n >= 10 {
      DecimalRoundTrip(n / 10);
      var s := Decimal(n);
      assert s[..|s| - 1] == Decimal(n / 10);
    } else {
      assert Decimal(n)[..0] == [];
    }
  }

  function IntText(n: int): string { if n < 0 then "-" + Decimal(-n) else Decimal(n) }

  lemma {:induction false} IntTextInjective(m: int, n: int)
    requires IntText(m) == IntText(n)
    ensures m == n
  {
    DecimalRoundTrip(if m < 0 then -m else m);
    DecimalRoundTrip(if n < 0 then -n else n);
    assert (m < 0) == (IntText(m)[0] == '-');
    assert (n < 0) == (IntText(n)[0] == '-');
    if m < 0 {
      assert IntText(m)[1..] == Decimal(-m) && IntText(n)[1..] == Decimal(-n);
    }
  }

  lemma {:induction false} IntTextHasNoColon(n: int)
    ensures ':' !in IntText(n)
  {
    DecimalRoundTrip(if n < 0 then -n else n);
  }

  // ---------------------------------------------------------------- white space and words

  predicate IsLineBreak(c: char) {
    || '\U{0A}' <= c <= '\U{0D}' || '\U{1C}' <= c <= '\U{1E}' || c == '\U{85}' || c == '\U{2028}' || c == '\U{2029}'
  }

  predicate IsSpace(c: char) {
    || IsLineBreak(c) || c == '\U{09}' || c == '\U{1F}' || c == '\U{20}' || c == '\U{A0}' || c == '\U{1680}'
    || '\U{2000}' <= c <= '\U{200A}' || c == '\U{202F}' || c == '\U{205F}' || c == '\U{3000}'
  }

  predicate AllSpace(s: string) { forall i :: 0 <= i < |s| ==> IsSpace(s[i]) }

  function WordLength(s: string): (n: nat)
    ensures n <= |s| && (s != [] && !IsSpace(s[0]) ==> n > 0)
  {
    if s == [] || IsSpace(s[0]) then 0 else 1 + WordLength(s[1..])
  }

  /** `split()`: the maximal runs of characters that are not white space. */
  function Words(s: string): seq<string>
    decreases |s|
  {
    if s == [] then []
    else if IsSpace(s[0]) then Words(s[1..])
    else [s[..WordLength(s)]] + Words(s[WordLength(s)..])
  }

  function StripLeft(s: string): string {
    if s != [] && IsSpace(s[0]) then StripLeft(s[1..]) else s
  }

  function StripRight(s: string): string {
    if s != [] && IsSpace(s[|s| - 1]) then StripRight(s[..|s| - 1]) else s
  }

  function Strip(s: string): string { StripRight(StripLeft(s)) }

  predicate Trimmed(s: string) { s != [] && !IsSpace(s[0]) && !IsSpace(s[|s| - 1]) }

  lemma {:induction false} WordLengthAppend(a: string, b: string)
    requires WordLength(a) < |a| || b == [] || IsSpace(b[0])
    ensures WordLength(a + b) == WordLength(a)
  {
    if a == [] {
      assert a + b == b;
    } else if !IsSpace(a[0]) {
      assert (a + b)[1..] == a[1..] + b;
      WordLengthAppend(a[1..], b);
    }
  }

  lemma {:induction false} WordLengthStops(s: string)
    ensures WordLength(s) < |s| ==> IsSpace(s[WordLength(s)])
    ensures forall i :: 0 <= i < WordLength(s) ==> !IsSpace(s[i])
  {
    if s != [] && !IsSpace(s[0]) {
      WordLengthStops(s[1..]);
    }
  }

  lemma {:induction false} WordsStep(s: string, n: nat)
    requires n == WordLength(s) > 0
    ensures Words(s) == [s[..n]] + Words(s[n..])
  {
  }

  lemma {:induction false} FirstWordAppend(a: string, b: string, n: nat)
    requires n == WordLength(a) && 0 < n < |a|
    ensures Words(a + b) == [a[..n]] + Words(a[n..] + b)
  {
    WordLengthAppend(a, b);
    WordsStep(a + b, n);
    assert (a + b)[n..] == a[n..] + b && (a + b)[..n] == a[..n];
  }

  /** Words do not run across a boundary that has white space on its left. */
  lemma {:induction false} WordsAppend(a: string, b: string)
    requires a == [] || IsSpace(a[|a| - 1])
    ensures Words(a + b) == Words(a) + Words(b)
    decreases |a|
  {
    if a == [] {
      assert a + b == b;
    } else if IsSpace(a[0]) {
      WordsAppend(a[1..], b);
      SpaceInFront(a, b);
    } else {
      var n := WordLength(a);
      WordLengthStops(a);
      assert n < |a|;
      WordsAppend(a[n..], b);
      FirstWordAppend(a, b, n);
      WordsStep(a, n);
      Assoc([a[..n]], Words(a[n..]), Words(b));
    }
  }

  lemma {:induction false} SpaceInFront(a: string, b: string)
    requires a != [] && IsSpace(a[0])
    ensures Words(a + b) == Words(a[1..] + b) && Words(a) == Words(a[1..])
  {
    assert (a + b)[1..] == a[1..] + b;
  }

  lemma {:induction false} Assoc<T>(a: seq<T>, b: seq<T>, c: seq<T>)
    ensures a + (b + c) == a + b + c
  {
  }

  lemma {:induction false} WordsTrailing(a: string, b: string)
    requires AllSpace(b)
    ensures Words(a + b) == Words(a)
    decreases |a| + |b|
  {
    if a == [] {
      assert a + b == b;
      if b != [] {
        WordsTrailing([], b[1..]);
        assert [] + b[1..] == b[1..];
      }
    } else if IsSpace(a[0]) {
      assert (a + b)[1..] == a[1..] + b;
      WordsTrailing(a[1..], b);
    } else {
      var n := WordLength(a);
      WordLengthAppend(a, b);
      assert (a + b)[n..] == a[n..] + b && (a + b)[..n] == a[..n];
      WordsTrailing(a[n..], b);
    }
  }

  lemma {:induction false} StripLeftWords(s: string)
    ensures Words(StripLeft(s)) == Words(s)
  {
    if s != [] && IsSpace(s[0]) {
      StripLeftWords(s[1..]);
    }
  }

  lemma {:induction false} PutInFront(s: string, a: string, b: string)
    requires s != [] && s[1..] == a + b
    ensures s == [s[0]] + a + b
  {
    assert s == [s[0]] + s[1..];
  }

  lemma {:induction false} StripLeftSplits(s: string) returns (l: string)
    ensures AllSpace(l) && s == l + StripLeft(s)
    ensures StripLeft(s) == [] || !IsSpace(StripLeft(s)[0])
  {
    if s != [] && IsSpace(s[0]) {
      var rest := StripLeftSplits(s[1..]);
      l := [s[0]] + rest;
      PutInFront(s, rest, StripLeft(s[1..]));
    } else {
      l := [];
    }
  }

  lemma {:induction false} StripRightSplits(s: string) returns (r: string)
    ensures AllSpace(r) && s == StripRight(s) + r
    ensures StripRight(s) == [] || !IsSpace(StripRight(s)[|StripRight(s)| - 1])
  {
    if s != [] && IsSpace(s[|s| - 1]) {
      r := StripRightSplits(s[..|s| - 1]);
      r := r + [s[|s| - 1]];
    } else {
      r := [];
    }
  }

  lemma {:induction false} StripRightWords(s: string)
    ensures Words(StripRight(s)) == Words(s)
  {
    var r := StripRightSplits(s);
    WordsTrailing(StripRight(s), r);
  }

  /** Stripping leaves the words alone. */
  lemma {:induction false} StripWords(s: string)
    ensures Words(Strip(s)) == Words(s)
  {
    StripLeftWords(s);
    StripRightWords(StripLeft(s));
  }

  lemma {:induction false} Regroup(l: string, m: string, r: string, t: string, s: string)
    requires t == m + r && s == l + t
    ensures s == l + m + r
  {
  }

  /** Stripping takes white space, and nothing else, off both ends. */
  lemma {:induction false} StripSplits(s: string) returns (l: string, r: string)
    ensures AllSpace(l) && AllSpace(r) && s == l + Strip(s) + r
    ensures Strip(s) == [] || Trimmed(Strip(s))
  {
    var t := StripLeft(s);
    l := StripLeftSplits(s);
    r := StripRightSplits(t);
    Regroup(l, Strip(s), r, t, s);
    assert Strip(s) != [] ==> Strip(s)[0] == t[0];
  }

  ghost predicate Contains(text: string, part: string) {
    exists a: string, b: string :: text == a + part + b
  }

  lemma {:induction false} LeadingSpace(l: string, x: string, a: string, y: string)
    requires l + x == a + y && AllSpace(l) && y != [] && !IsSpace(y[0])
    ensures |l| <= |a| && x == a[|l|..] + y
  {
    var s := l + x;
    assert s == a + y;
    assert s[|a|] == y[0];
    assert forall k :: 0 <= k < |l| ==> s[k] == l[k];
    assert s[|l|..] == x;
    assert (a + y)[|l|..] == a[|l|..] + y;
  }

  lemma {:induction false} TrailingSpace(x: string, r: string, y: string, b: string)
    requires x + r == y + b && AllSpace(r) && y != [] && !IsSpace(y[|y| - 1])
    ensures |r| <= |b| && x == y + b[..|b| - |r|]
  {
    var s := x + r;
    assert s == y + b;
    assert s[|y| - 1] == y[|y| - 1];
    assert forall k :: |x| <= k < |s| ==> s[k] == r[k - |x|];
    assert s[..|x|] == x;
    assert (y + b)[..|x|] == y + b[..|b| - |r|];
  }

  /** A trimmed part of a text survives stripping the text. */
  lemma {:induction false} StripKeepsPart(a: string, part: string, b: string)
    requires Trimmed(part)
    ensures Contains(Strip(a + part + b), part)
  {
    var s := a + part + b;
    var l, r := StripSplits(s);
    var body := Strip(s);
    assert l + (body + r) == s;
    assert a + (part + b) == s;
    LeadingSpace(l, body + r, a, part + b);
    var a' := a[|l|..];
    assert a' + (part + b) == (a' + part) + b;
    TrailingSpace(body, r, a' + part, b);
    assert body == a' + part + b[..|b| - |r|];
  }

  // ---------------------------------------------------------------- lines

  /** Length of the first line with its line break. */
  function LineLength(s: string): (n: nat)
    ensures n <= |s| && (s != [] ==> n > 0)
  {
    if s == [] then 0
    else if s[0] == '\r' && |s| > 1 && s[1] == '\n' then 2
    else if IsLineBreak(s[0]) then 1
    else 1 + LineLength(s[1..])
  }

  /** `splitlines(keepends=True)` */
  function Lines(s: string): seq<string>
    decreases |s|
  {
    if s == [] then [] else [s[..LineLength(s)]] + Lines(s[LineLength(s)..])
  }

  function Join(parts: seq<string>): string {
    if parts == [] then [] else parts[0] + Join(parts[1..])
  }

  lemma {:induction false} JoinLines(s: string)
    ensures Join(Lines(s)) == s
    decreases |s|
  {
    if s != [] {
      JoinLines(s[LineLength(s)..]);
    }
  }

  lemma {:induction false} JoinAppend(a: seq<string>, b: seq<string>)
    ensures Join(a + b) == Join(a) + Join(b)
  {
    if a == [] {
      assert a + b == b;
    } else {
      assert (a + b)[1..] == a[1..] + b;
      JoinAppend(a[1..], b);
    }
  }

  lemma {:induction false} LineEnds(s: string)
    requires LineLength(s) < |s|
    ensures IsLineBreak(s[LineLength(s) - 1])
  {
    if !(s[0] == '\r' && |s| > 1 && s[1] == '\n') && !IsLineBreak(s[0]) {
      LineEnds(s[1..]);
    }
  }

  /** Every line but the last ends in a line break. */
  lemma {:induction false} LinesEnd(s: string, i: nat)
    requires i + 1 < |Lines(s)|
    ensures Lines(s)[i] != [] && IsLineBreak(Lines(s)[i][|Lines(s)[i]| - 1])
    decreases |s|
  {
    var n := LineLength(s);
    if i == 0 {
      assert s[n..] != [];
      LineEnds(s);
    } else {
      LinesEnd(s[n..], i - 1);
    }
  }
}
