/** What a rename means to the parser: which texts keep their meaning, what is left, and what
    renaming back restores. */
module RenamePreserves {
  import opened Text
  import opened Rename
  import opened RenameLaws

  // ---------------------------------------------------------------- one link

  lemma {:induction false} StripRightBehind(a: string, t: string)
    requires Trimmed(a)
    ensures StripRight(a + t) == a + StripRight(t)
  {
    if t != [] && IsSpace(t[|t| - 1]) {
      assert (a + t)[..|a + t| - 1] == a + t[..|t| - 1];
      StripRightBehind(a, t[..|t| - 1]);
    } else if t == [] {
      assert a + t == a;
      assert a + StripRight(t) == a;
    }
  }

  lemma {:induction false} StripBehind(a: string, t: string)
    requires Trimmed(a)
    ensures Strip(a + t) == a + StripRight(t)
  {
    StripRightBehind(a, t);
    assert (a + t)[0] == a[0];
  }

  lemma {:induction false} StripTarget(t: string)
    requires IsTarget(t)
    ensures Strip(t) == t
  {
    StripBehind(t, []);
    assert t + [] == t;
  }

  lemma {:induction false} EscapeStep(c: char, y: string)
    requires c != '\\'
    ensures HasEscape([c] + y) == HasEscape(y) && UpToEscape([c] + y) == [c] + UpToEscape(y)
  {
    var s := [c] + y;
    assert s[0] == c && s[1..] == y;
    assert "\\|"[0] == '\\';
  }

  lemma {:induction false} EscapeBehind(a: string, x: string)
    requires '\\' !in a
    ensures HasEscape(a + x) == HasEscape(x)
    ensures UpToEscape(a + x) == a + UpToEscape(x)
  {
    if a == [] {
      assert a + x == x;
    } else {
      EscapeBehind(a[1..], x);
      EscapeStep(a[0], a[1..] + x);
      Assoc([a[0]], a[1..], x);
      assert a == [a[0]] + a[1..];
      Assoc([a[0]], a[1..], UpToEscape(x));
    }
  }

  lemma {:induction false} TargetHasNone(t: string)
    requires IsTarget(t)
    ensures '\\' !in t && '|' !in t
  {
  }

  predicate IsRest(r: string) { r == [] || r[0] == '|' }

  /** How a plainly written link is read: split at the first bar, or at the first escaped one
      when there is one. */
  lemma {:induction false} ReadPlain(t: string, r: string)
    requires IsTarget(t) && IsRest(r)
    ensures Strip(t + r) == t + StripRight(r)
    ensures HasEscape(Strip(t + r)) == HasEscape(StripRight(r))
    ensures !HasEscape(StripRight(r)) ==> Target(t + r) == t
  {
    StripBehind(t, r);
    TargetHasNone(t);
    var x := StripRight(r);
    EscapeBehind(t, x);
    StripRightHead(r);
    if !HasEscape(x) {
      if x == [] {
        assert t + x == t;
        UpToFirstJoin('|', t, x);
        assert t + UpToFirst('|', x) == t;
      } else {
        UpToFirstJoin('|', t, x);
        assert t + UpToFirst('|', x) == t;
      }
      StripTarget(t);
    }
  }

  lemma {:induction false} StripRightHead(r: string)
    requires IsRest(r)
    ensures IsRest(StripRight(r))
  {
    if r != [] && IsSpace(r[|r| - 1]) {
      assert |r| > 1;
      StripRightHead(r[..|r| - 1]);
    }
  }

  lemma {:induction false} AfterEscape(t: string, x: string)
    requires IsTarget(t) && HasEscape(x)
    ensures HasEscape(t + x) && (t + x)[|UpToEscape(t + x)| + 2..] == x[|UpToEscape(x)| + 2..]
  {
    TargetHasNone(t);
    EscapeBehind(t, x);
  }

  lemma {:induction false} AfterBar(t: string, x: string)
    requires IsTarget(t) && x != [] && x[0] == '|'
    ensures '|' in t + x && (t + x)[|UpToFirst('|', t + x)| + 1..] == x[1..]
  {
    TargetHasNone(t);
    UpToFirstJoin('|', t, x);
    assert UpToFirst('|', x) == "";
    assert (t + x)[|t|] == '|';
  }

  lemma {:induction false} AliasEscaped(raw: string, t: string, x: string)
    requires Strip(raw) == t + x && IsTarget(t) && HasEscape(x)
    ensures Alias(raw) == Strip(x[|UpToEscape(x)| + 2..])
  {
    AfterEscape(t, x);
  }

  lemma {:induction false} AliasBarred(raw: string, t: string, x: string)
    requires Strip(raw) == t + x && IsTarget(t) && !HasEscape(t + x) && IsRest(x)
    ensures Alias(raw) == if x == [] then [] else Strip(x[1..])
  {
    if x == [] {
      TargetHasNone(t);
      assert t + x == t;
    } else {
      AfterBar(t, x);
    }
  }

  lemma {:induction false} AliasPlain(t: string, r: string)
    requires IsTarget(t) && IsRest(r)
    ensures var x := StripRight(r);
      Alias(t + r) == if HasEscape(x) then Strip(x[|UpToEscape(x)| + 2..]) else if x == [] then [] else Strip(x[1..])
  {
    var x := StripRight(r);
    ReadPlain(t, r);
    if HasEscape(x) {
      AliasEscaped(t + r, t, x);
    } else {
      StripRightHead(r);
      AliasBarred(t + r, t, x);
    }
  }

  /** An escaped bar in the alias hides the first bar from the parser: the target it reads
      begins with the written target and that bar. */
  lemma {:induction false} ReadEscaped(t: string, r: string)
    requires IsTarget(t) && IsRest(r) && HasEscape(StripRight(r))
    ensures t + "|" <= Target(t + r)
  {
    var x := StripRight(r);
    ReadPlain(t, r);
    TargetHasNone(t);
    EscapeBehind(t, x);
    StripRightHead(r);
    assert x[0] == '|' && UpToEscape(x)[0] == '|';
    var head := t + UpToEscape(x);
    assert head == t + "|" + UpToEscape(x)[1..];
    StripKeepsFront(t + "|", UpToEscape(x)[1..]);
  }

  lemma {:induction false} StripKeepsFront(a: string, z: string)
    requires Trimmed(a)
    ensures a <= Strip(a + z)
  {
    StripBehind(a, z);
  }

  lemma {:induction false} BarSplits(a: string, b: string, s: string)
    requires IsTarget(a) && IsTarget(b) && a + "|" <= s && b + "|" <= s
    ensures a == b
  {
    TargetHasNone(a);
    TargetHasNone(b);
    PrefixSplits(a + "|", s);
    PrefixSplits(b + "|", s);
    SplitAtFirst('|', a, b, s[|a| + 1..], s[|b| + 1..]);
  }

  lemma {:induction false} PlainlySplits(t: string, raw: string)
    requires Plainly(t, raw)
    ensures raw == t + raw[|t|..] && IsRest(raw[|t|..])
  {
    if raw != t {
      PrefixSplits(t + "|", raw);
      assert raw[|t|] == '|';
      assert t <= raw;
    }
    PrefixSplits(t, raw);
  }

  /** One link is renamed as its reading asks exactly when it is not awkward. */
  lemma {:induction false} RawExactly(src: string, dst: string, raw: string)
    requires IsTarget(src) && IsTarget(dst)
    ensures var raw' := NewRaw(src, dst, raw);
      (Target(raw') == (if Target(raw) == src then dst else Target(raw)) && Alias(raw') == Alias(raw))
      <==> src == dst || !Awkward(src, raw)
  {
    if Plainly(src, raw) {
      var r := raw[|src|..];
      PlainlySplits(src, raw);
      ReadPlain(src, r);
      ReadPlain(dst, r);
      AliasPlain(src, r);
      AliasPlain(dst, r);
      if HasEscape(StripRight(r)) {
        ReadEscaped(src, r);
        ReadEscaped(dst, r);
        if Target(src + r) == Target(dst + r) {
          BarSplits(src, dst, Target(src + r));
        }
      }
    }
  }

  // ---------------------------------------------------------------- lines and texts

  function RenameLink(src: string, dst: string, l: Link): Link {
    if l.target == src then l.(target := dst) else l
  }

  function RenameAll(src: string, dst: string, ls: seq<Link>): seq<Link> {
    if ls == [] then [] else [RenameLink(src, dst, ls[0])] + RenameAll(src, dst, ls[1..])
  }

  lemma {:induction false} RenameAppend(src: string, dst: string, a: seq<Link>, b: seq<Link>)
    ensures RenameAll(src, dst, a + b) == RenameAll(src, dst, a) + RenameAll(src, dst, b)
    ensures |RenameAll(src, dst, a)| == |a|
  {
    if a == [] {
      assert a + b == b;
    } else {
      assert (a + b)[1..] == a[1..] + b;
      RenameAppend(src, dst, a[1..], b);
    }
  }

  lemma {:induction false} AppendEqual<T>(a: seq<T>, b: seq<T>, c: seq<T>, d: seq<T>)
    requires |a| == |c|
    ensures a + b == c + d <==> a == c && b == d
  {
    if a + b == c + d {
      assert a == (a + b)[..|a|] == c;
      assert b == (a + b)[|a|..] == d;
    }
  }

  lemma {:induction false} LineExactly(src: string, dst: string, l: Line, line: nat)
    requires IsTarget(src) && IsTarget(dst)
    ensures LinksOf(Map(src, dst, l), line) == RenameAll(src, dst, LinksOf(l, line))
      <==> src == dst || !AwkwardLine(src, l)
    ensures |LinksOf(Map(src, dst, l), line)| == |LinksOf(l, line)|
  {
    if l.Seg? {
      var first := Link(line, Target(l.raw), Alias(l.raw), l.embed);
      var raw' := NewRaw(src, dst, l.raw);
      var first' := Link(line, Target(raw'), Alias(raw'), l.embed);
      var more := LinksOf(l.next, line);
      RawExactly(src, dst, l.raw);
      LineExactly(src, dst, l.next, line);
      assert ([first] + more)[1..] == more;
      AppendEqual([first'], LinksOf(Map(src, dst, l.next), line), [RenameLink(src, dst, first)],
        RenameAll(src, dst, more));
      assert [first'] == [RenameLink(src, dst, first)] <==> first' == RenameLink(src, dst, first);
    }
  }

  lemma {:induction false} ScanNewBody(src: string, dst: string, b: string)
    requires IsTarget(dst)
    ensures Scan(NewBody(src, dst, b)) == Map(src, dst, Scan(b))
  {
    ScanOfMap(src, dst, b);
  }

  lemma {:induction false} ParseStep(text: string, b: string, brk: string, rest: string, line: nat)
    requires text == b + brk + rest && NoBreaks(b) && Ends(brk, rest)
    ensures ParseFrom(text, line) == LinksOf(Scan(b), line) + ParseFrom(rest, line + 1)
  {
    JoinText(b, brk, rest);
    if text == [] {
      assert b == [] && rest == [];
    }
  }

  lemma {:induction false} RenameFrom(src: string, dst: string, text: string, line: nat)
    requires IsTarget(src) && IsTarget(dst) && Clear(src, text)
    ensures ParseFrom(Sub(src, dst, text), line) == RenameAll(src, dst, ParseFrom(text, line))
      <==> src == dst || !HasAwkward(src, text)
    decreases |text|
  {
    if text != [] {
      var b, brk, rest := SplitText(text);
      SubText(src, dst, text, b, brk, rest);
      ParseStep(text, b, brk, rest, line);
      ParseStep(Sub(src, dst, text), NewBody(src, dst, b), brk, Sub(src, dst, rest), line);
      ScanNewBody(src, dst, b);
      RenameFrom(src, dst, rest, line + 1);
      LineExactly(src, dst, Scan(b), line);
      RenameAppend(src, dst, LinksOf(Scan(b), line), ParseFrom(rest, line + 1));
      AppendEqual(LinksOf(Map(src, dst, Scan(b)), line), ParseFrom(Sub(src, dst, rest), line + 1),
                  RenameAll(src, dst, LinksOf(Scan(b), line)), RenameAll(src, dst, ParseFrom(rest, line + 1)));
    }
  }

  /** Over every text in which the pattern matches at links only: after the rename the parser
      reads the same links in the same order on the same lines with the same aliases and embed
      flags, and exactly the targets equal to the old name replaced, if and only if no link is
      awkward. */
  lemma {:induction false} RenameExactly(src: string, dst: string, text: string)
    requires IsTarget(src) && IsTarget(dst) && Clear(src, text)
    ensures Parse(Sub(src, dst, text)) == RenameAll(src, dst, Parse(text)) <==> src == dst || !HasAwkward(src, text)
  {
    RenameFrom(src, dst, text, 1);
  }

  // ---------------------------------------------------------------- what is left

  lemma {:induction false} CleanText(src: string, dst: string, t: string, text: string)
    requires IsTarget(src) && IsTarget(dst) && IsTarget(t) && Clean(src, text) && Clean(t, text)
    ensures Clean(t, Sub(src, dst, text))
    decreases |text|
  {
    if text != [] {
      var b, brk, rest := SplitText(text);
      CleanIsClear(src, text);
      CleanStep(src, text, b, brk, rest);
      CleanStep(t, text, b, brk, rest);
      SubText(src, dst, text, b, brk, rest);
      CleanStays(src, dst, t, b);
      CleanText(src, dst, t, rest);
      JoinText(NewBody(src, dst, b), brk, Sub(src, dst, rest));
    }
  }

  lemma {:induction false} PlainlyUnique(a: string, b: string, raw: string)
    requires IsTarget(a) && IsTarget(b) && Plainly(a, raw) && Plainly(b, raw)
    ensures a == b
  {
    TargetHasNone(a);
    TargetHasNone(b);
    assert (a + "|")[|a|] == '|' && (b + "|")[|b|] == '|';
    if raw != a && raw != b {
      BarSplits(a, b, raw);
    }
  }

  lemma {:induction false} MapLeavesNone(src: string, dst: string, l: Line)
    requires IsTarget(src) && IsTarget(dst) && src != dst
    ensures !LinkedLine(src, Map(src, dst, l))
  {
    if l.Seg? {
      MapLeavesNone(src, dst, l.next);
      var raw' := NewRaw(src, dst, l.raw);
      if Plainly(src, l.raw) {
        PlainlySplits(src, l.raw);
        if Plainly(src, raw') {
          PlainlyUnique(src, dst, raw');
        }
      }
    }
  }

  lemma {:induction false} NoneLeftText(src: string, dst: string, text: string)
    requires IsTarget(src) && IsTarget(dst) && src != dst && Clear(src, text)
    ensures !Linked(src, Sub(src, dst, text))
    decreases |text|
  {
    if text != [] {
      var b, brk, rest := SplitText(text);
      SubText(src, dst, text, b, brk, rest);
      NoneLeftText(src, dst, rest);
      ScanNewBody(src, dst, b);
      MapLeavesNone(src, dst, Scan(b));
      JoinText(NewBody(src, dst, b), brk, Sub(src, dst, rest));
    }
  }

  lemma {:induction false} MapChangesExactly(src: string, dst: string, l: Line)
    requires IsTarget(src) && IsTarget(dst) && src != dst
    ensures Map(src, dst, l) == l <==> !LinkedLine(src, l)
  {
    if l.Seg? {
      MapChangesExactly(src, dst, l.next);
      if Plainly(src, l.raw) {
        PlainlySplits(src, l.raw);
        if NewRaw(src, dst, l.raw) == l.raw {
          PlainlyUnique(src, dst, l.raw);
        }
      }
    }
  }

  lemma {:induction false} BodyChangesExactly(src: string, dst: string, b: string)
    requires IsTarget(src) && IsTarget(dst) && src != dst
    ensures NewBody(src, dst, b) == b <==> !LinkedLine(src, Scan(b))
  {
    ScanParts(b);
    ScanNewBody(src, dst, b);
    MapChangesExactly(src, dst, Scan(b));
  }

  /** Texts cut at the same kind of place are equal only part by part. */
  lemma {:induction false} PartsEqual(b: string, brk: string, rest: string, b': string, rest': string)
    requires NoBreaks(b) && NoBreaks(b') && Ends(brk, rest) && Ends(brk, rest')
    ensures b + brk + rest == b' + brk + rest' <==> b == b' && rest == rest'
  {
    JoinText(b, brk, rest);
    JoinText(b', brk, rest');
  }

  /** A file is rewritten exactly when it has a link written plainly to the old target. */
  lemma {:induction false} ChangedExactly(src: string, dst: string, text: string)
    requires IsTarget(src) && IsTarget(dst) && src != dst && Clear(src, text)
    ensures Sub(src, dst, text) != text <==> Linked(src, text)
    decreases |text|
  {
    if text != [] {
      var b, brk, rest := SplitText(text);
      SubText(src, dst, text, b, brk, rest);
      ChangedExactly(src, dst, rest);
      BodyChangesExactly(src, dst, b);
      PartsEqual(NewBody(src, dst, b), brk, Sub(src, dst, rest), b, rest);
    }
  }

  /** No match for the old target remains: renaming once more changes nothing. */
  lemma {:induction false} NoneLeft(src: string, dst: string, again: string, text: string)
    requires IsTarget(src) && IsTarget(dst) && IsTarget(again) && src != dst && again != src && Clean(src, text)
    ensures !Linked(src, Sub(src, dst, text))
    ensures Sub(src, again, Sub(src, dst, text)) == Sub(src, dst, text)
  {
    CleanIsClear(src, text);
    NoneLeftText(src, dst, text);
    CleanText(src, dst, src, text);
    CleanIsClear(src, Sub(src, dst, text));
    ChangedExactly(src, again, Sub(src, dst, text));
  }

  // ---------------------------------------------------------------- renaming back

  lemma {:induction false} MapBackExactly(src: string, dst: string, l: Line)
    requires IsTarget(src) && IsTarget(dst) && src != dst
    ensures Map(dst, src, Map(src, dst, l)) == l <==> !LinkedLine(dst, l)
  {
    if l.Seg? {
      MapBackExactly(src, dst, l.next);
      RawBackExactly(src, dst, l.raw);
    }
  }

  lemma {:induction false} RawBackExactly(src: string, dst: string, raw: string)
    requires IsTarget(src) && IsTarget(dst) && src != dst
    ensures NewRaw(dst, src, NewRaw(src, dst, raw)) == raw <==> !Plainly(dst, raw)
  {
    if Plainly(src, raw) {
      var r := raw[|src|..];
      PlainlySplits(src, raw);
      if Plainly(dst, raw) {
        PlainlyUnique(src, dst, raw);
      }
    } else if Plainly(dst, raw) {
      PlainlySplits(dst, raw);
    }
  }

  lemma {:induction false} BodyBackExactly(src: string, dst: string, b: string)
    requires IsTarget(src) && IsTarget(dst) && src != dst
    ensures NewBody(dst, src, NewBody(src, dst, b)) == b <==> !LinkedLine(dst, Scan(b))
  {
    ScanParts(b);
    ScanNewBody(src, dst, b);
    ScanNewBody(dst, src, NewBody(src, dst, b));
    MapBackExactly(src, dst, Scan(b));
  }

  lemma {:induction false} SubTwice(src: string, dst: string, text: string, b: string, brk: string, rest: string)
    requires IsTarget(src) && IsTarget(dst) && Clean(src, text) && Clean(dst, text) && text != []
    requires text == b + brk + rest && NoBreaks(b) && Ends(brk, rest)
    ensures Clean(src, rest) && Clean(dst, rest)
    ensures Sub(dst, src, Sub(src, dst, text))
      == NewBody(dst, src, NewBody(src, dst, b)) + brk + Sub(dst, src, Sub(src, dst, rest))
    ensures NoBreaks(NewBody(dst, src, NewBody(src, dst, b))) && Ends(brk, Sub(dst, src, Sub(src, dst, rest)))
  {
    CleanStep(src, text, b, brk, rest);
    CleanStep(dst, text, b, brk, rest);
    CleanIsClear(src, text);
    SubText(src, dst, text, b, brk, rest);
    CleanText(src, dst, dst, text);
    CleanIsClear(dst, Sub(src, dst, text));
    SubHead(src, dst, text);
    SubText(dst, src, Sub(src, dst, text), NewBody(src, dst, b), brk, Sub(src, dst, rest));
  }

  /** Renaming back restores the text if and only if nothing was plainly linked to the new
      target before. */
  lemma {:induction false} RenameBackExactly(src: string, dst: string, text: string)
    requires IsTarget(src) && IsTarget(dst) && src != dst && Clean(src, text) && Clean(dst, text)
    ensures Sub(dst, src, Sub(src, dst, text)) == text <==> !Linked(dst, text)
    decreases |text|
  {
    if text != [] {
      var b, brk, rest := SplitText(text);
      SubTwice(src, dst, text, b, brk, rest);
      RenameBackExactly(src, dst, rest);
      BodyBackExactly(src, dst, b);
      PartsEqual(NewBody(dst, src, NewBody(src, dst, b)), brk, Sub(dst, src, Sub(src, dst, rest)), b, rest);
    }
  }

  // ---------------------------------------------------------------- texts that are not clean

  lemma {:induction false} OldHasClose(t: string, s: string)
    requires OldLength(t, s) > 0
    ensures ']' in s
  {
    var k := Opening(s);
    var tail := s[k..][|t|..];
    PrefixSplits("]]", tail[|Rest(tail)|..]);
    assert tail[|Rest(tail)|] == ']';
  }

  lemma {:induction false} NoCloseIsClear(t: string, s: string, z: string)
    requires ']' !in s + z
    ensures ClearLine(t, s, z)
  {
    if s != [] {
      if MatchLength(s) > 0 {
        MatchHasClose(s);
      } else if OldLength(t, s + z) > 0 {
        OldHasClose(t, s + z);
      }
      assert s + z == [s[0]] + (s[1..] + z);
      NoCloseIsClear(t, s[1..], z);
    }
  }

  /** An opening never closed is left alone: a last line may hold any, even with the target. */
  lemma {:induction false} UnclosedLastLineIsClear(t: string, text: string)
    requires ']' !in text && NoBreaks(text)
    ensures Clear(t, text)
  {
    if text != [] {
      assert text + "" == text;
      NoCloseIsClear(t, text, "");
      OneLineIsClear(t, text);
    }
  }

  lemma {:induction false} OneLineIsClear(t: string, text: string)
    requires text != [] && NoBreaks(text) && ClearLine(t, text, "")
    ensures Clear(t, text)
  {
    assert text + "" + "" == text && "" + "" == "";
    CleanStep(t, text, text, "", "");
  }

  lemma {:induction false} MatchHasClose(s: string)
    requires MatchLength(s) > 0
    ensures ']' in s
  {
    MatchSplits(s);
    assert s[|Open(s[0] == '!') + RawOf(s)|] == ']';
  }

  lemma {:induction false} NoCloseNoLinks(s: string)
    requires ']' !in s
    ensures Scan(s) == Tail(s)
  {
    if s != [] {
      if MatchLength(s) > 0 {
        MatchHasClose(s);
      }
      NoCloseNoLinks(s[1..]);
    }
  }

  lemma {:induction false} ScanOne(raw: string)
    requires IsRaw(raw)
    ensures Scan("[[" + raw + "]]") == Seg([], false, raw, Tail([]))
  {
    MatchRendered(false, raw, "");
    assert Open(false) + raw + "]]" + "" == "[[" + raw + "]]";
  }

  lemma {:induction false} ParseOne(raw: string, line: nat)
    requires IsRaw(raw) && NoBreaks(raw)
    ensures ParseFrom("[[" + raw + "]]", line) == [Link(line, Target(raw), Alias(raw), false)]
  {
    var s := "[[" + raw + "]]";
    ScanOne(raw);
    NoBreaksParts("[[" + raw, "]]");
    NoBreaksParts("[[", raw);
    assert s + "" + "" == s;
    ParseStep(s, s, "", "", line);
    assert ParseFrom("", line + 1) == [];
  }

  lemma {:induction false} ReadTarget(t: string)
    requires IsTarget(t)
    ensures Target(t) == t && Alias(t) == []
  {
    assert t + [] == t;
    ReadPlain(t, []);
    AliasPlain(t, []);
  }

  lemma {:induction false} OpenLineParse(t: string, u: string)
    requires IsTarget(t) && IsTarget(u)
    ensures Parse("[[" + t + "|" + "\n" + ("[[" + u + "]]")) == [Link(2, u, "", false)]
  {
    OpenLineBody(t);
    NoLinksOnLine("[[" + t + "|", "[[" + u + "]]", 1);
    ParseTarget(u, 2);
  }

  lemma {:induction false} OpenLineBody(t: string)
    requires IsTarget(t)
    ensures NoBreaks("[[" + t + "|") && ']' !in "[[" + t + "|"
  {
    NoBreaksParts("[[" + t, "|");
    NoBreaksParts("[[", t);
  }

  lemma {:induction false} ParseTarget(u: string, line: nat)
    requires IsTarget(u)
    ensures ParseFrom("[[" + u + "]]", line) == [Link(line, u, "", false)]
  {
    ParseOne(u, line);
    ReadTarget(u);
  }

  lemma {:induction false} NoLinksOnLine(b: string, rest: string, line: nat)
    requires NoBreaks(b) && ']' !in b && rest != [] && rest[0] != '\n'
    ensures ParseFrom(b + "\n" + rest, line) == ParseFrom(rest, line + 1)
  {
    ParseStep(b + "\n" + rest, b, "\n", rest, line);
    NoCloseNoLinks(b);
  }

  /** An opening left open on one line takes a link on the next for its alias: whatever the
      targets, the parser still reads the old one afterwards. */
  lemma {:induction false} OpenLineShadowsLink(src: string, dst: string)
    requires IsTarget(src) && IsTarget(dst)
    ensures var text := "[[" + src + "|" + "\n" + ("[[" + src + "]]");
      Parse(Sub(src, dst, text)) == Parse(text) == [Link(2, src, "", false)]
  {
    OpenLineSub(src, dst);
    OpenLineParse(src, src);
    OpenLineParse(dst, src);
  }

  lemma {:induction false} OpenLineText(t: string, x: string)
    ensures "[[" + t + "|" + "\n" + (x + "]]") == "[[" + (t + ("|" + "\n" + x + "]]"))
  {
  }

  lemma {:induction false} OpenLineSub(src: string, dst: string)
    requires IsTarget(src) && IsTarget(dst)
    ensures Sub(src, dst, "[[" + src + "|" + "\n" + ("[[" + src + "]]"))
      == "[[" + dst + "|" + "\n" + ("[[" + src + "]]")
  {
    var x := "[[" + src;
    OpenLineText(src, x);
    OpenLineText(dst, x);
    OpenLineMatch(src, dst, "|" + "\n" + x);
  }

  lemma {:induction false} OpenLineMatch(src: string, dst: string, r: string)
    requires ']' !in r && r != [] && r[0] == '|'
    ensures Sub(src, dst, "[[" + (src + (r + "]]"))) == "[[" + (dst + (r + "]]"))
  {
    assert r + ("]]" + "") == r + "]]" + "" == r + "]]";
    SubAtTarget(src, false, r, "");
    OpenFront(false, src + (r + "]]"));
    SubAtMatch(src, dst, "[[", r + "]]", "");
    Assoc("[[", dst, r + "]]");
    assert "[[" + dst + (r + "]]") + "" == "[[" + dst + (r + "]]");
  }

  lemma {:induction false} ReadNoBar(raw: string)
    requires Trimmed(raw) && '|' !in raw && '\\' !in raw
    ensures Target(raw) == raw && Alias(raw) == []
  {
    StripBehind(raw, []);
    assert raw + [] == raw;
    EscapeBehind(raw, []);
    UpToFirstJoin('|', raw, []);
  }

  lemma {:induction false} NestedParse(t: string)
    requires IsTarget(t)
    ensures Parse("[[" + ("a[[" + t) + "]]") == [Link(1, "a[[" + t, "", false)]
  {
    NestedRaw("a[[" + t, t);
    ParseOne("a[[" + t, 1);
    ReadNoBar("a[[" + t);
  }

  lemma {:induction false} NestedRaw(raw: string, t: string)
    requires IsTarget(t) && raw == "a[[" + t
    ensures IsRaw(raw) && NoBreaks(raw) && Trimmed(raw) && '|' !in raw && '\\' !in raw
  {
    NoBreaksParts("a[[", t);
  }

  /** An opening inside a link: the parser reads another target, and the rename changes it. */
  lemma {:induction false} NestedLinkChanges(src: string, dst: string)
    requires IsTarget(src) && IsTarget(dst)
    ensures var text := "[[" + ("a[[" + src) + "]]";
      Parse(text) == [Link(1, "a[[" + src, "", false)]
        && Parse(Sub(src, dst, text)) == [Link(1, "a[[" + dst, "", false)]
  {
    NestedParse(src);
    NestedParse(dst);
    NestedSub(src, dst);
  }

  lemma {:induction false} NestedText(t: string)
    ensures "[[" + ("a[[" + t) + "]]" == ['['] + (['['] + (['a'] + ("[[" + t + "]]" + "")))
    ensures "[[" + ("a[[" + t) + "]]" == Open(false) + ("a[[" + t) + "]]" + ""
  {
  }

  lemma {:induction false} NestedSub(src: string, dst: string)
    requires IsTarget(src) && IsTarget(dst)
    ensures Sub(src, dst, "[[" + ("a[[" + src) + "]]") == "[[" + ("a[[" + dst) + "]]"
  {
    NestedText(src);
    NestedText(dst);
    PlainlyNot(src);
    SubAtLink(src, false, "a[[" + src, "");
    NestedFront(src, dst, "[[" + src + "]]" + "");
    SubPlain(src, dst, false, src, "");
    assert dst + src[|src|..] == dst;
  }

  lemma {:induction false} PlainlyNot(src: string)
    requires IsTarget(src)
    ensures !Plainly(src, "a[[" + src) && IsRaw("a[[" + src)
  {
    TargetHasNone(src);
    assert (src + "|")[|src|] == '|' && '|' !in "a[[" + src;
  }

  lemma {:induction false} NestedFront(src: string, dst: string, z: string)
    requires OldLength(src, ['['] + (['['] + (['a'] + z))) == 0
    ensures Sub(src, dst, ['['] + (['['] + (['a'] + z))) == ['['] + (['['] + (['a'] + Sub(src, dst, z)))
  {
    var y := ['a'] + z;
    SubChar(src, dst, '[', ['['] + y);
    assert (['['] + y)[1] == 'a';
    SubChar(src, dst, '[', y);
    SubChar(src, dst, 'a', z);
  }
}
