/** Renaming preserves what the parser reads: for which texts, and what it undoes. */
module RenameLaws {
  import opened Text
  import opened Rename

  // ---------------------------------------------------------------- the substitution on one link

  lemma {:induction false} PrefixWithin(p: string, w: string, z: string)
    requires p <= w + z && (z == [] || z[0] !in p)
    ensures p <= w
  {
    assert z != [] ==> (w + z)[|w|] == z[0];
  }

  lemma {:induction false} SubAtTarget(src: string, embed: bool, r: string, z: string)
    requires ']' !in r
    ensures OldLength(src, Open(embed) + (src + (r + ("]]" + z))))
      == if r == [] || r[0] == '|' then |Open(embed)| + |src| + |r| + 2 else 0
  {
    var t := r + ("]]" + z);
    OpenFront(embed, src + t);
    RestOf(r, z);
  }

  /** At a link the substitution matches exactly the plain form of its target. */
  lemma {:induction false} SubAtLink(src: string, embed: bool, raw: string, z: string)
    requires IsRaw(raw) && IsTarget(src)
    ensures OldLength(src, Open(embed) + raw + "]]" + z) == if Plainly(src, raw) then |Open(embed)| + |raw| + 2 else 0
  {
    var x := raw + ("]]" + z);
    assert Open(embed) + raw + "]]" + z == Open(embed) + x;
    OpenFront(embed, x);
    assert ("]]" + z)[0] == ']';
    if src <= x {
      PrefixWithin(src, raw, "]]" + z);
      var r := raw[|src|..];
      PrefixSplits(src, raw);
      Assoc(src, r, "]]" + z);
      SubAtTarget(src, embed, r, z);
      PlainlyOf(src, r);
    } else if Plainly(src, raw) {
      PlainFront(src, raw, "]]" + z);
    }
  }

  lemma {:induction false} PlainFront(src: string, raw: string, y: string)
    requires Plainly(src, raw)
    ensures src <= raw + y
  {
    assert src <= raw <= raw + y;
  }

  lemma {:induction false} RestOf(r: string, z: string)
    requires ']' !in r
    ensures var t := r + ("]]" + z);
      if r == [] || r[0] == '|' then Rest(t) == r && "]]" <= t[|r|..] else Rest(t) == [] && !("]]" <= t)
  {
    var t := r + ("]]" + z);
    assert t == r + [']'] + ("]" + z);
    UpToFirstOf(']', r, "]" + z);
    assert t[|r|..] == "]]" + z;
    if r != [] {
      assert t[0] == r[0];
      assert "|" <= t <==> t[0] == '|';
    }
  }

  lemma {:induction false} PlainlyOf(src: string, r: string)
    ensures Plainly(src, src + r) <==> r == [] || r[0] == '|'
  {
    if r == [] {
      assert src + r == src;
    } else {
      assert (src + r)[..|src| + 1] == src + [r[0]];
      assert (src + "|")[|src|] == '|';
      assert r[0] == '|' ==> src + "|" == src + [r[0]];
    }
  }

  lemma {:induction false} NoOldHere(src: string, w: string, z: string)
    requires w != [] && !("[[" + src <= w) && (w[0] == '!' ==> !("[[" + src <= w[1..]))
    requires z == [] || z[0] !in "[[" + src
    ensures OldLength(src, w + z) == 0
  {
    if OldLength(src, w + z) > 0 {
      OldOpensWithin(src, w, z);
    }
  }

  lemma {:induction false} OpeningIs(s: string)
    ensures Opening(s) == 2 ==> "[[" <= s
    ensures Opening(s) == 3 ==> s[0] == '!' && "[[" <= s[1..] && s[1..][2..] == s[3..]
  {
    if Opening(s) == 3 {
      assert s[..3] == "![[";
      assert s[1..][..2] == s[..3][1..] == "[[";
    }
  }

  lemma {:induction false} PrefixJoin(p: string, q: string, s: string)
    requires p <= s && q <= s[|p|..]
    ensures p + q <= s
  {
  }

  lemma {:induction false} OldOpens(src: string, s: string)
    requires OldLength(src, s) > 0
    ensures "[[" + src <= s || (s[0] == '!' && "[[" + src <= s[1..])
  {
    OpeningIs(s);
    PrefixJoin("[[", src, if Opening(s) == 2 then s else s[1..]);
  }

  lemma {:induction false} OldOpensWithin(src: string, w: string, z: string)
    requires w != [] && OldLength(src, w + z) > 0 && (z == [] || z[0] !in "[[" + src)
    ensures "[[" + src <= w || (w[0] == '!' && "[[" + src <= w[1..])
  {
    OldOpens(src, w + z);
    EitherWithin("[[" + src, w, z);
  }

  lemma {:induction false} EitherWithin(p: string, w: string, z: string)
    requires w != [] && (p <= w + z || ((w + z)[0] == '!' && p <= (w + z)[1..])) && (z == [] || z[0] !in p)
    ensures p <= w || (w[0] == '!' && p <= w[1..])
  {
    if p <= w + z {
      PrefixWithin(p, w, z);
    } else {
      FrontOff(w, z);
      PrefixWithin(p, w[1..], z);
    }
  }

  lemma {:induction false} FrontOff(w: string, z: string)
    requires w != []
    ensures (w + z)[1..] == w[1..] + z && (w + z)[0] == w[0]
  {
  }

  lemma {:induction false} SubChar(src: string, dst: string, c: char, y: string)
    requires OldLength(src, [c] + y) == 0
    ensures Sub(src, dst, [c] + y) == [c] + Sub(src, dst, y)
  {
    assert ([c] + y)[1..] == y;
  }

  /** One more character in front of a text whose front part is known. */
  lemma {:induction false} SubFront(src: string, dst: string, c: char, x: string, z: string, r: string)
    requires OldLength(src, [c] + x + z) == 0 && Sub(src, dst, x + z) == r + Sub(src, dst, z)
    ensures Sub(src, dst, [c] + x + z) == [c] + r + Sub(src, dst, z)
  {
    Assoc([c], x, z);
    SubChar(src, dst, c, x + z);
    Assoc([c], r, Sub(src, dst, z));
  }

  lemma {:induction false} OccursNot(p: string, w: string)
    requires w != [] && !Occurs(p, w)
    ensures !(p <= w) && !(p <= w[1..]) && !Occurs(p, w[1..])
  {
  }

  /** Where no match begins the substitution copies. */
  lemma {:induction false} SubSilent(src: string, dst: string, w: string, z: string)
    requires Silent(src, w, z)
    ensures Sub(src, dst, w + z) == w + Sub(src, dst, z)
  {
    if w == [] {
      assert w + z == z;
    } else {
      SubSilent(src, dst, w[1..], z);
      HeadTail(w);
      SubFront(src, dst, w[0], w[1..], z, w[1..]);
    }
  }

  lemma {:induction false} SilentFront(src: string, c: char, x: string, z: string)
    requires OldLength(src, [c] + x + z) == 0 && Silent(src, x, z)
    ensures Silent(src, [c] + x, z)
  {
    assert ([c] + x)[1..] == x;
  }

  lemma {:induction false} SilentAppend(src: string, a: string, b: string, z: string)
    requires Silent(src, a, b + z) && Silent(src, b, z)
    ensures Silent(src, a + b, z)
  {
    if a == [] {
      assert a + b == b;
    } else {
      SilentAppend(src, a[1..], b, z);
      HeadTail(a);
      Assoc(a, b, z);
      Assoc([a[0]], a[1..], b);
      SilentFront(src, a[0], a[1..] + b, z);
    }
  }

  lemma {:induction false} SilentInside(src: string, w: string, z: string)
    requires !Occurs("[[" + src, w) && z != [] && z[0] !in "[[" + src
    ensures Silent(src, w, z)
  {
    if w != [] {
      OccursNot("[[" + src, w);
      SilentInside(src, w[1..], z);
      NoOldHere(src, w, z);
    }
  }

  predicate Inert(b: string) { forall i :: 0 <= i < |b| ==> b[i] != '[' && b[i] != '!' }

  lemma {:induction false} SilentInert(src: string, b: string, z: string)
    requires Inert(b)
    ensures Silent(src, b, z)
  {
    if b != [] {
      assert (b + z)[0] == b[0];
      SilentInert(src, b[1..], z);
    }
  }

  lemma {:induction false} Slices(o: string, m: string, r: string, z: string)
    ensures var s := o + (m + (r + z));
      s[..|o|] == o && s[|o|..] == m + (r + z) && s[|o| + |m|..|o| + |m| + |r|] == r && s[|o| + |m| + |r|..] == z
  {
    var s := o + (m + (r + z));
    assert s[|o|..] == m + (r + z);
    assert s[|o| + |m|..] == r + z;
    assert s[|o| + |m|..|o| + |m| + |r|] == (r + z)[..|r|];
    assert s[|o| + |m| + |r|..] == (r + z)[|r|..];
  }

  lemma {:induction false} SubAtMatch(src: string, dst: string, o: string, r: string, z: string)
    requires var s := o + (src + (r + z));
      OldLength(src, s) == |o| + |src| + |r| && OldLength(src, s) > 0 && Opening(s) == |o|
    ensures Sub(src, dst, o + (src + (r + z))) == o + dst + r + Sub(src, dst, z)
  {
    Slices(o, src, r, z);
  }

  lemma {:induction false} LinkText(o: string, src: string, r: string, z: string)
    ensures o + (src + r) + "]]" + z == o + (src + (r + "]]" + z))
  {
  }

  lemma {:induction false} SubPlain(src: string, dst: string, embed: bool, raw: string, z: string)
    requires IsRaw(raw) && IsTarget(src) && Plainly(src, raw)
    ensures Sub(src, dst, Open(embed) + raw + "]]" + z)
      == Open(embed) + NewRaw(src, dst, raw) + "]]" + Sub(src, dst, z)
  {
    SubAtLink(src, embed, raw, z);
    PrefixSplits(src, raw);
    SubPlainAt(src, dst, Open(embed), raw[|src|..], z);
  }

  lemma {:induction false} SubPlainAt(src: string, dst: string, o: string, r: string, z: string)
    requires OldLength(src, o + (src + r) + "]]" + z) == |o| + |src + r| + 2
    requires o == "[[" || o == "![["
    ensures Sub(src, dst, o + (src + r) + "]]" + z) == o + (dst + r) + "]]" + Sub(src, dst, z)
  {
    LinkText(o, src, r, z);
    OpenFront(o == "![[", src + (r + "]]" + z));
    SubAtMatch(src, dst, o, r + "]]", z);
    LinkText(o, dst, r, Sub(src, dst, z));
    Assoc(o + dst, r + "]]", Sub(src, dst, z));
    Assoc(o, dst, r + "]]" + Sub(src, dst, z));
  }

  // ---------------------------------------------------------------- the substitution on a line

  predicate NoBreaks(s: string) { forall i :: 0 <= i < |s| ==> !IsLineBreak(s[i]) }

  lemma {:induction false} EmbedExtends(s: string)
    requires s != [] && s[0] == '!' && "[[" <= s[1..] && MatchLength(s[1..]) > 0
    ensures MatchLength(s) > 0
  {
    assert s == "!" + s[1..];
    assert s[..3] == "![[";
    assert s[3..] == s[1..][2..];
    assert Opening(s[1..]) == 2;
    var k := 3 + |RawOf(s)|;
    assert s[k..] == s[1..][k - 1..];
  }

  lemma {:induction false} CleanChar(t: string, s: string)
    requires s != [] && CleanLine(t, s) && MatchLength(s) == 0
    ensures !("[[" + t <= s) && (s[0] == '!' ==> !("[[" + t <= s[1..]))
  {
    if s[0] == '!' && "[[" + t <= s[1..] {
      assert s[1..][..2] == "[[";
      if MatchLength(s[1..]) > 0 {
        EmbedExtends(s);
      }
    }
  }

  lemma {:induction false} SubLink(src: string, dst: string, s: string, y: string)
    requires IsTarget(src) && MatchLength(s) > 0
    requires Plainly(src, RawOf(s)) || Silent(src, s[..MatchLength(s)], s[MatchLength(s)..] + y)
    ensures var rest := s[MatchLength(s)..] + y;
      Sub(src, dst, s + y) == Open(s[0] == '!') + NewRaw(src, dst, RawOf(s)) + "]]" + Sub(src, dst, rest)
  {
    var n := MatchLength(s);
    var embed, raw, rest := s[0] == '!', RawOf(s), s[n..] + y;
    MatchSplits(s);
    Assoc(Open(embed) + raw + "]]", s[n..], y);
    if Plainly(src, raw) {
      SubPlain(src, dst, embed, raw, rest);
    } else {
      LinkFront(s);
      SubSilent(src, dst, s[..n], rest);
    }
  }

  lemma {:induction false} LinkFront(s: string)
    requires MatchLength(s) > 0
    ensures s[..MatchLength(s)] == Open(s[0] == '!') + RawOf(s) + "]]"
  {
    MatchSplits(s);
  }

  /** On a clear line the substitution rewrites exactly the parser's links, each on its own. */
  lemma {:induction false} SubLine(src: string, dst: string, s: string, z: string)
    requires IsTarget(src) && ClearLine(src, s, z)
    ensures Sub(src, dst, s + z) == NewBody(src, dst, s) + Sub(src, dst, z)
    decreases |s|
  {
    if s == [] {
      assert s + z == z;
    } else {
      NewBodyParts(src, dst, s);
      var n := MatchLength(s);
      if n > 0 {
        SubLine(src, dst, s[n..], z);
        SubLink(src, dst, s, z);
        Assoc(Open(s[0] == '!') + NewRaw(src, dst, RawOf(s)) + "]]", NewBody(src, dst, s[n..]), Sub(src, dst, z));
      } else {
        SubLine(src, dst, s[1..], z);
        HeadTail(s);
        SubFront(src, dst, s[0], s[1..], z, NewBody(src, dst, s[1..]));
      }
    }
  }

  // ---------------------------------------------------------------- clean lines are clear

  lemma {:induction false} OtherText(raw: string, z: string)
    ensures "[[" + raw + "]]" == ['['] + (("[" + raw) + "]]")
    ensures "[[" + raw + "]]" + z == ['['] + (("[" + raw) + "]]") + z
    ensures "![[" + raw + "]]" == ['!'] + ("[[" + raw + "]]")
    ensures "![[" + raw + "]]" + z == ['!'] + ("[[" + raw + "]]") + z
  {
  }

  lemma {:induction false} SilentOther(src: string, embed: bool, raw: string, z: string)
    requires IsRaw(raw) && IsTarget(src) && !Plainly(src, raw) && !Occurs("[[" + src, "[" + raw)
    ensures Silent(src, Open(embed) + raw + "]]", z)
  {
    var w := "[" + raw;
    SilentInside(src, w, "]]" + z);
    SilentInert(src, "]]", z);
    SilentAppend(src, w, "]]", z);
    OtherText(raw, z);
    SubAtLink(src, false, raw, z);
    SilentFront(src, '[', w + "]]", z);
    if embed {
      SubAtLink(src, true, raw, z);
      SilentFront(src, '!', "[[" + raw + "]]", z);
    }
  }

  lemma {:induction false} CleanLineIsClear(t: string, s: string, z: string)
    requires IsTarget(t) && CleanLine(t, s) && (z == [] || IsLineBreak(z[0]))
    ensures ClearLine(t, s, z)
    decreases |s|
  {
    if s != [] {
      var n := MatchLength(s);
      if n > 0 {
        CleanLineIsClear(t, s[n..], z);
        CleanLinkIsClear(t, s, s[n..] + z);
      } else {
        CleanLineIsClear(t, s[1..], z);
        NoOldOnLine(t, s, z);
      }
    }
  }

  lemma {:induction false} CleanLinkIsClear(t: string, s: string, y: string)
    requires IsTarget(t) && MatchLength(s) > 0 && !Occurs("[[" + t, "[" + RawOf(s))
    ensures Plainly(t, RawOf(s)) || Silent(t, s[..MatchLength(s)], y)
  {
    MatchSplits(s);
    LinkFront(s);
    if !Plainly(t, RawOf(s)) {
      SilentOther(t, s[0] == '!', RawOf(s), y);
    }
  }

  lemma {:induction false} NoOldOnLine(src: string, s: string, z: string)
    requires s != [] && IsTarget(src) && CleanLine(src, s) && MatchLength(s) == 0 && (z == [] || IsLineBreak(z[0]))
    ensures OldLength(src, s + z) == 0
  {
    CleanChar(src, s);
    NoOldHere(src, s, z);
  }

  // ---------------------------------------------------------------- a renamed line stays clean

  lemma {:induction false} OccursBehind(p: string, h: string, tail: string)
    requires p != [] && p[0] !in h
    ensures Occurs(p, h + tail) <==> Occurs(p, tail)
  {
    if h == [] {
      assert h + tail == tail;
    } else {
      assert (h + tail)[1..] == h[1..] + tail;
      assert (h + tail)[0] == h[0];
      OccursBehind(p, h[1..], tail);
    }
  }

  lemma {:induction false} OccursBehindTarget(t: string, u: string, tail: string)
    requires IsTarget(u)
    ensures Occurs("[[" + t, "[" + (u + tail)) <==> Occurs("[[" + t, tail)
  {
    var s := "[" + (u + tail);
    assert s[1..] == u + tail;
    assert s[1] == u[0];
    assert ("[[" + t)[1] == '[';
    OccursBehind("[[" + t, u, tail);
  }

  lemma {:induction false} CleanRaw(src: string, dst: string, t: string, raw: string)
    requires IsTarget(src) && IsTarget(dst) && !Occurs("[[" + t, "[" + raw)
    ensures !Occurs("[[" + t, "[" + NewRaw(src, dst, raw))
  {
    if Plainly(src, raw) {
      PrefixSplits(src, raw);
      OccursBehindTarget(t, src, raw[|src|..]);
      OccursBehindTarget(t, dst, raw[|src|..]);
    }
  }

  lemma {:induction false} InFront(q: string, p: string, z: string, z': string)
    requires q <= p + z && ']' !in q && ']' in p
    ensures q <= p + z'
  {
    var n :| 0 <= n < |p| && p[n] == ']';
    assert (p + z)[n] == ']';
    assert |q| <= n;
    PrefixLocal(q, p, z);
    PrefixLocal(q, p, z');
  }

  lemma {:induction false} CleanGap(t: string, h: string, embed: bool, raw: string, z: string, raw': string,
                                    z': string)
    requires IsTarget(t) && h != [] && IsRaw(raw)
    requires MatchLength(h + (Open(embed) + raw + "]]" + z)) == 0
    requires "[[" + t <= h + (Open(embed) + raw' + "]]" + z')
    ensures "[[" + t <= h + (Open(embed) + raw + "]]" + z)
  {
    var p, q := h + Open(embed), "[[" + t;
    Assoc(h, Open(embed), raw' + "]]" + z');
    Assoc(h, Open(embed), raw + "]]" + z);
    LinkTextIs(embed, raw, z);
    LinkTextIs(embed, raw', z');
    OpensAlike(q, p, raw' + "]]" + z');
    if ']' in p[2..] {
      InFront(q, p, raw' + "]]" + z', raw + "]]" + z);
    } else {
      LinkFromGap(h, embed, raw, z);
    }
  }

  lemma {:induction false} OpensAlike(q: string, p: string, z: string)
    requires |p| >= 3 && "[[" <= q && q <= p + z
    ensures Opening(p) == 2 && p[..2] == "[["
  {
    assert q[..2] == "[[" && (p + z)[..2] == q[..2] && p[..2] == (p + z)[..2];
    assert p[0] == '[';
  }

  lemma {:induction false} CleanCharStays(src: string, dst: string, t: string, c: char, l: Line)
    requires IsTarget(t) && RawsOk(l) && MatchLength([c] + Render(l)) == 0 && !("[[" + t <= [c] + Render(l))
    ensures !("[[" + t <= [c] + Render(Map(src, dst, l)))
  {
    if l.Seg? && "[[" + t <= [c] + Render(Map(src, dst, l)) {
      var m := Map(src, dst, l);
      Assoc([c], l.gap, Open(l.embed) + l.raw + "]]" + Render(l.next));
      Assoc([c], l.gap, Open(l.embed) + m.raw + "]]" + Render(m.next));
      CleanGap(t, [c] + l.gap, l.embed, l.raw, Render(l.next), m.raw, Render(m.next));
    }
  }

  lemma {:induction false} CleanStays(src: string, dst: string, t: string, s: string)
    requires IsTarget(src) && IsTarget(dst) && IsTarget(t) && CleanLine(t, s)
    ensures CleanLine(t, NewBody(src, dst, s))
    decreases |s|
  {
    if s != [] {
      NewBodyParts(src, dst, s);
      var n := MatchLength(s);
      if n > 0 {
        CleanStays(src, dst, t, s[n..]);
        CleanLinkStays(src, dst, t, s);
      } else {
        CleanStays(src, dst, t, s[1..]);
        CleanFrontStays(src, dst, t, s);
        CleanFront(t, s[0], NewBody(src, dst, s[1..]));
      }
    }
  }

  lemma {:induction false} CleanLinkStays(src: string, dst: string, t: string, s: string)
    requires IsTarget(src) && IsTarget(dst) && MatchLength(s) > 0 && CleanLine(t, s)
    requires CleanLine(t, NewBody(src, dst, s[MatchLength(s)..]))
    ensures CleanLine(t, Open(s[0] == '!') + NewRaw(src, dst, RawOf(s)) + "]]"
      + NewBody(src, dst, s[MatchLength(s)..]))
  {
    MatchSplits(s);
    NewRawOk(src, dst, RawOf(s));
    CleanRaw(src, dst, t, RawOf(s));
    CleanLink(t, s[0] == '!', NewRaw(src, dst, RawOf(s)), NewBody(src, dst, s[MatchLength(s)..]));
  }

  lemma {:induction false} CleanFrontStays(src: string, dst: string, t: string, s: string)
    requires IsTarget(dst) && IsTarget(t) && s != [] && MatchLength(s) == 0 && CleanLine(t, s)
    ensures MatchLength([s[0]] + NewBody(src, dst, s[1..])) == 0
    ensures !("[[" + t <= [s[0]] + NewBody(src, dst, s[1..]))
  {
    NoMatchFront(src, dst, s);
    ScanParts(s[1..]);
    assert [s[0]] + s[1..] == s;
    CleanCharStays(src, dst, t, s[0], Scan(s[1..]));
  }

  lemma {:induction false} CleanLink(t: string, embed: bool, raw: string, x: string)
    requires IsRaw(raw) && !Occurs("[[" + t, "[" + raw) && CleanLine(t, x)
    ensures CleanLine(t, Open(embed) + raw + "]]" + x)
  {
    MatchRendered(embed, raw, x);
  }

  lemma {:induction false} CleanFront(t: string, c: char, x: string)
    requires MatchLength([c] + x) == 0 && !("[[" + t <= [c] + x) && CleanLine(t, x)
    ensures CleanLine(t, [c] + x)
  {
    assert ([c] + x)[1..] == x;
  }

  // ---------------------------------------------------------------- texts and their lines

  /** What ends a line, and the text behind it. */
  predicate Ends(brk: string, rest: string) {
    && (forall i :: 0 <= i < |brk| ==> IsLineBreak(brk[i]))
    && (|brk| > 1 ==> brk == "\r\n")
    && (brk == [] ==> rest == [])
    && (brk == "\r" ==> rest == [] || rest[0] != '\n')
  }

  lemma {:induction false} LineLengthIs(s: string)
    ensures NoBreaks(s[..BodyLength(s)])
    ensures var m := BodyLength(s);
      LineLength(s) == if m == |s| then m
        else if s[m] == '\r' && m + 1 < |s| && s[m + 1] == '\n' then m + 2 else m + 1
    ensures BodyLength(s) < |s| ==> IsLineBreak(s[BodyLength(s)])
  {
    if s != [] && !IsLineBreak(s[0]) {
      LineLengthIs(s[1..]);
      assert s[..BodyLength(s)] == [s[0]] + s[1..][..BodyLength(s[1..])];
    }
  }

  lemma {:induction false} BodyOf(b: string, y: string)
    requires NoBreaks(b) && (y == [] || IsLineBreak(y[0]))
    ensures BodyLength(b + y) == |b| && Body(b + y) == b
  {
    if b == [] {
      assert b + y == y;
    } else {
      assert (b + y)[1..] == b[1..] + y;
      BodyOf(b[1..], y);
    }
  }

  lemma {:induction false} SplitText(text: string) returns (b: string, brk: string, rest: string)
    requires text != []
    ensures text == b + brk + rest && NoBreaks(b) && Ends(brk, rest) && b + brk != []
    ensures Body(text[..LineLength(text)]) == b && text[LineLength(text)..] == rest
  {
    var m, n := BodyLength(text), LineLength(text);
    LineLengthIs(text);
    b, brk, rest := text[..m], text[m..n], text[n..];
    assert text[..n] == b + brk;
    BodyOf(b, brk);
  }

  lemma {:induction false} JoinText(b: string, brk: string, rest: string)
    requires NoBreaks(b) && Ends(brk, rest)
    ensures var text := b + brk + rest;
      LineLength(text) == |b| + |brk| && Body(text[..LineLength(text)]) == b && text[LineLength(text)..] == rest
  {
    var text := b + brk + rest;
    assert text == b + (brk + rest);
    assert brk != [] ==> (brk + rest)[0] == brk[0];
    BodyOf(b, brk + rest);
    LineLengthIs(text);
    assert |brk| == 1 && rest != [] ==> text[|b| + 1] == rest[0];
    assert |brk| == 2 ==> text[|b|] == brk[0] && text[|b| + 1] == brk[1];
    assert |brk| == 1 ==> text[|b|] == brk[0] && brk == [brk[0]];
    assert text[..|b| + |brk|] == b + brk;
    BodyOf(b, brk);
  }

  lemma {:induction false} SubHead(src: string, dst: string, s: string)
    ensures Sub(src, dst, s) == [] <==> s == []
    ensures s != [] ==> Sub(src, dst, s)[0] == s[0]
  {
  }

  lemma {:induction false} MapNoBreaks(src: string, dst: string, l: Line)
    requires NoBreaks(Render(l)) && IsTarget(dst)
    ensures NoBreaks(Render(Map(src, dst, l)))
  {
    if l.Seg? {
      var head, all := l.gap + (Open(l.embed) + l.raw + "]]"), Render(l);
      assert all == head + Render(l.next);
      NoBreaksParts(head, Render(l.next));
      MapNoBreaks(src, dst, l.next);
      NoBreaksParts(l.gap, Open(l.embed) + l.raw + "]]");
      NoBreaksParts(Open(l.embed) + l.raw, "]]");
      NoBreaksParts(Open(l.embed), l.raw);
    }
  }

  lemma {:induction false} NoBreaksParts(a: string, b: string)
    ensures NoBreaks(a + b) <==> NoBreaks(a) && NoBreaks(b)
  {
    if NoBreaks(a + b) {
      assert forall i :: 0 <= i < |a| ==> a[i] == (a + b)[i];
      assert forall i :: 0 <= i < |b| ==> b[i] == (a + b)[|a| + i];
    }
  }

  lemma {:induction false} CleanStep(t: string, text: string, b: string, brk: string, rest: string)
    requires text == b + brk + rest && NoBreaks(b) && Ends(brk, rest) && text != []
    ensures Clean(t, text) <==> CleanLine(t, b) && Clean(t, rest)
    ensures Clear(t, text) <==> ClearLine(t, b, brk + rest) && Clear(t, rest)
  {
    JoinText(b, brk, rest);
    assert text[|b|..] == brk + rest;
  }

  /** A clear text is rewritten line by line, and its lines stay its lines. */
  lemma {:induction false} SubText(src: string, dst: string, text: string, b: string, brk: string, rest: string)
    requires IsTarget(src) && IsTarget(dst) && Clear(src, text) && text != []
    requires text == b + brk + rest && NoBreaks(b) && Ends(brk, rest)
    ensures Clear(src, rest)
    ensures Sub(src, dst, text) == NewBody(src, dst, b) + brk + Sub(src, dst, rest)
    ensures NoBreaks(NewBody(src, dst, b)) && Ends(brk, Sub(src, dst, rest))
  {
    CleanStep(src, text, b, brk, rest);
    Assoc(b, brk, rest);
    SubLine(src, dst, b, brk + rest);
    SilentInert(src, brk, rest);
    SubSilent(src, dst, brk, rest);
    Assoc(NewBody(src, dst, b), brk, Sub(src, dst, rest));
    SubHead(src, dst, rest);
    ScanParts(b);
    MapNoBreaks(src, dst, Scan(b));
  }

  lemma {:induction false} CleanIsClear(t: string, text: string)
    requires IsTarget(t) && Clean(t, text)
    ensures Clear(t, text)
    decreases |text|
  {
    if text != [] {
      var b, brk, rest := SplitText(text);
      CleanStep(t, text, b, brk, rest);
      CleanIsClear(t, rest);
      assert brk != [] ==> (brk + rest)[0] == brk[0];
      CleanLineIsClear(t, b, brk + rest);
    }
  }
}
