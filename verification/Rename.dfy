/** Renaming the target of wiki links in a vault, against what the Markdown parser reads. */
module Rename {
  import opened Text

  // ---------------------------------------------------------------- the link pattern

  /** Length of `[[` or `![[` at the front. */
  function Opening(s: string): (k: nat)
    ensures k <= |s| && (k == 0 || k == 2 || k == 3)
  {
    if "![[" <= s then 3 else if "[[" <= s then 2 else 0
  }

  function RawOf(s: string): string { UpToFirst(']', s[Opening(s)..]) }

  /** Length of the link at the front, or 0: an opening, at least one character that is not
      `]`, and `]]`. */
  function MatchLength(s: string): (n: nat)
    ensures n <= |s| && (n > 0 ==> n == Opening(s) + |RawOf(s)| + 2 && Opening(s) > 0 && RawOf(s) != [])
  {
    var k, raw := Opening(s), RawOf(s);
    if k > 0 && raw != [] && "]]" <= s[k + |raw|..] then k + |raw| + 2 else 0
  }

  /** A line as the parser cuts it: links, and the text around them. */
  datatype Line = Tail(gap: string) | Seg(gap: string, embed: bool, raw: string, next: Line)

  function Prepend(c: char, l: Line): Line { l.(gap := [c] + l.gap) }

  function Scan(s: string): Line
    decreases |s|
  {
    if s == [] then Tail([])
    else
      var n := MatchLength(s);
      if n > 0 then Seg([], s[0] == '!', RawOf(s), Scan(s[n..])) else Prepend(s[0], Scan(s[1..]))
  }

  function Open(embed: bool): string { if embed then "![[" else "[[" }

  function Render(l: Line): string {
    match l
    case Tail(gap) => gap
    case Seg(gap, embed, raw, next) => gap + (Open(embed) + raw + "]]" + Render(next))
  }

  // ---------------------------------------------------------------- the parser's reading

  function UpToEscape(s: string): (head: string)
    ensures |head| <= |s| && (HasEscape(s) ==> |head| + 2 <= |s|)
  {
    if s == [] || "\\|" <= s then [] else [s[0]] + UpToEscape(s[1..])
  }

  predicate HasEscape(s: string) { s != [] && ("\\|" <= s || HasEscape(s[1..])) }

  datatype Link = Link(line: nat, target: string, alias: string, embed: bool)

  function Target(raw: string): string {
    var full := Strip(raw);
    Strip(if HasEscape(full) then UpToEscape(full) else UpToFirst('|', full))
  }

  function Alias(raw: string): string {
    var full := Strip(raw);
    if HasEscape(full) then Strip(full[|UpToEscape(full)| + 2..])
    else if '|' in full then Strip(full[|UpToFirst('|', full)| + 1..])
    else []
  }

  function LinksOf(l: Line, line: nat): seq<Link> {
    match l
    case Tail(_) => []
    case Seg(_, embed, raw, next) => [Link(line, Target(raw), Alias(raw), embed)] + LinksOf(next, line)
  }

  function BodyLength(s: string): (n: nat)
    ensures n <= |s|
  {
    if s == [] || IsLineBreak(s[0]) then 0 else 1 + BodyLength(s[1..])
  }

  function Body(line: string): string { line[..BodyLength(line)] }

  /** The wiki links of a text, line by line. */
  function ParseFrom(text: string, line: nat): seq<Link>
    decreases |text|
  {
    if text == [] then []
    else
      var n := LineLength(text);
      LinksOf(Scan(Body(text[..n])), line) + ParseFrom(text[n..], line + 1)
  }

  function Parse(text: string): seq<Link> { ParseFrom(text, 1) }

  // ---------------------------------------------------------------- the substitution

  /** What follows the target up to the closing: nothing, or a bar and an alias. */
  function Rest(t: string): string { if "|" <= t then UpToFirst(']', t) else [] }

  /** Length of a link to `src` at the front, or 0. */
  function OldLength(src: string, s: string): (n: nat)
    ensures n <= |s| && (n > 0 ==> n >= Opening(s) + |src| + 2)
  {
    var k := Opening(s);
    if k > 0 && src <= s[k..] then
      var t := s[k..][|src|..];
      if "]]" <= t[|Rest(t)|..] then k + |src| + |Rest(t)| + 2 else 0
    else 0
  }

  /** `pattern.sub(replacement, text)`: non-overlapping matches, leftmost first. */
  function Sub(src: string, dst: string, s: string): string
    decreases |s|
  {
    if s == [] then []
    else
      var n, k := OldLength(src, s), Opening(s);
      if n > 0 then s[..k] + dst + s[k + |src|..n] + Sub(src, dst, s[n..])
      else [s[0]] + Sub(src, dst, s[1..])
  }

  datatype File = Readable(text: string) | Unreadable

  function Rewritten(src: string, dst: string, f: File): File {
    match f case Readable(text) => Readable(Sub(src, dst, text)) case Unreadable => Unreadable
  }

  function Changed(src: string, dst: string, fs: seq<File>): nat {
    if fs == [] then 0
    else Changed(src, dst, fs[..|fs| - 1]) + if Rewritten(src, dst, fs[|fs| - 1]) != fs[|fs| - 1] then 1 else 0
  }

  lemma {:induction false} ChangedSnoc(src: string, dst: string, fs: seq<File>, i: nat)
    requires i < |fs|
    ensures Changed(src, dst, fs[..i + 1])
      == Changed(src, dst, fs[..i]) + if Rewritten(src, dst, fs[i]) != fs[i] then 1 else 0
  {
    assert fs[..i + 1][..i] == fs[..i];
  }

  class Vault {
    var files: seq<File>

    static method Rewrite(file: File, oldTarget: string, newTarget: string) returns (result: File, changed: bool)
      ensures result == Rewritten(oldTarget, newTarget, file) && (changed <==> result != file)
    {
      if file.Unreadable? {
        return file, false;
      }
      var newText := Sub(oldTarget, newTarget, file.text);
      return Readable(newText), newText != file.text;
    }

    /** Rewrites every readable file and says how many changed. */
    method RewriteWikiLinks(oldTarget: string, newTarget: string) returns (count: nat)
      modifies this`files
      ensures |files| == |old(files)|
      ensures forall i :: 0 <= i < |files| ==> files[i] == Rewritten(oldTarget, newTarget, old(files)[i])
      ensures count == Changed(oldTarget, newTarget, old(files))
    {
      count := 0;
      ghost var was := files;
      var i := 0;
      while i < |files|
        invariant i <= |files| == |was|
        invariant forall j :: 0 <= j < i ==> files[j] == Rewritten(oldTarget, newTarget, was[j])
        invariant forall j :: i <= j < |files| ==> files[j] == was[j]
        invariant count == Changed(oldTarget, newTarget, was[..i])
      {
        ChangedSnoc(oldTarget, newTarget, was, i);
        var file, changed := Rewrite(files[i], oldTarget, newTarget);
        if changed {
          files := files[i := file];
          count := count + 1;
        }
        i := i + 1;
      }
      assert was[..i] == was;
    }
  }

  // ---------------------------------------------------------------- what a caller can check

  /** A target without brackets, bars, back slashes, line breaks or padding. */
  predicate IsTarget(t: string) {
    && Trimmed(t)
    && forall i :: 0 <= i < |t| ==> t[i] !in "[]|\\" && !IsLineBreak(t[i])
  }

  predicate Occurs(part: string, s: string) { part <= s || (s != [] && Occurs(part, s[1..])) }

  /** `[[` followed by the target stands only where a link begins. */
  predicate CleanLine(t: string, s: string)
    decreases |s|
  {
    s == [] ||
      var n := MatchLength(s);
      if n > 0 then !Occurs("[[" + t, "[" + RawOf(s)) && CleanLine(t, s[n..])
      else !("[[" + t <= s) && CleanLine(t, s[1..])
  }

  predicate Clean(t: string, text: string)
    decreases |text|
  {
    text == [] || (CleanLine(t, Body(text[..LineLength(text)])) && Clean(t, text[LineLength(text)..]))
  }

  /** No match of the pattern begins in w, with z behind it. */
  predicate Silent(t: string, w: string, z: string) {
    w == [] || (OldLength(t, w + z) == 0 && Silent(t, w[1..], z))
  }

  /** No match of the pattern begins on the line elsewhere than at a link, with z behind it. */
  predicate ClearLine(t: string, s: string, z: string)
    decreases |s|
  {
    s == [] ||
      var n := MatchLength(s);
      if n > 0 then (Plainly(t, RawOf(s)) || Silent(t, s[..n], s[n..] + z)) && ClearLine(t, s[n..], z)
      else OldLength(t, s + z) == 0 && ClearLine(t, s[1..], z)
  }

  predicate Clear(t: string, text: string)
    decreases |text|
  {
    text == [] ||
      var n := LineLength(text);
      var b := Body(text[..n]);
      ClearLine(t, b, text[|b|..]) && Clear(t, text[n..])
  }

  /** The link is written `[[t]]` or `[[t|...]]`. */
  predicate Plainly(t: string, raw: string) { raw == t || t + "|" <= raw }

  /** Read as a link to `t` but padded or written with an escaped bar, or not read as one
      because its alias holds an escaped bar. */
  predicate Awkward(t: string, raw: string) {
    if Plainly(t, raw) then HasEscape(Strip(raw)) else Target(raw) == t
  }

  predicate AwkwardLine(t: string, l: Line) { l.Seg? && (Awkward(t, l.raw) || AwkwardLine(t, l.next)) }

  predicate HasAwkward(t: string, text: string)
    decreases |text|
  {
    text != [] &&
      (AwkwardLine(t, Scan(Body(text[..LineLength(text)]))) || HasAwkward(t, text[LineLength(text)..]))
  }

  predicate LinkedLine(t: string, l: Line) { l.Seg? && (Plainly(t, l.raw) || LinkedLine(t, l.next)) }

  /** Some link is written plainly to `t`. */
  predicate Linked(t: string, text: string)
    decreases |text|
  {
    text != [] && (LinkedLine(t, Scan(Body(text[..LineLength(text)]))) || Linked(t, text[LineLength(text)..]))
  }

  // ---------------------------------------------------------------- scanning and rendering

  function NewRaw(src: string, dst: string, raw: string): string {
    if Plainly(src, raw) then dst + raw[|src|..] else raw
  }

  function Map(src: string, dst: string, l: Line): Line {
    match l
    case Tail(_) => l
    case Seg(gap, embed, raw, next) => Seg(gap, embed, NewRaw(src, dst, raw), Map(src, dst, next))
  }

  predicate IsRaw(raw: string) { raw != [] && ']' !in raw }

  predicate RawsOk(l: Line) { l.Seg? ==> IsRaw(l.raw) && RawsOk(l.next) }

  lemma {:induction false} UpToFirstSplits(c: char, s: string)
    ensures c !in UpToFirst(c, s) && UpToFirst(c, s) <= s
    ensures |UpToFirst(c, s)| < |s| ==> s[|UpToFirst(c, s)|] == c
  {
    if s != [] && s[0] != c {
      UpToFirstSplits(c, s[1..]);
    }
  }

  lemma {:induction false} UpToFirstJoin(c: char, a: string, b: string)
    ensures c !in a ==> UpToFirst(c, a + b) == a + UpToFirst(c, b)
    ensures c in a ==> UpToFirst(c, a + b) == UpToFirst(c, a)
  {
    if a == [] {
      assert a + b == b;
    } else {
      assert (a + b)[1..] == a[1..] + b;
      if a[0] != c {
        UpToFirstJoin(c, a[1..], b);
      }
    }
  }

  lemma {:induction false} PrefixSplits(p: string, s: string)
    requires p <= s
    ensures s == p + s[|p|..]
  {
  }

  /** A match is an opening, the raw content and a closing. */
  lemma {:induction false} MatchSplits(s: string)
    requires MatchLength(s) > 0
    ensures IsRaw(RawOf(s)) && s == Open(s[0] == '!') + RawOf(s) + "]]" + s[MatchLength(s)..]
  {
    var k, raw := Opening(s), RawOf(s);
    UpToFirstSplits(']', s[k..]);
    OpeningSplits(s);
    PrefixSplits(raw, s[k..]);
    assert s[k..][|raw|..] == s[k + |raw|..];
    PrefixSplits("]]", s[k + |raw|..]);
    Regroup4(s, Open(s[0] == '!'), raw, "]]", s[MatchLength(s)..]);
  }

  lemma {:induction false} OpeningSplits(s: string)
    requires Opening(s) > 0
    ensures s == Open(s[0] == '!') + s[Opening(s)..] && |Open(s[0] == '!')| == Opening(s)
  {
    assert s[..Opening(s)] == Open(s[0] == '!');
  }

  lemma {:induction false} Regroup4(s: string, a: string, b: string, c: string, d: string)
    requires s == a + (b + (c + d))
    ensures s == a + b + c + d
  {
  }

  lemma {:induction false} OpenFront(embed: bool, x: string)
    ensures Opening(Open(embed) + x) == |Open(embed)| && (Open(embed) + x)[|Open(embed)|..] == x
    ensures (Open(embed) + x)[0] == '!' <==> embed
  {
    var s := Open(embed) + x;
    assert s[..|Open(embed)|] == Open(embed);
    assert s[0] == Open(embed)[0];
  }

  lemma {:induction false} RawRendered(embed: bool, raw: string, t: string)
    requires IsRaw(raw)
    ensures var s := Open(embed) + raw + "]]" + t;
      && Opening(s) == |Open(embed)| && RawOf(s) == raw && (s[0] == '!' <==> embed)
      && s[|Open(embed)| + |raw|..] == "]]" + t
  {
    var s := Open(embed) + raw + "]]" + t;
    var x := raw + [']'] + ("]" + t);
    assert s == Open(embed) + x;
    OpenFront(embed, x);
    UpToFirstOf(']', raw, "]" + t);
    assert x[|raw|..] == "]]" + t;
    assert s[|Open(embed)| + |raw|..] == x[|raw|..];
  }

  lemma {:induction false} MatchRendered(embed: bool, raw: string, t: string)
    requires IsRaw(raw)
    ensures var s := Open(embed) + raw + "]]" + t;
      && RawOf(s) == raw && MatchLength(s) == |Open(embed)| + |raw| + 2 && s[MatchLength(s)..] == t
        && (s[0] == '!' <==> embed)
  {
    var s := Open(embed) + raw + "]]" + t;
    RawRendered(embed, raw, t);
    assert s[|Open(embed)| + |raw|..][2..] == t;
  }

  lemma {:induction false} ScanParts(s: string)
    ensures Render(Scan(s)) == s && RawsOk(Scan(s))
    decreases |s|
  {
    if s != [] {
      var n := MatchLength(s);
      if n > 0 {
        MatchSplits(s);
        ScanParts(s[n..]);
      } else {
        ScanParts(s[1..]);
        RenderPrepend(s[0], Scan(s[1..]));
      }
    }
  }

  lemma {:induction false} RenderPrepend(c: char, l: Line)
    ensures Render(Prepend(c, l)) == [c] + Render(l)
  {
  }

  lemma {:induction false} OpeningOfPrefix(h: string, x: string)
    requires |h| >= 3
    ensures Opening(h + x) == Opening(h)
  {
    assert (h + x)[..3] == h[..3];
    assert (h + x)[..2] == h[..2];
  }

  /** Text before a link holds no match whatever the link's content. */
  lemma {:induction false} NoMatchLocal(h: string, embed: bool, raw: string, t: string, raw': string, t': string)
    requires h != [] && IsRaw(raw) && IsRaw(raw')
    requires MatchLength(h + (Open(embed) + raw + "]]" + t)) == 0
    ensures MatchLength(h + (Open(embed) + raw' + "]]" + t')) == 0
  {
    var p := h + Open(embed);
    var x, x' := h + (Open(embed) + raw + "]]" + t), h + (Open(embed) + raw' + "]]" + t');
    assert x == p + (raw + "]]" + t) && x' == p + (raw' + "]]" + t');
    OpeningOfPrefix(p, raw + "]]" + t);
    OpeningOfPrefix(p, raw' + "]]" + t');
    if Opening(p) > 0 {
      assert p[|p| - 1] == '[';
      if ']' in p[Opening(p)..] {
        ClosedBefore(p, raw + "]]" + t);
        ClosedBefore(p, raw' + "]]" + t');
      } else {
        LinkFromGap(h, embed, raw, t);
      }
    }
  }

  lemma {:induction false} SliceFront(p: string, z: string, k: nat)
    requires k <= |p|
    ensures (p + z)[k..] == p[k..] + z
  {
  }

  lemma {:induction false} ClosedBefore(p: string, z: string)
    requires |p| >= 3 && Opening(p) > 0 && ']' in p[Opening(p)..] && p[|p| - 1] != ']'
    ensures MatchLength(p + z) == MatchLength(p)
  {
    var k := Opening(p);
    var y := p[k..];
    OpeningOfPrefix(p, z);
    SliceFront(p, z, k);
    UpToFirstJoin(']', y, z);
    UpToFirstSplits(']', y);
    var n := k + |UpToFirst(']', y)|;
    assert p[n] == y[|UpToFirst(']', y)|] == ']';
    assert n + 1 < |p|;
    SliceFront(p, z, n);
    PrefixLocal("]]", p[n..], z);
  }

  lemma {:induction false} PrefixLocal(q: string, a: string, z: string)
    requires |q| <= |a|
    ensures q <= a + z <==> q <= a
  {
    assert (a + z)[..|q|] == a[..|q|];
  }

  /** An opening in the text before a link, with no bracket closed in between, takes the link
      as its content. */
  lemma {:induction false} LinkTextIs(embed: bool, raw: string, z: string)
    ensures Open(embed) + raw + "]]" + z == Open(embed) + (raw + "]]" + z)
  {
  }

  lemma {:induction false} CloseText(front: string, raw: string, t: string)
    ensures front + (raw + "]]" + t) == (front + raw) + [']'] + ("]" + t)
    ensures (front + (raw + "]]" + t))[|front + raw|..] == "]]" + t
  {
    var s := front + (raw + "]]" + t);
    assert s == (front + raw) + ("]]" + t);
  }

  lemma {:induction false} LinkFromGap(h: string, embed: bool, raw: string, t: string)
    requires h != [] && IsRaw(raw) && Opening(h + Open(embed)) > 0
    requires ']' !in (h + Open(embed))[Opening(h + Open(embed))..]
    ensures MatchLength(h + (Open(embed) + raw + "]]" + t)) > 0
  {
    var p, z := h + Open(embed), raw + "]]" + t;
    var k := Opening(p);
    LinkTextIs(embed, raw, t);
    Assoc(h, Open(embed), z);
    OpeningOfPrefix(p, z);
    SliceFront(p, z, k);
    CloseText(p[k..], raw, t);
    UpToFirstOf(']', p[k..] + raw, "]" + t);
    assert (p + z)[k..][|p[k..] + raw|..] == (p + z)[k + |p[k..] + raw|..];
  }

  lemma {:induction false} NewRawOk(src: string, dst: string, raw: string)
    requires IsTarget(dst) && IsRaw(raw)
    ensures IsRaw(NewRaw(src, dst, raw))
  {
  }

  lemma {:induction false} NoMatchStays(src: string, dst: string, c: char, l: Line)
    requires RawsOk(l) && IsTarget(dst) && MatchLength([c] + Render(l)) == 0
    ensures MatchLength([c] + Render(Map(src, dst, l))) == 0
  {
    if l.Seg? {
      var m := Map(src, dst, l);
      NewRawOk(src, dst, l.raw);
      Assoc([c], l.gap, Open(l.embed) + l.raw + "]]" + Render(l.next));
      Assoc([c], l.gap, Open(l.embed) + m.raw + "]]" + Render(m.next));
      NoMatchLocal([c] + l.gap, l.embed, l.raw, Render(l.next), m.raw, Render(m.next));
    }
  }

  /** A line with its links rewritten. */
  function NewBody(src: string, dst: string, b: string): string { Render(Map(src, dst, Scan(b))) }

  lemma {:induction false} NewBodyParts(src: string, dst: string, s: string)
    requires s != []
    ensures var n := MatchLength(s);
      NewBody(src, dst, s)
        == if n > 0 then Open(s[0] == '!') + NewRaw(src, dst, RawOf(s)) + "]]" + NewBody(src, dst, s[n..])
        else [s[0]] + NewBody(src, dst, s[1..])
  {
    if MatchLength(s) == 0 {
      RenderPrepend(s[0], Map(src, dst, Scan(s[1..])));
    }
  }

  /** Rewriting the links of a line leaves the parser's cuts where they were. */
  lemma {:induction false} ScanOfMap(src: string, dst: string, s: string)
    requires IsTarget(dst)
    ensures Scan(NewBody(src, dst, s)) == Map(src, dst, Scan(s))
    decreases |s|
  {
    if s != [] {
      NewBodyParts(src, dst, s);
      var n := MatchLength(s);
      if n > 0 {
        ScanOfMap(src, dst, s[n..]);
        MatchSplits(s);
        NewRawOk(src, dst, RawOf(s));
        ScanLink(s[0] == '!', NewRaw(src, dst, RawOf(s)), NewBody(src, dst, s[n..]));
      } else {
        ScanOfMap(src, dst, s[1..]);
        NoMatchFront(src, dst, s);
      }
    }
  }

  lemma {:induction false} HeadTail(w: string)
    requires w != []
    ensures w == [w[0]] + w[1..]
  {
  }

  lemma {:induction false} NoMatchFront(src: string, dst: string, s: string)
    requires IsTarget(dst) && s != [] && MatchLength(s) == 0
    ensures MatchLength([s[0]] + NewBody(src, dst, s[1..])) == 0
  {
    ScanParts(s[1..]);
    HeadTail(s);
    NoMatchStays(src, dst, s[0], Scan(s[1..]));
  }

  lemma {:induction false} ScanLink(embed: bool, raw: string, x: string)
    requires IsRaw(raw)
    ensures Scan(Open(embed) + raw + "]]" + x) == Seg([], embed, raw, Scan(x))
  {
    MatchRendered(embed, raw, x);
  }

}
