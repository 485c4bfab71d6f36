/** What the parser reads in a line, link by link, and how many files a rename changes. */
module RenameReadings {
  import opened Text
  import opened TextLaws
  import opened Rename
  import opened RenameLaws
  import opened RenamePreserves

  // ---------------------------------------------------------------- one link after the other

  lemma {:induction false} ParseLine(s: string)
    requires NoBreaks(s)
    ensures Parse(s) == LinksOf(Scan(s), 1)
  {
    assert s + "" + "" == s;
    ParseStep(s, s, "", "", 1);
    assert ParseFrom("", 2) == [];
  }

  /** A link at the front of a line is read first, embedded exactly when it is written with an
      exclamation mark, and then the rest of the line. */
  lemma {:induction false} LinkIsRead(embed: bool, raw: string, x: string)
    requires IsRaw(raw) && NoBreaks(raw) && NoBreaks(x)
    ensures Parse((if embed then "![[" else "[[") + raw + "]]" + x)
      == [Link(1, Target(raw), Alias(raw), embed)] + Parse(x)
  {
    var s := Open(embed) + raw + "]]" + x;
    NoBreaksParts(Open(embed) + raw + "]]", x);
    NoBreaksParts(Open(embed) + raw, "]]");
    NoBreaksParts(Open(embed), raw);
    MatchRendered(embed, raw, x);
    ParseLine(s);
    ParseLine(x);
  }

  /** A character no link begins with is passed over. */
  lemma {:induction false} GapIsSkipped(c: char, x: string)
    requires NoBreaks([c] + x) && c != '[' && c != '!'
    ensures Parse([c] + x) == Parse(x)
  {
    NoBreaksParts([c], x);
    assert ([c] + x)[1..] == x && ([c] + x)[0] == c;
    ParseLine([c] + x);
    ParseLine(x);
    PrependLinks(c, Scan(x));
  }

  lemma {:induction false} PrependLinks(c: char, l: Line)
    ensures LinksOf(Prepend(c, l), 1) == LinksOf(l, 1)
  {
  }

  // ---------------------------------------------------------------- targets and aliases

  lemma {:induction false} NoEscape(x: string)
    requires '\\' !in x
    ensures !HasEscape(x)
  {
    if x != [] {
      assert "\\|"[0] == '\\';
      NoEscape(x[1..]);
    }
  }

  lemma {:induction false} StripRightParts(x: string)
    ensures forall c :: c in StripRight(x) ==> c in x
  {
    var r := StripRightSplits(x);
    assert forall c :: c in StripRight(x) ==> c in StripRight(x) + r;
  }

  lemma {:induction false} StripTail(a: string)
    ensures StripRight("|" + a) == "|" + StripRight(a) && Strip(StripRight("|" + a)[1..]) == Strip(a)
  {
    StripRightBehind("|", a);
    assert StripRight("|" + a)[1..] == StripRight(a);
    StripBoth(a);
  }

  lemma {:induction false} StripBoth(a: string)
    ensures Strip(StripRight(a)) == Strip(a)
  {
    var r := StripRightSplits(a);
    var l, q := StripSplits(StripRight(a));
    var body := Strip(StripRight(a));
    assert a == l + body + (q + r);
    StripExactly(l, body, q + r);
  }

  /** The only link of a line. */
  lemma {:induction false} LoneLink(embed: bool, raw: string, target: string, alias: string)
    requires IsRaw(raw) && NoBreaks(raw) && Target(raw) == target && Alias(raw) == alias
    ensures Parse((if embed then "![[" else "[[") + raw + "]]") == [Link(1, target, alias, embed)]
  {
    LinkIsRead(embed, raw, "");
    assert Open(embed) + raw + "]]" + "" == Open(embed) + raw + "]]";
    assert Parse("") == [];
  }

  lemma {:induction false} RawParts(t: string, r: string)
    requires IsTarget(t) && NoBreaks(r) && ']' !in r
    ensures IsRaw(t + r) && NoBreaks(t + r)
  {
    NoBreaksParts(t, r);
  }

  lemma {:induction false} BarParts(a: string)
    requires NoBreaks(a)
    ensures NoBreaks("|" + a) && NoBreaks("\\|" + a)
  {
    NoBreaksParts("|", a);
    NoBreaksParts("\\|", a);
  }

  lemma {:induction false} BarReads(t: string, a: string)
    requires IsTarget(t) && '\\' !in a
    ensures Target(t + ("|" + a)) == t && Alias(t + ("|" + a)) == Strip(a)
  {
    var r := "|" + a;
    StripRightParts(r);
    NoEscape(StripRight(r));
    ReadPlain(t, r);
    AliasPlain(t, r);
    StripTail(a);
  }

  /** A link with an alias behind a bar: the target, and the alias without padding. */
  lemma {:induction false} AliasIsRead(embed: bool, t: string, a: string)
    requires IsTarget(t) && NoBreaks(a) && ']' !in a && '\\' !in a
    ensures Parse((if embed then "![[" else "[[") + (t + ("|" + a)) + "]]") == [Link(1, t, Strip(a), embed)]
  {
    BarReads(t, a);
    BarParts(a);
    RawParts(t, "|" + a);
    LoneLink(embed, t + ("|" + a), t, Strip(a));
  }

  lemma {:induction false} EscapedFull(t: string, y: string)
    requires IsTarget(t)
    ensures var full := t + ("\\|" + y);
      HasEscape(full) && UpToEscape(full) == t && full[|UpToEscape(full)| + 2..] == y
  {
    var x := "\\|" + y;
    assert "\\|" <= x && UpToEscape(x) == [];
    EscapeBehind(t, x);
    assert t + [] == t;
    assert (t + x)[|t| + 2..] == x[2..] == y;
  }

  lemma {:induction false} EscapedBarReads(t: string, a: string)
    requires IsTarget(t)
    ensures Target(t + ("\\|" + a)) == t && Alias(t + ("\\|" + a)) == Strip(a)
  {
    StripRightBehind("\\|", a);
    StripBehind(t, "\\|" + a);
    EscapedFull(t, StripRight(a));
    StripTarget(t);
    StripBoth(a);
  }

  /** A link whose bar is escaped is read alike, in the alias further bars included. */
  lemma {:induction false} EscapedAliasIsRead(embed: bool, t: string, a: string)
    requires IsTarget(t) && NoBreaks(a) && ']' !in a
    ensures Parse((if embed then "![[" else "[[") + (t + ("\\|" + a)) + "]]") == [Link(1, t, Strip(a), embed)]
  {
    EscapedBarReads(t, a);
    BarParts(a);
    RawParts(t, "\\|" + a);
    LoneLink(embed, t + ("\\|" + a), t, Strip(a));
  }

  // ---------------------------------------------------------------- how many files change

  /** The files that can be read and hold a match. */
  function ChangedFiles(src: string, dst: string, fs: seq<File>): set<nat> {
    set i: nat | i < |fs| && fs[i].Readable? && Sub(src, dst, fs[i].text) != fs[i].text
  }

  lemma {:induction false} OneMoreFile(src: string, dst: string, fs: seq<File>, f: File)
    ensures |ChangedFiles(src, dst, fs + [f])|
      == |ChangedFiles(src, dst, fs)| + if f.Readable? && Sub(src, dst, f.text) != f.text then 1 else 0
  {
    var all := fs + [f];
    assert ChangedFiles(src, dst, all)
      == ChangedFiles(src, dst, fs) + if f.Readable? && Sub(src, dst, f.text) != f.text then {|fs|} else {};
  }

  /** The count returned is the number of files whose text the substitution changes. */
  lemma {:induction false} CountIsChanged(src: string, dst: string, fs: seq<File>)
    ensures Changed(src, dst, fs) == |ChangedFiles(src, dst, fs)|
  {
    if fs == [] {
      assert ChangedFiles(src, dst, fs) == {};
    } else {
      var front, last := fs[..|fs| - 1], fs[|fs| - 1];
      assert fs == front + [last];
      CountIsChanged(src, dst, front);
      OneMoreFile(src, dst, front, last);
    }
  }
}
