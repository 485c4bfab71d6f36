/** What splitting a text into lines or words means, and how numbers are written. */
module TextLaws {
  import opened Text
  import opened Utf8

  // ---------------------------------------------------------------- characters

  const LINE_BREAKS := "\n\U{B}\U{C}\r\U{1C}\U{1D}\U{1E}\U{85}\U{2028}\U{2029}"

  const OTHER_SPACES := "\t\U{1F} \U{A0}\U{1680}\U{2000}\U{2001}\U{2002}\U{2003}\U{2004}\U{2005}\U{2006}"
    + "\U{2007}\U{2008}\U{2009}\U{200A}\U{202F}\U{205F}\U{3000}"

  /** The ten characters lines end at, and the nineteen others that are white space. */
  lemma {:induction false} SpacesAre(c: char)
    ensures IsLineBreak(c) <==> c in LINE_BREAKS
    ensures IsSpace(c) <==> c in LINE_BREAKS || c in OTHER_SPACES
    ensures |LINE_BREAKS| == 10 && |OTHER_SPACES| == 19
  {
    LineBreaksAre(c);
    OtherSpacesAre(c);
  }

  lemma {:induction false} LineBreaksAre(c: char)
    ensures IsLineBreak(c) <==> c in LINE_BREAKS
  {
    if IsLineBreak(c) {
      var at := if c <= '\r' then c as int - 10 else if c <= '\U{1E}' then c as int - 24
                else if c == '\U{85}' then 7 else if c == '\U{2028}' then 8 else 9;
      assert LINE_BREAKS[at] == c;
    }
  }

  lemma {:induction false} OtherSpacesAre(c: char)
    ensures IsSpace(c) && !IsLineBreak(c) <==> c in OTHER_SPACES
  {
    if IsSpace(c) && !IsLineBreak(c) {
      var at := if c == '\t' then 0 else if c == '\U{1F}' then 1 else if c == ' ' then 2 else if c == '\U{A0}' then 3
                else if c == '\U{1680}' then 4 else if c <= '\U{200A}' then c as int - 0x2000 + 5
                else if c == '\U{202F}' then 16 else if c == '\U{205F}' then 17 else 18;
      assert OTHER_SPACES[at] == c;
    }
  }

  // ---------------------------------------------------------------- lines

  /** No line break before the end, but for the carriage return of a final CR LF. */
  predicate IsLine(l: string) {
    l != [] && forall j :: 0 <= j < |l| - 1 && IsLineBreak(l[j]) ==> j == |l| - 2 && l[j] == '\r' && l[j + 1] == '\n'
  }

  /** A line ends here when something follows. */
  predicate EndsBefore(l: string, rest: string) {
    l != [] && (rest == [] || (IsLineBreak(l[|l| - 1]) && !(l[|l| - 1] == '\r' && rest[0] == '\n')))
  }

  /** The parts are lines, each but the last ends in a line break, and no CR LF is cut. */
  predicate AreLines(parts: seq<string>) {
    && (forall i :: 0 <= i < |parts| ==> IsLine(parts[i]))
    && (forall i :: 0 <= i < |parts| - 1 ==> EndsBefore(parts[i], parts[i + 1]))
  }

  lemma {:induction false} FirstLine(s: string)
    requires s != []
    ensures var n := LineLength(s); IsLine(s[..n]) && EndsBefore(s[..n], s[n..])
  {
    var n := LineLength(s);
    if !(s[0] == '\r' && |s| > 1 && s[1] == '\n') && !IsLineBreak(s[0]) && |s| > 1 {
      FirstLine(s[1..]);
      LineWithFront(s[0], s[1..][..n - 1], s[n..]);
      assert s[..n] == [s[0]] + s[1..][..n - 1] && s[1..][n - 1..] == s[n..];
    }
  }

  lemma {:induction false} LineWithFront(c: char, l: string, rest: string)
    requires !IsLineBreak(c) && IsLine(l) && EndsBefore(l, rest)
    ensures IsLine([c] + l) && EndsBefore([c] + l, rest)
  {
    var m := [c] + l;
    forall j | 0 <= j < |m| - 1 && IsLineBreak(m[j]) ensures j == |m| - 2 && m[j] == '\r' && m[j + 1] == '\n' {
      assert m[j] == l[j - 1] && m[j + 1] == l[j];
    }
  }

  lemma {:induction false} FirstLineIs(l: string, rest: string)
    requires IsLine(l) && EndsBefore(l, rest)
    ensures LineLength(l + rest) == |l|
  {
    var s := l + rest;
    if !(s[0] == '\r' && |s| > 1 && s[1] == '\n') && !IsLineBreak(s[0]) && |l| > 1 {
      assert s[1..] == l[1..] + rest;
      forall j | 0 <= j < |l| - 2 && IsLineBreak(l[1..][j])
        ensures j == |l| - 3 && l[1..][j] == '\r' && l[1..][j + 1] == '\n'
      {
        assert l[1..][j] == l[j + 1] && l[1..][j + 1] == l[j + 2];
      }
      FirstLineIs(l[1..], rest);
    } else if |l| > 1 {
      assert s[0] == l[0] && s[1] == l[1];
    }
  }

  lemma {:induction false} LinesSplit(s: string)
    ensures AreLines(Lines(s)) && (s != [] ==> Lines(s) != [] && Lines(s)[0][0] == s[0])
    decreases |s|
  {
    if s != [] {
      var n := LineLength(s);
      FirstLine(s);
      LinesSplit(s[n..]);
      AreLinesCons(s[..n], Lines(s[n..]), s[n..]);
    }
  }

  lemma {:induction false} AreLinesCons(l: string, parts: seq<string>, rest: string)
    requires IsLine(l) && EndsBefore(l, rest) && AreLines(parts)
    requires (parts == [] <==> rest == []) && (parts != [] ==> parts[0] != [] && parts[0][0] == rest[0])
    ensures AreLines([l] + parts)
  {
    var all := [l] + parts;
    forall i | 0 <= i < |all| - 1 ensures EndsBefore(all[i], all[i + 1]) {
      if i > 0 {
        assert EndsBefore(parts[i - 1], parts[i]);
      }
    }
  }

  lemma {:induction false} LinesUnique(parts: seq<string>)
    requires AreLines(parts)
    ensures Lines(Join(parts)) == parts
  {
    if parts != [] {
      var l, rest := parts[0], parts[1..];
      forall i | 0 <= i < |rest| - 1 ensures EndsBefore(rest[i], rest[i + 1]) {
        assert EndsBefore(parts[i + 1], parts[i + 2]);
      }
      LinesUnique(rest);
      JoinStarts(rest);
      if rest != [] {
        assert EndsBefore(parts[0], parts[1]);
      }
      FirstLineIs(l, Join(rest));
      assert (l + Join(rest))[..|l|] == l && (l + Join(rest))[|l|..] == Join(rest);
    }
  }

  lemma {:induction false} JoinStarts(parts: seq<string>)
    requires AreLines(parts)
    ensures if parts == [] then Join(parts) == [] else Join(parts) != [] && Join(parts)[0] == parts[0][0]
  {
    if parts != [] {
      assert IsLine(parts[0]);
    }
  }

  /** The lines of a text are the one sequence of lines that joins to it. */
  lemma {:induction false} LinesExactly(s: string, parts: seq<string>)
    ensures Lines(s) == parts <==> AreLines(parts) && Join(parts) == s
  {
    LinesSplit(s);
    JoinLines(s);
    if AreLines(parts) && Join(parts) == s {
      LinesUnique(parts);
    }
  }

  // ---------------------------------------------------------------- words

  predicate IsWord(w: string) { w != [] && forall j :: 0 <= j < |w| ==> !IsSpace(w[j]) }

  /** Gaps and words by turns. */
  function Woven(gaps: seq<string>, words: seq<string>): string
    requires |gaps| == |words| + 1
  {
    if words == [] then gaps[0] else gaps[0] + (words[0] + Woven(gaps[1..], words[1..]))
  }

  /** Words with white space around them, and some between any two. */
  predicate AreWords(gaps: seq<string>, words: seq<string>) {
    && |gaps| == |words| + 1
    && (forall i :: 0 <= i < |words| ==> IsWord(words[i]))
    && (forall i :: 0 <= i < |gaps| ==> AllSpace(gaps[i]) && (0 < i < |words| ==> gaps[i] != []))
  }

  lemma {:induction false} SkipGap(gap: string, s: string)
    requires AllSpace(gap)
    ensures Words(gap + s) == Words(s)
  {
    if gap == [] {
      assert gap + s == s;
    } else {
      assert (gap + s)[1..] == gap[1..] + s;
      SkipGap(gap[1..], s);
    }
  }

  lemma {:induction false} WordThen(w: string, s: string)
    requires IsWord(w) && (s == [] || IsSpace(s[0]))
    ensures Words(w + s) == [w] + Words(s)
  {
    WordIsLong(w, s);
    assert (w + s)[..|w|] == w && (w + s)[|w|..] == s;
  }

  lemma {:induction false} WordIsLong(w: string, s: string)
    requires (forall j :: 0 <= j < |w| ==> !IsSpace(w[j])) && (s == [] || IsSpace(s[0]))
    ensures WordLength(w + s) == |w|
  {
    if w != [] {
      assert (w + s)[1..] == w[1..] + s;
      WordIsLong(w[1..], s);
    } else {
      assert w + s == s;
    }
  }

  /** However a text is written as words and gaps, the words are those the split gives. */
  lemma {:induction false} WordsUnique(gaps: seq<string>, words: seq<string>)
    requires AreWords(gaps, words)
    ensures Words(Woven(gaps, words)) == words
  {
    if words == [] {
      SkipGap(gaps[0], "");
      assert gaps[0] + "" == gaps[0];
    } else {
      var rest := Woven(gaps[1..], words[1..]);
      WordsUnique(gaps[1..], words[1..]);
      GapStarts(gaps[1..], words[1..]);
      WordThen(words[0], rest);
      SkipGap(gaps[0], words[0] + rest);
    }
  }

  lemma {:induction false} GapStarts(gaps: seq<string>, words: seq<string>)
    requires |gaps| == |words| + 1 && AllSpace(gaps[0]) && (words != [] ==> gaps[0] != [])
    ensures Woven(gaps, words) == [] || IsSpace(Woven(gaps, words)[0])
  {
  }

  /** And every text is written in that way. */
  lemma {:induction false} WordsExist(s: string) returns (gaps: seq<string>)
    ensures AreWords(gaps, Words(s)) && Woven(gaps, Words(s)) == s
    decreases |s|
  {
    if s == [] {
      gaps := [""];
    } else if IsSpace(s[0]) {
      gaps := WordsExist(s[1..]);
      WidenGap(s[0], gaps, Words(s));
      assert s == [s[0]] + s[1..];
      gaps := gaps[0 := [s[0]] + gaps[0]];
    } else {
      var n := WordLength(s);
      gaps := WordsExist(s[n..]);
      FirstWord(s, n);
      WeaveFront(s[..n], s[n..], gaps, Words(s[n..]));
      gaps := [""] + gaps;
    }
  }

  lemma {:induction false} FirstWord(s: string, n: nat)
    requires s != [] && !IsSpace(s[0]) && n == WordLength(s)
    ensures IsWord(s[..n]) && (s[n..] == [] || IsSpace(s[n..][0]))
    ensures Words(s) == [s[..n]] + Words(s[n..]) && s == s[..n] + s[n..] && |s[n..]| < |s|
  {
    WordLengthStops(s);
    CutIsWord(s, n);
    WordsStep(s, n);
  }

  lemma {:induction false} CutIsWord(s: string, n: nat)
    requires 0 < n <= |s| && (forall i :: 0 <= i < n ==> !IsSpace(s[i])) && (n < |s| ==> IsSpace(s[n]))
    ensures IsWord(s[..n]) && (s[n..] == [] || IsSpace(s[n..][0])) && s == s[..n] + s[n..]
  {
  }

  lemma {:induction false} WeaveFront(w: string, rest: string, gaps: seq<string>, words: seq<string>)
    requires IsWord(w) && AreWords(gaps, words) && Woven(gaps, words) == rest
    requires rest == [] || IsSpace(rest[0])
    ensures AreWords([""] + gaps, [w] + words) && Woven([""] + gaps, [w] + words) == w + rest
  {
    FirstGap(gaps, words);
    WeaveWord(w, gaps, words);
  }

  /** The words of a text are what stands between its gaps. */
  lemma {:induction false} WordsExactly(s: string, words: seq<string>)
    ensures Words(s) == words <==> exists gaps :: AreWords(gaps, words) && Woven(gaps, words) == s
  {
    if Words(s) == words {
      var gaps := WordsExist(s);
    }
    if gaps :| AreWords(gaps, words) && Woven(gaps, words) == s {
      WordsUnique(gaps, words);
    }
  }

  lemma {:induction false} WidenGap(c: char, gaps: seq<string>, words: seq<string>)
    requires AreWords(gaps, words) && IsSpace(c)
    ensures AreWords(gaps[0 := [c] + gaps[0]], words)
    ensures Woven(gaps[0 := [c] + gaps[0]], words) == [c] + Woven(gaps, words)
  {
    if words != [] {
      Assoc([c], gaps[0], words[0] + Woven(gaps[1..], words[1..]));
      assert gaps[0 := [c] + gaps[0]][1..] == gaps[1..];
    }
  }

  lemma {:induction false} FirstGap(gaps: seq<string>, words: seq<string>)
    requires AreWords(gaps, words)
    ensures words != [] && gaps[0] == [] ==> Woven(gaps, words) != [] && !IsSpace(Woven(gaps, words)[0])
  {
    if words != [] && gaps[0] == [] {
      assert IsWord(words[0]);
      assert Woven(gaps, words) == words[0] + Woven(gaps[1..], words[1..]);
    }
  }

  lemma {:induction false} WeaveWord(w: string, gaps: seq<string>, words: seq<string>)
    requires IsWord(w) && AreWords(gaps, words)
    requires words == [] || gaps[0] != []
    ensures AreWords([""] + gaps, [w] + words) && Woven([""] + gaps, [w] + words) == w + Woven(gaps, words)
  {
    var gs, ws := [""] + gaps, [w] + words;
    assert gs[1..] == gaps && ws[1..] == words;
    assert "" + (w + Woven(gaps, words)) == w + Woven(gaps, words);
  }

  // ---------------------------------------------------------------- stripping

  lemma {:induction false} StripLeftOf(a: string, s: string)
    requires AllSpace(a) && (s == [] || !IsSpace(s[0]))
    ensures StripLeft(a + s) == s
  {
    if a == [] {
      assert a + s == s;
    } else {
      assert (a + s)[1..] == a[1..] + s;
      StripLeftOf(a[1..], s);
    }
  }

  lemma {:induction false} StripRightOf(s: string, b: string)
    requires AllSpace(b) && (s == [] || !IsSpace(s[|s| - 1]))
    ensures StripRight(s + b) == s
  {
    if b == [] {
      assert s + b == s;
    } else {
      assert (s + b)[..|s + b| - 1] == s + b[..|b| - 1];
      StripRightOf(s, b[..|b| - 1]);
    }
  }

  /** Stripping leaves what stands between white space, however the text is cut. */
  lemma {:induction false} StripExactly(l: string, body: string, r: string)
    requires AllSpace(l) && AllSpace(r) && (body == [] || Trimmed(body))
    ensures Strip(l + body + r) == body
  {
    if body == [] {
      assert l + body + r == (l + r) + "";
      StripLeftOf(l + r, "");
    } else {
      assert l + body + r == l + (body + r);
      StripLeftOf(l, body + r);
      StripRightOf(body, r);
    }
  }

  // ---------------------------------------------------------------- line ends

  predicate IsPlain(s: string) { '\r' !in s && '\n' !in s }

  predicate IsLineEnd(s: string) { s == "\n" || s == "\r" || s == "\r\n" }

  /** Pieces with line ends between them; no carriage return stands alone before a line feed. */
  predicate AreEnded(pieces: seq<string>, ends: seq<string>) {
    && |pieces| == |ends| + 1
    && (forall i :: 0 <= i < |pieces| ==> IsPlain(pieces[i]))
    && (forall i :: 0 <= i < |ends| ==> IsLineEnd(ends[i]))
    && (forall i :: 0 <= i < |ends| - 1 && ends[i] == "\r" && ends[i + 1] == "\n" ==> pieces[i + 1] != [])
  }

  lemma {:induction false} PieceStays(piece: string, s: string)
    requires IsPlain(piece)
    ensures LineFeeds(piece + s) == piece + LineFeeds(s)
  {
    if piece == [] {
      assert piece + s == s && piece + LineFeeds(s) == LineFeeds(s);
    } else {
      assert (piece + s)[1..] == piece[1..] + s;
      PieceStays(piece[1..], s);
    }
  }

  lemma {:induction false} EndIsFed(end: string, s: string)
    requires IsLineEnd(end) && (end == "\r" ==> s == [] || s[0] != '\n')
    ensures LineFeeds(end + s) == "\n" + LineFeeds(s)
  {
    if end == "\r\n" {
      assert (end + s)[1..] == "\n" + s;
      assert ("\n" + s)[1..] == s;
    } else {
      assert (end + s)[1..] == s;
    }
  }

  function Feeds(n: nat): seq<string> { seq(n, _ => "\n") }

  /** Read in text mode, every line end of the three kinds is a line feed, and the rest is as it was. */
  lemma {:induction false} EndsAreFeeds(pieces: seq<string>, ends: seq<string>)
    requires AreEnded(pieces, ends)
    ensures LineFeeds(Woven(pieces, ends)) == Woven(pieces, Feeds(|ends|))
  {
    if ends == [] {
      PieceStays(pieces[0], "");
      assert pieces[0] + "" == pieces[0];
    } else {
      var rest := Woven(pieces[1..], ends[1..]);
      EndsAreFeeds(pieces[1..], ends[1..]);
      if ends[0] == "\r" {
        RestStarts(pieces, ends);
      }
      EndIsFed(ends[0], rest);
      PieceStays(pieces[0], ends[0] + rest);
      assert Feeds(|ends|)[1..] == Feeds(|ends| - 1);
    }
  }

  lemma {:induction false} RestStarts(pieces: seq<string>, ends: seq<string>)
    requires AreEnded(pieces, ends) && ends != [] && ends[0] == "\r"
    ensures var rest := Woven(pieces[1..], ends[1..]); rest == [] || rest[0] != '\n'
  {
    assert IsPlain(pieces[1]);
    if |ends| > 1 {
      assert pieces[1..][0] == pieces[1] && ends[1..][0] == ends[1];
      assert IsLineEnd(ends[1]);
    }
  }

  // ---------------------------------------------------------------- numbers

  function Power10(n: nat): nat { if n == 0 then 1 else 10 * Power10(n - 1) }

  /** A numeral's value by place: the front counts ten times for each digit behind it. */
  lemma {:induction false} ValueByPlace(a: string, b: string)
    requires AllDigits(a + b)
    ensures AllDigits(a) && AllDigits(b) && DigitsValue(a + b) == DigitsValue(a) * Power10(|b|) + DigitsValue(b)
  {
    DigitsInParts(a, b);
    if b == [] {
      assert a + b == a;
    } else {
      var front, last := b[..|b| - 1], b[|b| - 1];
      assert (a + b)[..|a + b| - 1] == a + front;
      ValueByPlace(a, front);
      Tenfold(DigitsValue(a), Power10(|front|));
    }
  }

  lemma {:induction false} DigitsInParts(a: string, b: string)
    requires AllDigits(a + b)
    ensures AllDigits(a) && AllDigits(b)
  {
    forall i | 0 <= i < |a| ensures IsDigit(a[i]) {
      assert (a + b)[i] == a[i];
    }
    forall i | 0 <= i < |b| ensures IsDigit(b[i]) {
      assert (a + b)[|a| + i] == b[i];
    }
  }

  lemma {:induction false} Tenfold(x: nat, p: nat)
    ensures x * p * 10 == x * (10 * p)
  {
  }

  const DIGITS := "0123456789"

  lemma {:induction false} DigitValues(d: nat)
    requires d < 10
    ensures AllDigits([DIGITS[d]]) && DigitsValue([DIGITS[d]]) == d
  {
    assert [DIGITS[d]][..0] == [];
  }

  predicate IsPlainNumeral(s: string) { s != [] && AllDigits(s) && (|s| > 1 ==> s[0] != '0') }

  lemma {:induction false} DecimalIsPlain(n: nat)
    ensures IsPlainNumeral(Decimal(n)) && (n > 0 ==> Decimal(n)[0] != '0')
  {
    if n >= 10 {
      DecimalIsPlain(n / 10);
    }
  }

  lemma {:induction false} ValueIsPositive(s: string)
    requires IsPlainNumeral(s) && s[0] != '0'
    ensures DigitsValue(s) > 0
  {
    if |s| > 1 {
      ValueIsPositive(s[..|s| - 1]);
    } else {
      assert s[..0] == [];
    }
  }

  /** A number is written as the one plain numeral that has its value. */
  lemma {:induction false} DecimalExactly(n: nat, s: string)
    ensures Decimal(n) == s <==> IsPlainNumeral(s) && DigitsValue(s) == n
  {
    DecimalIsPlain(n);
    DecimalRoundTrip(n);
    if IsPlainNumeral(s) && DigitsValue(s) == n {
      DecimalOfNumeral(s);
    }
  }

  lemma {:induction false} DecimalOfNumeral(s: string)
    requires IsPlainNumeral(s)
    ensures Decimal(DigitsValue(s)) == s
  {
    var front, d := s[..|s| - 1], s[|s| - 1] as int - '0' as int;
    if |s| > 1 {
      ValueIsPositive(front);
      DecimalOfNumeral(front);
      assert (DigitsValue(front) * 10 + d) / 10 == DigitsValue(front);
      assert (DigitsValue(front) * 10 + d) % 10 == d;
      assert s == front + [s[|s| - 1]];
    } else {
      assert front == [] && s == [s[0]];
    }
  }
}
