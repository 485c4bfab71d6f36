/** What the server makes of single lines and headers, in terms of their characters. */
module FramingLaws {
  import opened Options
  import opened Text
  import opened TextLaws
  import opened Framing

  // ---------------------------------------------------------------- JSON texts

  predicate AllJsonSpace(s: string) { forall i :: 0 <= i < |s| ==> s[i] in " \t\n\r" }

  predicate IsTight(s: string) { s == [] || (s[0] !in " \t\n\r" && s[|s| - 1] !in " \t\n\r") }

  lemma {:induction false} TrimLeftOf(a: string, s: string)
    requires AllJsonSpace(a) && (s == [] || s[0] !in " \t\n\r")
    ensures JsonTrimLeft(a + s) == s
  {
    if a == [] {
      assert a + s == s;
    } else {
      assert (a + s)[1..] == a[1..] + s;
      TrimLeftOf(a[1..], s);
    }
  }

  lemma {:induction false} TrimRightOf(s: string, b: string)
    requires AllJsonSpace(b) && (s == [] || s[|s| - 1] !in " \t\n\r")
    ensures JsonTrimRight(s + b) == s
  {
    if b == [] {
      assert s + b == s;
    } else {
      assert (s + b)[..|s + b| - 1] == s + b[..|b| - 1];
      TrimRightOf(s, b[..|b| - 1]);
    }
  }

  lemma {:induction false} AllTrimmed(a: string)
    requires AllJsonSpace(a)
    ensures JsonTrimRight(JsonTrimLeft(a)) == []
  {
    TrimLeftOf(a, "");
    assert a + "" == a;
  }

  /** JSON white space around a text makes no difference; what is left is a message or an error. */
  lemma {:induction false} LoadsExactly(isJson: JsonTest, a: string, m: string, b: string)
    requires AllJsonSpace(a) && AllJsonSpace(b) && IsTight(m)
    ensures Loads(isJson, a + m + b) == if isJson(m) then Some(Message(m)) else None
  {
    if m == [] {
      assert a + m + b == a + b;
      assert AllJsonSpace(a + b);
      AllTrimmed(a + b);
    } else {
      assert a + m + b == a + (m + b);
      TrimLeftOf(a, m + b);
      TrimRightOf(m, b);
    }
  }

  // ---------------------------------------------------------------- header names

  /** The name in small letters, in capitals, or mixed. */
  predicate IsName(name: string) {
    |name| == 14 && forall i :: 0 <= i < 14 ==> name[i] == "content-length"[i] || name[i] == "CONTENT-LENGTH"[i]
  }

  lemma {:induction false} LetterCase(c: char, i: nat)
    requires i < 14
    ensures LowerChar(c) == HEADER[i] <==> c == "content-length"[i] || c == "CONTENT-LENGTH"[i]
  {
    assert "CONTENT-LENGTH"[i] == '-' || (('A' <= "CONTENT-LENGTH"[i] <= 'Z')
      && "CONTENT-LENGTH"[i] as int + 32 == HEADER[i] as int);
    assert HEADER[i] == "content-length"[i];
    if LowerChar(c) == HEADER[i] && 'A' <= c <= 'Z' {
      assert c as int + 32 == HEADER[i] as int;
    }
  }

  /** A line is a header exactly when its first fourteen characters, leading white space aside, are
      the name in any letter case. */
  lemma {:induction false} HeaderExactly(line: string)
    ensures IsHeader(line) <==> |Strip(line)| >= 14 && IsName(Strip(line)[..14])
  {
    var name := Strip(line);
    if |name| >= 14 {
      forall i | 0 <= i < 14 ensures LowerChar(name[i]) == HEADER[i]
        <==> name[..14][i] == "content-length"[i] || name[..14][i] == "CONTENT-LENGTH"[i]
      {
        LetterCase(name[i], i);
      }
    }
  }

  lemma {:induction false} NameIsPlain(name: string)
    requires IsName(name)
    ensures ':' !in name && '\n' !in name && Trimmed(name)
  {
    assert forall i :: 0 <= i < 14 ==> "content-length"[i] != ':' && "CONTENT-LENGTH"[i] != ':';
    assert forall i :: 0 <= i < 14 ==> !IsSpace("content-length"[i]) && !IsSpace("CONTENT-LENGTH"[i]);
    forall i | 0 <= i < 14 ensures name[i] != ':' && name[i] != '\n' && !IsSpace(name[i]) {
    }
  }

  lemma {:induction false} NamedLine(name: string, tail: string)
    requires IsName(name) && '\n' !in tail
    ensures var line := name + ":" + tail + "\n";
      IsHeader(line) && Strip(line) != [] && AfterColon(line) == Some(tail + "\n") && '\n' !in name + ":" + tail
  {
    var line := name + ":" + tail + "\n";
    NameIsPlain(name);
    assert line == name + (":" + tail + "\n");
    StripKeepsHead(name, ":" + tail + "\n");
    assert Strip(line)[..14] == name;
    HeaderExactly(line);
    assert line == name + [':'] + (tail + "\n");
    UpToFirstOf(':', name, tail + "\n");
    assert line[|name|] == ':' && line[|name| + 1..] == tail + "\n";
  }

  // ---------------------------------------------------------------- numbers

  lemma {:induction false} SignedNumeral(s: string)
    requires s != [] && AllDigits(s)
    ensures IsNumeral(s) && OnlyDigits(s) == s && Trimmed(s) && s[0] != '-' && s[0] != '+'
  {
    OnlyDigitsOf(s);
  }

  lemma {:induction false} ParseStripped(s: string, d: string, negative: bool)
    requires d != [] && AllDigits(d) && Strip(s) == if negative then "-" + d else d
    ensures var n: int := DigitsValue(d); ParseInt(s) == Some(if negative then -n else n)
  {
    SignedNumeral(d);
    assert negative ==> ("-" + d)[1..] == d;
  }

  lemma {:induction false} NumberIsTrimmed(n: int)
    ensures var d := Decimal(if n < 0 then -n else n);
      && d != [] && AllDigits(d) && DigitsValue(d) == (if n < 0 then -n else n)
      && IntText(n) == (if n < 0 then "-" + d else d) && Trimmed(IntText(n))
  {
    DecimalRoundTrip(if n < 0 then -n else n);
    SignedNumeral(Decimal(if n < 0 then -n else n));
  }

  /** A number is read as it is written, sign included, whatever white space is around it. */
  lemma {:induction false} NumberIsRead(n: int, a: string, b: string)
    requires AllSpace(a) && AllSpace(b)
    ensures ParseInt(a + IntText(n) + b) == Some(n)
  {
    NumberIsTrimmed(n);
    StripExactly(a, IntText(n), b);
    ParseStripped(a + IntText(n) + b, Decimal(if n < 0 then -n else n), n < 0);
  }

  /** Not a digit, an underscore, a sign or white space. */
  predicate IsStray(c: char) { !IsDigit(c) && c !in "_+-" && !IsSpace(c) }

  lemma {:induction false} StrayIsNoNumber(s: string)
    requires exists c :: c in s && IsStray(c)
    ensures ParseInt(s) == None
  {
    var l, r := StripSplits(s);
    var t := Strip(s);
    var c :| c in s && IsStray(c);
    assert c in l + t + r;
    assert c !in l && c !in r;
    var k :| 0 <= k < |t| && t[k] == c;
    var signed := t[0] == '-' || t[0] == '+';
    var digits := if signed then t[1..] else t;
    assert digits[if signed then k - 1 else k] == c;
  }

  // ---------------------------------------------------------------- reading

  /** A line that is neither blank nor a header is one message, or an error when it is no JSON text;
      either way what follows is left for the next read. */
  lemma {:induction false} LineIsRead(isJson: JsonTest, a: string, m: string, b: string, rest: string, lspMode: bool)
    requires AllJsonSpace(a) && AllJsonSpace(b) && IsTight(m) && '\n' !in a + m + b
    requires Strip(a + m + b) != [] && !IsHeader(a + m + b + "\n")
    ensures ReadFrom(isJson, a + m + b + "\n" + rest, lspMode)
      == Read(if isJson(m) then Some(Message(m)) else None, rest, lspMode)
  {
    var line := a + m + b;
    LineOf(line, rest);
    BlankAfterBreak(line);
    assert line + "\n" == a + m + (b + "\n");
    LoadsExactly(isJson, a, m, b + "\n");
  }

  lemma {:induction false} HeaderStep(isJson: JsonTest, line: string, tail: string, rest: string, n: int,
                                      lspMode: bool)
    requires '\n' !in line && Strip(line + "\n") != [] && IsHeader(line + "\n")
    requires AfterColon(line + "\n") == Some(tail) && ParseInt(tail) == Some(n)
    ensures var content := SkipHeaders(rest);
      ReadFrom(isJson, line + "\n" + rest, lspMode)
        == Read(Loads(isJson, TakeChars(content, n)), DropChars(content, n), true)
  {
    LineOf(line, rest);
  }

  lemma {:induction false} NumberLine(n: int)
    ensures var tail := " " + IntText(n) + "\r";
      '\n' !in tail && tail + "\n" == " " + IntText(n) + "\r\n" && ParseInt(tail + "\n") == Some(n)
  {
    var tail := " " + IntText(n) + "\r";
    NumberIsTrimmed(n);
    assert tail + "\n" == " " + IntText(n) + "\r\n";
    NumberIsRead(n, " ", "\r\n");
  }

  /** A header in any letter case announces the content after the blank line: as many characters as
      it says, and all there is for a negative number. */
  lemma {:induction false} AnyCaseIsRead(isJson: JsonTest, name: string, n: int, content: string, lspMode: bool)
    requires IsName(name) && n <= |content|
    ensures ReadFrom(isJson, name + ":" + (" " + IntText(n) + "\r") + "\n" + ("\r\n" + content), lspMode)
      == if n < 0 then Read(Loads(isJson, content), "", true)
         else Read(Loads(isJson, content[..n]), content[n..], true)
  {
    var tail := " " + IntText(n) + "\r";
    NumberLine(n);
    NamedLine(name, tail);
    FieldsSkipped([], content);
    HeaderStep(isJson, name + ":" + tail, tail + "\n", "\r\n" + content, n, lspMode);
  }

  /** A header that holds no number is an error; the reader goes on behind its line. */
  lemma {:induction false} BadLengthIsRefused(isJson: JsonTest, name: string, value: string, rest: string,
                                              lspMode: bool)
    requires IsName(name) && '\n' !in value && exists c :: c in value && IsStray(c)
    ensures ReadFrom(isJson, name + ":" + value + "\n" + rest, lspMode) == Read(None, rest, lspMode)
  {
    NamedLine(name, value);
    LineOf(name + ":" + value, rest);
    var c :| c in value && IsStray(c);
    assert c in value + "\n";
    StrayIsNoNumber(value + "\n");
  }
}
