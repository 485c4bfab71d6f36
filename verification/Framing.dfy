/** Message framing of the MCP server: one JSON value per line, or a Content-Length header
    part followed by the content ("Base Protocol", "Header Part", of the Language Server
    Protocol specification, version 3.17). */
module Framing {
  import opened Options
  import opened Text
  import Utf8

  /** A message, as the JSON text that stands for it. */
  datatype Message = Message(payload: string)

  /** Which strings are JSON texts. */
  type JsonTest = string -> bool

  predicate IsJsonSpace(c: char) { c == ' ' || c == '\t' || c == '\n' || c == '\r' }

  function JsonTrimLeft(s: string): string {
    if s != [] && IsJsonSpace(s[0]) then JsonTrimLeft(s[1..]) else s
  }

  function JsonTrimRight(s: string): string {
    if s != [] && IsJsonSpace(s[|s| - 1]) then JsonTrimRight(s[..|s| - 1]) else s
  }

  /** `json.loads`: white space around the value is ignored, anything else fails. */
  function Loads(isJson: JsonTest, s: string): Option<Message> {
    var t := JsonTrimRight(JsonTrimLeft(s));
    if isJson(t) then Some(Message(t)) else None
  }

  /** What `json.dumps` gives for an object: one line of printable ASCII in braces. */
  predicate IsPayload(isJson: JsonTest, p: string) {
    && isJson(p) && |p| >= 2 && p[0] == '{' && p[|p| - 1] == '}'
    && forall i :: 0 <= i < |p| ==> ' ' <= p[i] <= '~'
  }

  // ---------------------------------------------------------------- streams

  function NewlineLength(s: string): (n: nat)
    ensures n <= |s| && (s != [] ==> n > 0)
  {
    if s == [] then 0 else if s[0] == '\n' then 1 else 1 + NewlineLength(s[1..])
  }

  /** `read(n)`: everything for a negative n. */
  function TakeChars(s: string, n: int): string { if n < 0 || n > |s| then s else s[..n] }

  function DropChars(s: string, n: int): string { if n < 0 || n > |s| then [] else s[n..] }

  function LowerChar(c: char): char { if 'A' <= c <= 'Z' then (c as int + 32) as char else c }

  const HEADER := "content-length"

  predicate IsHeader(line: string) {
    var name := Strip(line);
    |HEADER| <= |name| && forall i :: 0 <= i < |HEADER| ==> LowerChar(name[i]) == HEADER[i]
  }

  function AfterColon(line: string): Option<string> {
    if ':' in line then Some(line[|UpToFirst(':', line)| + 1..]) else None
  }

  /** Digits with single underscores between them. */
  predicate IsNumeral(s: string) {
    && s != [] && IsDigit(s[0]) && IsDigit(s[|s| - 1])
    && (forall i :: 0 <= i < |s| ==> IsDigit(s[i]) || s[i] == '_')
    && (forall i :: 0 <= i < |s| - 1 ==> IsDigit(s[i]) || IsDigit(s[i + 1]))
  }

  function OnlyDigits(s: string): (r: string)
    ensures AllDigits(r)
  {
    if s == [] then [] else if IsDigit(s[0]) then [s[0]] + OnlyDigits(s[1..]) else OnlyDigits(s[1..])
  }

  /** `int(...)` on ASCII text. */
  function ParseInt(text: string): Option<int> {
    var s := Strip(text);
    var signed := s != [] && (s[0] == '-' || s[0] == '+');
    var digits := if signed then s[1..] else s;
    var value: int := DigitsValue(OnlyDigits(digits));
    if !IsNumeral(digits) then None else Some(if signed && s[0] == '-' then -value else value)
  }

  // ---------------------------------------------------------------- reading

  datatype Read = Read(message: Option<Message>, rest: string, lspMode: bool)

  /** The rest of the header part: lines up to a blank one, or the end of the input. */
  function SkipHeaders(input: string): string
    decreases |input|
  {
    if input == [] then []
    else
      var n := NewlineLength(input);
      if Strip(input[..n]) == [] then input[n..] else SkipHeaders(input[n..])
  }

  function ReadFrom(isJson: JsonTest, input: string, lspMode: bool): Read
    decreases |input|
  {
    if input == [] then Read(None, [], lspMode)
    else
      var line, rest := input[..NewlineLength(input)], input[NewlineLength(input)..];
      if Strip(line) == [] then ReadFrom(isJson, rest, lspMode)
      else if IsHeader(line) then
        var field := AfterColon(line);
        var length := if field.Some? then ParseInt(field.value) else None;
        if length.None? then Read(None, rest, lspMode)
        else
          var content := SkipHeaders(rest);
          Read(Loads(isJson, TakeChars(content, length.value)), DropChars(content, length.value), true)
      else Read(Loads(isJson, line), rest, lspMode)
  }

  function Encode(p: string, lspMode: bool): string {
    (if lspMode then "Content-Length: " + Decimal(Utf8Length(p)) + "\r\n\r\n" + p else p) + "\n"
  }

  class Server {
    const isJson: JsonTest
    var input: string
    var output: string
    var lspMode: bool

    constructor (isJson: JsonTest, input: string)
      ensures this.isJson == isJson && this.input == input && output == "" && !lspMode
    {
      this.isJson := isJson;
      this.input := input;
      output := "";
      lspMode := false;
    }

    method ReadLine() returns (line: string)
      modifies this`input
      ensures line == old(input)[..NewlineLength(old(input))] && input == old(input)[NewlineLength(old(input))..]
    {
      var n := NewlineLength(input);
      line := input[..n];
      input := input[n..];
    }

    method SkipHeaderLines()
      modifies this`input
      ensures input == SkipHeaders(old(input))
    {
      while true
        invariant SkipHeaders(input) == SkipHeaders(old(input))
        decreases |input|
      {
        var sep := ReadLine();
        if Strip(sep) == "" {
          return;
        }
      }
    }

    method ReadMessage() returns (message: Option<Message>)
      modifies this`input, this`lspMode
      ensures Read(message, input, lspMode) == ReadFrom(isJson, old(input), old(lspMode))
    {
      while true
        invariant lspMode == old(lspMode)
        invariant ReadFrom(isJson, input, lspMode) == ReadFrom(isJson, old(input), old(lspMode))
        decreases |input|
      {
        var line := ReadLine();
        if line == "" {
          return None;
        }
        if Strip(line) == "" {
          continue;
        }
        if IsHeader(line) {
          var field := AfterColon(line);
          var length := if field.Some? then ParseInt(field.value) else None;
          if length.None? {
            return None;
          }
          SkipHeaderLines();
          lspMode := true;
          var content := TakeChars(input, length.value);
          input := DropChars(input, length.value);
          return Loads(isJson, content);
        }
        return Loads(isJson, line);
      }
    }

    method WriteMessage(message: Message)
      modifies this`output
      ensures output == old(output) + Encode(message.payload, lspMode)
    {
      var payload := message.payload;
      if lspMode {
        output := output + ("Content-Length: " + Decimal(Utf8Length(payload)) + "\r\n\r\n" + payload);
      } else {
        output := output + payload;
      }
      output := output + "\n";
    }
  }

  // ---------------------------------------------------------------- lines

  lemma {:induction false} LineOf(a: string, b: string)
    requires '\n' !in a
    ensures NewlineLength(a + "\n" + b) == |a| + 1
    ensures (a + "\n" + b)[..|a| + 1] == a + "\n" && (a + "\n" + b)[|a| + 1..] == b
  {
    var s := a + "\n" + b;
    if a != [] {
      assert s[1..] == a[1..] + "\n" + b;
      LineOf(a[1..], b);
    }
  }

  lemma {:induction false} NewlineSkipped(isJson: JsonTest, rest: string, lspMode: bool)
    ensures ReadFrom(isJson, "\n" + rest, lspMode) == ReadFrom(isJson, rest, lspMode)
  {
    LineOf("", rest);
    assert "" + "\n" + rest == "\n" + rest;
    assert "" + "\n" == "\n";
    assert StripLeft("\n") == StripLeft("\n"[1..]) == "";
  }

  lemma {:induction false} PayloadFacts(isJson: JsonTest, p: string)
    requires IsPayload(isJson, p)
    ensures '\n' !in p && Strip(p + "\n") == p && !IsHeader(p + "\n")
    ensures Loads(isJson, p) == Some(Message(p)) && Loads(isJson, p + "\n") == Some(Message(p))
  {
    var line := p + "\n";
    assert line[..|line| - 1] == p;
    assert StripRight(line) == StripRight(p) == p;
    assert HEADER[0] == 'c';
    assert JsonTrimLeft(p) == p && JsonTrimRight(p) == p;
    assert JsonTrimLeft(line) == line && JsonTrimRight(line) == JsonTrimRight(p);
  }

  lemma {:induction false} ReadLineMessage(isJson: JsonTest, p: string, rest: string, lspMode: bool)
    requires IsPayload(isJson, p)
    ensures ReadFrom(isJson, p + "\n" + rest, lspMode) == Read(Some(Message(p)), rest, lspMode)
  {
    PayloadFacts(isJson, p);
    LineOf(p, rest);
  }

  // ---------------------------------------------------------------- header parts

  function LengthField(n: nat): string { "Content-Length: " + Decimal(n) + "\r" }

  /** A header field as it stands before its line feed. */
  predicate IsField(h: string) { '\n' !in h && Strip(h) != [] }

  /** Fields, one a line, and the blank line that ends the header part. */
  function HeaderPart(fields: seq<string>): string {
    if fields == [] then "\r\n" else fields[0] + "\n" + HeaderPart(fields[1..])
  }

  lemma {:induction false} OnlyDigitsOf(s: string)
    requires AllDigits(s)
    ensures OnlyDigits(s) == s
  {
    if s != [] {
      OnlyDigitsOf(s[1..]);
    }
  }

  lemma {:induction false} StripField(d: string)
    requires d != [] && AllDigits(d)
    ensures Strip(" " + d + "\r\n") == d
  {
    var s := " " + d + "\r\n";
    var t := d + "\r\n";
    assert s[1..] == t;
    assert StripLeft(t) == t;
    assert t[..|t| - 1] == d + "\r";
    assert (d + "\r")[..|d|] == d;
    assert StripRight(d + "\r") == StripRight(d) == d;
  }

  lemma {:induction false} ParseDecimal(n: nat)
    ensures ParseInt(" " + Decimal(n) + "\r\n") == Some(n)
  {
    DecimalRoundTrip(n);
    StripField(Decimal(n));
    OnlyDigitsOf(Decimal(n));
  }

  lemma {:induction false} StripKeepsHead(a: string, b: string)
    requires Trimmed(a)
    ensures a <= Strip(a + b)
  {
    var s := a + b;
    assert StripLeft(s) == s;
    var r := StripRightSplits(s);
    var t := StripRight(s);
    assert s == t + r;
    assert s[|a| - 1] == a[|a| - 1];
    assert s[..|t|] == t;
    assert |a| <= |t|;
    assert t[..|a|] == s[..|a|] == a;
  }

  lemma {:induction false} NameIsHeader(tail: string)
    ensures IsHeader("Content-Length:" + tail) && Strip("Content-Length:" + tail) != []
  {
    StripKeepsHead("Content-Length:", tail);
  }

  lemma {:induction false} LengthFieldText(n: nat)
    ensures AllDigits(Decimal(n)) && '\n' !in LengthField(n)
    ensures LengthField(n) + "\n" == "Content-Length:" + (" " + Decimal(n) + "\r\n")
  {
    DecimalRoundTrip(n);
  }

  lemma {:induction false} AfterName(tail: string)
    ensures AfterColon("Content-Length:" + tail) == Some(tail)
  {
    var name, line := "Content-Length", "Content-Length:" + tail;
    assert line == name + [':'] + tail;
    UpToFirstOf(':', name, tail);
    assert line[|name|] == ':';
    assert line[|name| + 1..] == tail;
  }

  lemma {:induction false} LengthFieldFacts(n: nat)
    ensures '\n' !in LengthField(n) && Strip(LengthField(n) + "\n") != []
    ensures IsHeader(LengthField(n) + "\n")
    ensures AfterColon(LengthField(n) + "\n") == Some(" " + Decimal(n) + "\r\n")
  {
    LengthFieldText(n);
    NameIsHeader(" " + Decimal(n) + "\r\n");
    AfterName(" " + Decimal(n) + "\r\n");
  }

  lemma {:induction false} BlankAfterBreak(h: string)
    requires Strip(h) != []
    ensures Strip(h + "\n") != []
  {
    var l, r := StripSplits(h);
    var a := Strip(h);
    assert l + a + r + "\n" == l + a + (r + "\n");
    StripKeepsPart(l, a, r + "\n");
    assert h + "\n" == l + a + (r + "\n");
    if Strip(h + "\n") == [] {
      ContainsNonEmpty(a);
    }
  }

  lemma {:induction false} ContainsNonEmpty(part: string)
    requires Contains("", part)
    ensures part == []
  {
    var a: string, b: string :| "" == a + part + b;
    assert |a + part + b| == |a| + |part| + |b|;
  }

  /** The reader passes over every field that follows, up to the blank line. */
  lemma {:induction false} FieldsSkipped(fields: seq<string>, content: string)
    requires forall i :: 0 <= i < |fields| ==> IsField(fields[i])
    ensures SkipHeaders(HeaderPart(fields) + content) == content
  {
    if fields == [] {
      assert "\r\n" + content == "\r" + "\n" + content;
      LineOf("\r", content);
      assert "\r" + "\n" == "\r\n";
      assert "\r\n"[1..] == "\n" && "\n"[1..] == "";
      assert StripLeft("\r\n") == StripLeft("\n") == StripLeft("") == "";
    } else {
      var h := fields[0];
      assert IsField(h);
      var rest := HeaderPart(fields[1..]) + content;
      assert HeaderPart(fields) + content == h + "\n" + rest;
      LineOf(h, rest);
      BlankAfterBreak(h);
      FieldsSkipped(fields[1..], content);
    }
  }

  /** A header part that opens with Content-Length is passed over with whatever fields follow,
      and as many characters are read as it says. */
  lemma {:induction false} ReadDeclared(isJson: JsonTest, fields: seq<string>, n: nat, content: string, lspMode: bool)
    requires forall i :: 0 <= i < |fields| ==> IsField(fields[i])
    ensures ReadFrom(isJson, HeaderPart([LengthField(n)] + fields) + content, lspMode)
      == Read(Loads(isJson, TakeChars(content, n)), DropChars(content, n), true)
  {
    var first := LengthField(n);
    var body := HeaderPart(fields) + content;
    assert ([first] + fields)[1..] == fields;
    assert HeaderPart([first] + fields) == first + "\n" + HeaderPart(fields);
    assert HeaderPart([first] + fields) + content == first + "\n" + body;
    LengthFieldFacts(n);
    LineOf(first, body);
    ParseDecimal(n);
    FieldsSkipped(fields, content);
  }

  /** Content of the declared length is read whole, whatever characters it holds. */
  lemma {:induction false} ReadHeaderMessage(isJson: JsonTest, fields: seq<string>, p: string, rest: string,
                                             lspMode: bool)
    requires forall i :: 0 <= i < |fields| ==> IsField(fields[i])
    ensures ReadFrom(isJson, HeaderPart([LengthField(|p|)] + fields) + p + rest, lspMode)
      == Read(Loads(isJson, p), rest, true)
  {
    ReadDeclared(isJson, fields, |p|, p + rest, lspMode);
    assert HeaderPart([LengthField(|p|)] + fields) + p + rest == HeaderPart([LengthField(|p|)] + fields) + (p + rest);
    assert (p + rest)[..|p|] == p && (p + rest)[|p|..] == rest;
  }

  function Utf8Length(s: string): nat { |Utf8.Encode(s)| }

  predicate IsAscii(s: string) { forall i :: 0 <= i < |s| ==> s[i] < '\U{80}' }

  lemma {:induction false} AsciiLength(s: string)
    ensures Utf8Length(s) >= |s| && (Utf8Length(s) == |s| <==> IsAscii(s))
  {
    if s != [] {
      AsciiLength(s[1..]);
      assert IsAscii(s) <==> s[0] < '\U{80}' && IsAscii(s[1..]);
    }
  }

  /** The protocol counts the content in bytes and the reader takes characters: the next
      message starts where the content ends exactly when the content is ASCII. */
  lemma {:induction false} ByteLengthExactly(isJson: JsonTest, p: string, rest: string, lspMode: bool)
    requires rest != []
    ensures ReadFrom(isJson, HeaderPart([LengthField(Utf8Length(p))]) + (p + rest), lspMode).rest == rest
      <==> IsAscii(p)
  {
    var n := Utf8Length(p);
    AsciiLength(p);
    assert [LengthField(n)] + [] == [LengthField(n)];
    ReadDeclared(isJson, [], n, p + rest, lspMode);
    if n == |p| {
      assert (p + rest)[|p|..] == rest;
    } else {
      assert |DropChars(p + rest, n)| < |rest|;
    }
  }

  /** The writer counts bytes as well, of ASCII text. */
  lemma {:induction false} WriterCountsRight(isJson: JsonTest, p: string)
    requires IsPayload(isJson, p)
    ensures Utf8Length(p) == |p|
  {
    AsciiLength(p);
    assert forall i :: 0 <= i < |p| ==> p[i] <= '~';
  }

  /** The protocol lets fields come in any order; the reader finds the content exactly when
      Content-Length comes first. */
  lemma {:induction false} HeaderOrderExactly(isJson: JsonTest, before: seq<string>, after: seq<string>,
                                              p: string, rest: string, lspMode: bool)
    requires IsPayload(isJson, p)
    requires forall i :: 0 <= i < |before| ==>
      IsField(before[i]) && !IsHeader(before[i] + "\n") && Loads(isJson, before[i] + "\n") == None
    requires forall i :: 0 <= i < |after| ==> IsField(after[i])
    ensures ReadFrom(isJson, HeaderPart(before + [LengthField(|p|)] + after) + p + rest, lspMode).message
      == Some(Message(p))
      <==> before == []
  {
    if before == [] {
      assert before + [LengthField(|p|)] + after == [LengthField(|p|)] + after;
      ReadHeaderMessage(isJson, after, p, rest, lspMode);
      PayloadFacts(isJson, p);
    } else {
      var all := before + [LengthField(|p|)] + after;
      var h := before[0];
      assert all[0] == h;
      var body := HeaderPart(all[1..]) + p + rest;
      assert HeaderPart(all) + p + rest == h + "\n" + body;
      LineOf(h, body);
      BlankAfterBreak(h);
    }
  }

  // ---------------------------------------------------------------- sessions

  datatype Sent = Sent(payload: string, lspMode: bool)

  predicate IsSession(isJson: JsonTest, ms: seq<Sent>) {
    forall i :: 0 <= i < |ms| ==> IsPayload(isJson, ms[i].payload)
  }

  /** What a writer leaves on the stream when its mode is set as given before each message. */
  function Stream(ms: seq<Sent>): string {
    Join(seq(|ms|, i requires 0 <= i < |ms| => Encode(ms[i].payload, ms[i].lspMode)))
  }

  type Reader = (string, bool) -> Read

  function ReaderOf(isJson: JsonTest): Reader { (input, lspMode) => ReadFrom(isJson, input, lspMode) }

  /** The results of `n` reads in a row. */
  function ReadAll(read: Reader, input: string, lspMode: bool, n: nat): seq<Option<Message>>
    decreases n
  {
    if n == 0 then []
    else
      var r := read(input, lspMode);
      [r.message] + ReadAll(read, r.rest, r.lspMode, n - 1)
  }

  function Messages(ms: seq<Sent>): seq<Option<Message>> {
    if ms == [] then [] else [Some(Message(ms[0].payload))] + Messages(ms[1..])
  }

  lemma {:induction false} OneField(h: string)
    ensures HeaderPart([h]) == h + "\n" + "\r\n"
  {
    assert [h][1..] == [];
    assert HeaderPart([]) == "\r\n";
  }

  /** One written message is read back; in header mode its closing line feed stays behind. */
  lemma {:induction false} ReadEncoded(isJson: JsonTest, m: Sent, rest: string, lspMode: bool)
    requires IsPayload(isJson, m.payload)
    ensures ReadFrom(isJson, Encode(m.payload, m.lspMode) + rest, lspMode)
      == if m.lspMode then Read(Some(Message(m.payload)), "\n" + rest, true)
        else Read(Some(Message(m.payload)), rest, lspMode)
  {
    var p := m.payload;
    WriterCountsRight(isJson, p);
    if m.lspMode {
      var part := HeaderPart([LengthField(|p|)]);
      OneField(LengthField(|p|));
      assert "\r" + "\n" + "\r\n" == "\r\n\r\n";
      assert part == LengthField(|p|) + "\n" + "\r\n";
      assert part == "Content-Length: " + Decimal(|p|) + "\r\n\r\n";
      assert Encode(p, true) + rest == part + p + ("\n" + rest);
      assert [LengthField(|p|)] + [] == [LengthField(|p|)];
      ReadHeaderMessage(isJson, [], p, "\n" + rest, lspMode);
      PayloadFacts(isJson, p);
    } else {
      ReadLineMessage(isJson, p, rest, lspMode);
    }
  }

  function Ends(n: nat): seq<Option<Message>> { if n == 0 then [] else [None] + Ends(n - 1) }

  lemma {:induction false} EndOfInput(read: Reader, lspMode: bool, n: nat)
    requires forall mode :: read("", mode) == Read(None, "", mode)
    ensures ReadAll(read, "", lspMode, n) == Ends(n)
  {
    if n > 0 {
      EndOfInput(read, lspMode, n - 1);
    }
  }

  /** Reading from `text` and what follows gives message `m` and then what follows gives. */
  ghost predicate Carries(read: Reader, text: string, m: Sent) {
    forall rest, mode, n :: n > 0 ==>
      ReadAll(read, text + rest, mode, n)
        == [Some(Message(m.payload))] + ReadAll(read, rest, mode || m.lspMode, n - 1)
  }

  lemma {:induction false} EncodeCarries(isJson: JsonTest, m: Sent)
    requires IsPayload(isJson, m.payload)
    ensures Carries(ReaderOf(isJson), Encode(m.payload, m.lspMode), m)
  {
    var read := ReaderOf(isJson);
    var text := Encode(m.payload, m.lspMode);
    forall rest, mode, n: int | n > 0
      ensures ReadAll(read, text + rest, mode, n)
        == [Some(Message(m.payload))] + ReadAll(read, rest, mode || m.lspMode, n - 1)
    {
      ReadEncoded(isJson, m, rest, mode);
      if m.lspMode && n > 1 {
        NewlineSkipped(isJson, rest, true);
      }
    }
  }

  lemma {:induction false} CarriedInOrder(read: Reader, texts: seq<string>, ms: seq<Sent>, lspMode: bool, extra: nat)
    requires |texts| == |ms| && forall i :: 0 <= i < |ms| ==> Carries(read, texts[i], ms[i])
    requires forall mode :: read("", mode) == Read(None, "", mode)
    ensures ReadAll(read, Join(texts), lspMode, |ms| + extra) == Messages(ms) + Ends(extra)
    decreases |ms|
  {
    if ms == [] {
      EndOfInput(read, lspMode, extra);
    } else {
      assert Carries(read, texts[0], ms[0]);
      CarriedInOrder(read, texts[1..], ms[1..], lspMode || ms[0].lspMode, extra);
    }
  }

  /** Every message written, in either mode and with the mode changing between messages, is
      read back in order, and then the end of the input is reported, as often as asked. */
  lemma {:induction false} SessionRoundTrip(isJson: JsonTest, ms: seq<Sent>, lspMode: bool, extra: nat)
    requires IsSession(isJson, ms)
    ensures ReadAll(ReaderOf(isJson), Stream(ms), lspMode, |ms| + extra) == Messages(ms) + Ends(extra)
  {
    var texts := seq(|ms|, i requires 0 <= i < |ms| => Encode(ms[i].payload, ms[i].lspMode));
    forall i | 0 <= i < |ms| ensures Carries(ReaderOf(isJson), texts[i], ms[i]) {
      assert IsPayload(isJson, ms[i].payload);
      EncodeCarries(isJson, ms[i]);
    }
    CarriedInOrder(ReaderOf(isJson), texts, ms, lspMode, extra);
  }
}
