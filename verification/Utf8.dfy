/** UTF-8 text as files hold it, and reading it as text. */
module Utf8 {
  import opened Options

  newtype Byte = x: int | 0 <= x < 0x100

  type Bytes = seq<Byte>

  // ---------------------------------------------------------------- one character

  function EncodeChar(c: char): (b: Bytes)
    ensures 1 <= |b| <= 4 && (|b| == 1 <==> c < '\U{80}')
  {
    var n := c as int;
    if n < 0x80 then [n as Byte]
    else if n < 0x800 then [(0xC0 + n / 0x40) as Byte, Tail(n)]
    else if n < 0x1_0000 then [(0xE0 + n / 0x1000) as Byte, Tail(n / 0x40), Tail(n)]
    else [(0xF0 + n / 0x4_0000) as Byte, Tail(n / 0x1000), Tail(n / 0x40), Tail(n)]
  }

  /** The last six bits, in a byte that continues a character. */
  function Tail(n: nat): Byte { (0x80 + n % 0x40) as Byte }

  predicate Continues(b: Byte) { 0x80 <= b < 0xC0 }

  /** How many bytes the first byte announces, or 0. */
  function Announced(b: Byte): nat {
    if b < 0x80 then 1
    else if b < 0xC0 then 0
    else if b < 0xE0 then 2
    else if b < 0xF0 then 3
    else if b < 0xF8 then 4
    else 0
  }

  function CodePoint(b: Bytes): int
    requires 1 <= |b| <= 4
  {
    var first := b[0] as int;
    match |b|
    case 1 => first
    case 2 => (first - 0xC0) * 0x40 + Low(b[1])
    case 3 => ((first - 0xE0) * 0x40 + Low(b[1])) * 0x40 + Low(b[2])
    case _ => (((first - 0xF0) * 0x40 + Low(b[1])) * 0x40 + Low(b[2])) * 0x40 + Low(b[3])
  }

  function Low(b: Byte): int { b as int - 0x80 }

  /** The least code point that needs so many bytes. */
  function Least(size: nat): int {
    if size <= 1 then 0 else if size == 2 then 0x80 else if size == 3 then 0x800 else 0x1_0000
  }

  predicate IsScalar(n: int) { 0 <= n < 0xD800 || 0xE000 <= n < 0x11_0000 }

  /** The bytes of one character: as many as announced, and no more than it needs. */
  predicate IsCharacter(b: Bytes) {
    && 1 <= |b| <= 4 && |b| == Announced(b[0])
    && (forall i :: 1 <= i < |b| ==> Continues(b[i]))
    && CodePoint(b) >= Least(|b|) && IsScalar(CodePoint(b))
  }

  // ---------------------------------------------------------------- texts

  function Encode(s: string): Bytes {
    if s == [] then [] else EncodeChar(s[0]) + Encode(s[1..])
  }

  /** Strict decoding: anything that is not UTF-8 fails. */
  function Decode(b: Bytes): Option<string>
    decreases |b|
  {
    if b == [] then Some([])
    else
      var n := Announced(b[0]);
      if n == 0 || n > |b| || !IsCharacter(b[..n]) then None
      else
        var rest := Decode(b[n..]);
        if rest.None? then None else Some([CodePoint(b[..n]) as char] + rest.value)
  }

  /** Text mode: every line end is read as a line feed. */
  function LineFeeds(s: string): string {
    if s == [] then []
    else if s[0] != '\r' then [s[0]] + LineFeeds(s[1..])
    else if |s| > 1 && s[1] == '\n' then LineFeeds(s[1..])
    else "\n" + LineFeeds(s[1..])
  }

  /** `read_text(encoding="utf-8")` */
  function ReadText(b: Bytes): Option<string> {
    var s := Decode(b);
    if s.None? then None else Some(LineFeeds(s.value))
  }

  // ---------------------------------------------------------------- round trips

  /** A number is its last six bits and the rest. */
  lemma {:induction false} Bits(n: nat)
    ensures n == n / 0x40 * 0x40 + n % 0x40 && n / 0x1000 == n / 0x40 / 0x40 && n / 0x4_0000 == n / 0x40 / 0x40 / 0x40
  {
  }

  lemma {:induction false} JoinBits(high: int, low: int)
    requires 0 <= high && 0 <= low < 0x40
    ensures (high * 0x40 + low) / 0x40 == high && (high * 0x40 + low) % 0x40 == low
  {
  }

  lemma {:induction false} TailBits(n: nat)
    ensures Continues(Tail(n)) && Low(Tail(n)) == n % 0x40
  {
  }

  lemma {:induction false} DecodeChar(c: char)
    ensures IsCharacter(EncodeChar(c)) && CodePoint(EncodeChar(c)) == c as int
  {
    var n := c as int;
    Bits(n);
    Bits(n / 0x40);
    Bits(n / 0x1000);
    TailBits(n);
    TailBits(n / 0x40);
    TailBits(n / 0x1000);
  }

  lemma {:induction false} Encode2(b: Bytes)
    requires IsCharacter(b) && |b| == 2
    ensures EncodeChar(CodePoint(b) as char) == b
  {
    JoinBits(b[0] as int - 0xC0, Low(b[1]));
  }

  lemma {:induction false} Encode3(b: Bytes)
    requires IsCharacter(b) && |b| == 3
    ensures EncodeChar(CodePoint(b) as char) == b
  {
    var high := (b[0] as int - 0xE0) * 0x40 + Low(b[1]);
    JoinBits(b[0] as int - 0xE0, Low(b[1]));
    JoinBits(high, Low(b[2]));
    Bits(CodePoint(b));
  }

  lemma {:induction false} Encode4(b: Bytes)
    requires IsCharacter(b) && |b| == 4
    ensures EncodeChar(CodePoint(b) as char) == b
  {
    var top := (b[0] as int - 0xF0) * 0x40 + Low(b[1]);
    var high := top * 0x40 + Low(b[2]);
    JoinBits(b[0] as int - 0xF0, Low(b[1]));
    JoinBits(top, Low(b[2]));
    JoinBits(high, Low(b[3]));
    Bits(CodePoint(b));
  }

  lemma {:induction false} EncodeCodePoint(b: Bytes)
    requires IsCharacter(b)
    ensures EncodeChar(CodePoint(b) as char) == b
  {
    if |b| == 2 {
      Encode2(b);
    } else if |b| == 3 {
      Encode3(b);
    } else if |b| == 4 {
      Encode4(b);
    }
  }

  lemma {:induction false} DecodeEncode(s: string)
    ensures Decode(Encode(s)) == Some(s)
  {
    if s != [] {
      var first := EncodeChar(s[0]);
      DecodeChar(s[0]);
      DecodeEncode(s[1..]);
      var all := first + Encode(s[1..]);
      assert all[..|first|] == first && all[|first|..] == Encode(s[1..]) && all[0] == first[0];
      assert CodePoint(first) as char == s[0];
      assert s == [s[0]] + s[1..];
    }
  }

  lemma {:induction false} DecodeStep(b: Bytes) returns (first: Bytes, rest: Bytes)
    requires b != [] && Decode(b).Some?
    ensures b == first + rest && first != [] && IsCharacter(first) && Decode(rest).Some?
    ensures Decode(b).value == [CodePoint(first) as char] + Decode(rest).value
  {
    first, rest := b[..Announced(b[0])], b[Announced(b[0])..];
  }

  lemma {:induction false} EncodeDecode(b: Bytes)
    requires Decode(b).Some?
    ensures Encode(Decode(b).value) == b
    decreases |b|
  {
    if b != [] {
      var first, rest := DecodeStep(b);
      EncodeCodePoint(first);
      EncodeDecode(rest);
      EncodeCons(CodePoint(first) as char, Decode(rest).value);
    }
  }

  lemma {:induction false} EncodeCons(c: char, s: string)
    ensures Encode([c] + s) == EncodeChar(c) + Encode(s)
  {
    assert ([c] + s)[1..] == s;
  }

  /** Exactly the encodings of texts decode. */
  lemma {:induction false} DecodesExactly(b: Bytes)
    ensures Decode(b).Some? <==> exists s :: Encode(s) == b
  {
    if Decode(b).Some? {
      EncodeDecode(b);
    }
    forall s | Encode(s) == b ensures Decode(b).Some? {
      DecodeEncode(s);
    }
  }

  lemma {:induction false} LineFeedsExactly(s: string)
    ensures '\r' !in LineFeeds(s)
    ensures LineFeeds(s) == s <==> '\r' !in s
  {
    if s != [] {
      LineFeedsExactly(s[1..]);
    }
  }

  /** A text written and read back is itself exactly when it holds no carriage return. */
  lemma {:induction false} WrittenTextExactly(s: string)
    ensures ReadText(Encode(s)) == Some(LineFeeds(s))
    ensures ReadText(Encode(s)) == Some(s) <==> '\r' !in s
  {
    DecodeEncode(s);
    LineFeedsExactly(s);
  }
}
