/** The sliding-window chunker: windows of whole lines under a token limit, each window
    restarting inside the previous one to share some of its tail. */
module Chunker {
  import opened Text

  datatype TextChunk = TextChunk(text: string, uri: string, chunkIndex: nat, tokens: nat, isContinuation: bool)

  datatype Window = Window(start: nat, end: nat)

  datatype Settings = Settings(maxTokens: int, overlapTokens: int)

  /** Tokens of the lines from `start` up to `end`. */
  function Used(tokens: seq<nat>, start: nat, end: nat): nat
    requires end <= |tokens|
  {
    if end <= start then 0 else Used(tokens, start, end - 1) + tokens[end - 1]
  }

  function WindowEnd(tokens: seq<nat>, s: Settings, start: nat, end: nat): (r: nat)
    requires end <= |tokens|
    ensures end <= r <= |tokens|
    decreases |tokens| - end
  {
    if end == |tokens| || (Used(tokens, start, end) + tokens[end] > s.maxTokens && end > start) then end
    else WindowEnd(tokens, s, start, end + 1)
  }

  function BackUp(tokens: seq<nat>, s: Settings, start: nat, end: nat, restart: nat): (r: nat)
    requires start < restart <= end <= |tokens|
    ensures start < r <= restart
  {
    if restart - 1 > start && Used(tokens, restart - 1, end) <= s.overlapTokens
    then BackUp(tokens, s, start, end, restart - 1)
    else restart
  }

  function Restart(tokens: seq<nat>, s: Settings, start: nat, end: nat): nat
    requires start < end <= |tokens|
  {
    if s.overlapTokens > 0 then BackUp(tokens, s, start, end, end) else end
  }

  function Windows(tokens: seq<nat>, s: Settings, start: nat): seq<Window>
    requires start < |tokens|
    decreases |tokens| - start
  {
    var end := WindowEnd(tokens, s, start, start);
    WindowNotEmpty(tokens, s, start);
    [Window(start, end)] + if end >= |tokens| then [] else Windows(tokens, s, Restart(tokens, s, start, end))
  }

  lemma {:induction false} WindowNotEmpty(tokens: seq<nat>, s: Settings, start: nat)
    requires start < |tokens|
    ensures WindowEnd(tokens, s, start, start) > start
  {
  }

  predicate Fit(windows: seq<Window>, n: nat) {
    forall i :: 0 <= i < |windows| ==> windows[i].start < windows[i].end <= n
  }

  function ChunksOf(lines: seq<string>, tokens: seq<nat>, uri: string, windows: seq<Window>,
                    index: nat): seq<TextChunk>
    requires |lines| == |tokens| && Fit(windows, |lines|)
  {
    if windows == [] then []
    else
      var w := windows[0];
      var body := Strip(Join(lines[w.start..w.end]));
      if body == "" then ChunksOf(lines, tokens, uri, windows[1..], index)
      else [TextChunk(body, uri, index, Used(tokens, w.start, w.end), w.start > 0)]
           + ChunksOf(lines, tokens, uri, windows[1..], index + 1)
  }

  function Counts(lines: seq<string>): (t: seq<nat>)
    ensures |t| == |lines|
  {
    seq(|lines|, i requires 0 <= i < |lines| => |Words(lines[i])|)
  }

  function WindowsOf(lines: seq<string>, s: Settings): seq<Window> {
    if lines == [] then [] else Windows(Counts(lines), s, 0)
  }

  function ChunkText(text: string, uri: string, s: Settings): seq<TextChunk> {
    var lines := Lines(text);
    WindowsFit(lines, s);
    ChunksOf(lines, Counts(lines), uri, WindowsOf(lines, s), 0)
  }

  // ---------------------------------------------------------------- the windows

  /** Window starts strictly increase, ends never decrease, and each window starts no
      later than the one before it ends. */
  ghost predicate Advances(a: Window, b: Window) { a.start < b.start <= a.end <= b.end }

  ghost predicate Steps(windows: seq<Window>) {
    forall i :: 0 <= i < |windows| - 1 ==> Advances(windows[i], windows[i + 1])
  }

  lemma {:induction false} UsedSplit(tokens: seq<nat>, a: nat, b: nat, c: nat)
    requires a <= b <= c <= |tokens|
    ensures Used(tokens, a, c) == Used(tokens, a, b) + Used(tokens, b, c)
  {
    if b < c {
      UsedSplit(tokens, a, b, c - 1);
    }
  }

  ghost predicate Limited(tokens: seq<nat>, s: Settings, w: Window)
    requires w.end <= |tokens|
  {
    w.end == w.start + 1 || Used(tokens, w.start, w.end) <= s.maxTokens
  }

  ghost predicate Maximal(tokens: seq<nat>, s: Settings, w: Window)
    requires w.end <= |tokens|
  {
    w.end == |tokens| || Used(tokens, w.start, w.end) + tokens[w.end] > s.maxTokens
  }

  lemma {:induction false} EndIsMaximal(tokens: seq<nat>, s: Settings, start: nat, end: nat)
    requires start <= end <= |tokens| && start < |tokens|
    requires end <= start + 1 || Used(tokens, start, end) <= s.maxTokens
    ensures var w := Window(start, WindowEnd(tokens, s, start, end));
            w.start < w.end && Limited(tokens, s, w) && Maximal(tokens, s, w)
    decreases |tokens| - end
  {
    if !(end == |tokens| || (Used(tokens, start, end) + tokens[end] > s.maxTokens && end > start)) {
      EndIsMaximal(tokens, s, start, end + 1);
    }
  }

  /** A window grown from a later start reaches at least as far. */
  lemma {:induction false} LaterReachesAsFar(tokens: seq<nat>, s: Settings, start: nat, from: nat, end: nat)
    requires start <= from <= end <= |tokens|
    requires from == end || Used(tokens, from, end) <= s.maxTokens
    ensures WindowEnd(tokens, s, from, from) >= end
  {
    ReachFrom(tokens, s, from, from, end);
  }

  lemma {:induction false} ReachFrom(tokens: seq<nat>, s: Settings, from: nat, at: nat, end: nat)
    requires from <= at <= end <= |tokens|
    requires from == end || Used(tokens, from, end) <= s.maxTokens
    ensures WindowEnd(tokens, s, from, at) >= end
    decreases end - at
  {
    if at < end {
      UsedSplit(tokens, from, at + 1, end);
      ReachFrom(tokens, s, from, at + 1, end);
    }
  }

  /** What the restart shares: never more than the overlap allows, and all that fits. */
  lemma {:induction false} BackUpShares(tokens: seq<nat>, s: Settings, start: nat, end: nat, restart: nat)
    requires start < restart <= end <= |tokens| && Used(tokens, restart, end) <= s.overlapTokens
    ensures var r := BackUp(tokens, s, start, end, restart);
            Used(tokens, r, end) <= s.overlapTokens
            && (r == start + 1 || Used(tokens, r - 1, end) > s.overlapTokens)
  {
    if restart - 1 > start && Used(tokens, restart - 1, end) <= s.overlapTokens {
      BackUpShares(tokens, s, start, end, restart - 1);
    }
  }

  ghost predicate SharesRightly(tokens: seq<nat>, s: Settings, a: Window, b: Window)
    requires a.end <= |tokens|
  {
    if s.overlapTokens <= 0 then b.start == a.end
    else Used(tokens, b.start, a.end) <= s.overlapTokens
         && (b.start == a.start + 1 || (b.start > 0 && Used(tokens, b.start - 1, a.end) > s.overlapTokens))
  }

  lemma {:induction false} NextWindow(tokens: seq<nat>, s: Settings, start: nat)
    requires start < |tokens| && WindowEnd(tokens, s, start, start) < |tokens|
    ensures var end := WindowEnd(tokens, s, start, start);
            var next := Restart(tokens, s, start, end);
            && start < next <= end
            && Advances(Window(start, end), Window(next, WindowEnd(tokens, s, next, next)))
            && SharesRightly(tokens, s, Window(start, end), Window(next, WindowEnd(tokens, s, next, next)))
  {
    var end := WindowEnd(tokens, s, start, start);
    EndIsMaximal(tokens, s, start, start);
    if s.overlapTokens > 0 {
      BackUpShares(tokens, s, start, end, end);
    }
    var next := Restart(tokens, s, start, end);
    if next < end {
      UsedSplit(tokens, start, next, end);
    }
    LaterReachesAsFar(tokens, s, start, next, end);
  }

  /** The windows run from the first line to the last, step as described, and each is
      maximal and within the limit unless it is a single line. */
  lemma {:induction false} WindowsRun(tokens: seq<nat>, s: Settings, start: nat)
    requires start < |tokens|
    ensures var ws := Windows(tokens, s, start);
            && ws != [] && ws[0].start == start && ws[|ws| - 1].end == |tokens| && |ws| <= |tokens| - start
            && Steps(ws)
            && (forall i :: 0 <= i < |ws| ==>
                  (ws[i].start < ws[i].end <= |tokens| && Limited(tokens, s, ws[i]) && Maximal(tokens, s, ws[i])))
            && (forall i :: 0 <= i < |ws| - 1 ==> SharesRightly(tokens, s, ws[i], ws[i + 1]))
    decreases |tokens| - start
  {
    var end := WindowEnd(tokens, s, start, start);
    EndIsMaximal(tokens, s, start, start);
    if end < |tokens| {
      NextWindow(tokens, s, start);
      var next := Restart(tokens, s, start, end);
      WindowsRun(tokens, s, next);
      var ws, rest := Windows(tokens, s, start), Windows(tokens, s, next);
      assert ws == [Window(start, end)] + rest;
      assert rest[0] == Window(next, WindowEnd(tokens, s, next, next));
      forall i | 0 <= i < |ws| - 1
        ensures Advances(ws[i], ws[i + 1]) && SharesRightly(tokens, s, ws[i], ws[i + 1])
      {
        if i > 0 {
          assert ws[i] == rest[i - 1] && ws[i + 1] == rest[i];
        }
      }
    }
  }

  lemma {:induction false} WindowsFit(lines: seq<string>, s: Settings)
    ensures Fit(WindowsOf(lines, s), |lines|)
  {
    if lines != [] {
      WindowsRun(Counts(lines), s, 0);
    }
  }

  /** The lines each window adds to those before it. */
  function NewLines(lines: seq<string>, windows: seq<Window>, from: nat): seq<string> {
    if windows == [] then []
    else (if from <= windows[0].end <= |lines| then lines[from..windows[0].end] else [])
         + NewLines(lines, windows[1..], windows[0].end)
  }

  lemma {:induction false} NewLinesCover(lines: seq<string>, windows: seq<Window>, from: nat)
    requires windows != [] && Steps(windows) && windows[|windows| - 1].end == |lines|
    requires windows[0].start <= from <= windows[0].end
    requires forall i :: 0 <= i < |windows| ==> windows[i].end <= |lines|
    ensures NewLines(lines, windows, from) == lines[from..]
  {
    var end, rest := windows[0].end, windows[1..];
    assert lines[from..end] + lines[end..] == lines[from..];
    if |windows| > 1 {
      assert Advances(windows[0], windows[1]);
      StepsTail(windows);
      assert rest[|rest| - 1] == windows[|windows| - 1];
      NewLinesCover(lines, rest, end);
    } else {
      assert NewLines(lines, rest, end) == [];
    }
  }

  lemma {:induction false} StepsTail(windows: seq<Window>)
    requires windows != [] && Steps(windows)
    ensures Steps(windows[1..])
  {
    forall i | 0 <= i < |windows[1..]| - 1 ensures Advances(windows[1..][i], windows[1..][i + 1]) {
      assert Advances(windows[i + 1], windows[i + 2]);
    }
  }

  /** The windows' non-overlapping parts, put together, are the text. */
  lemma {:induction false} WindowsCoverText(text: string, s: Settings)
    ensures Join(NewLines(Lines(text), WindowsOf(Lines(text), s), 0)) == text
  {
    var lines := Lines(text);
    JoinLines(text);
    if lines != [] {
      WindowsRun(Counts(lines), s, 0);
      NewLinesCover(lines, WindowsOf(lines, s), 0);
    }
  }

  // ---------------------------------------------------------------- the chunks

  lemma {:induction false} JoinSnoc(lines: seq<string>, start: nat, end: nat)
    requires start < end <= |lines|
    ensures Join(lines[start..end]) == Join(lines[start..end - 1]) + lines[end - 1]
  {
    assert lines[start..end] == lines[start..end - 1] + [lines[end - 1]];
    JoinAppend(lines[start..end - 1], [lines[end - 1]]);
    assert Join([lines[end - 1]]) == lines[end - 1];
  }

  /** Every line but the last ends in white space. */
  predicate Broken(lines: seq<string>) {
    forall i :: 0 <= i < |lines| - 1 ==> EndsInSpace(lines[i])
  }

  predicate EndsInSpace(s: string) { s != [] && IsSpace(s[|s| - 1]) }

  /** A join ends in white space, or is empty, when its last line ends in white space. */
  lemma {:induction false} JoinEnds(lines: seq<string>, start: nat, end: nat)
    requires start <= end <= |lines|
    requires start < end ==> EndsInSpace(lines[end - 1])
    ensures Join(lines[start..end]) == [] || EndsInSpace(Join(lines[start..end]))
  {
    if start < end {
      JoinSnoc(lines, start, end);
    } else {
      assert lines[start..end] == [];
    }
  }

  lemma {:induction false} WordsAddUp(lines: seq<string>, start: nat, end: nat)
    requires start < end <= |lines|
    requires Join(lines[start..end - 1]) == [] || EndsInSpace(Join(lines[start..end - 1]))
    ensures |Words(Join(lines[start..end]))| == |Words(Join(lines[start..end - 1]))| + |Words(lines[end - 1])|
  {
    WordsAppend(Join(lines[start..end - 1]), lines[end - 1]);
    JoinSnoc(lines, start, end);
  }

  lemma {:induction false} LineAddsWords(lines: seq<string>, start: nat, end: nat)
    requires start < end <= |lines| && Broken(lines)
    ensures |Words(Join(lines[start..end]))| == |Words(Join(lines[start..end - 1]))| + |Words(lines[end - 1])|
  {
    JoinEnds(lines, start, end - 1);
    WordsAddUp(lines, start, end);
  }

  /** Lines that end in white space add up their words. */
  lemma {:induction false} JoinWords(lines: seq<string>, start: nat, end: nat)
    requires start <= end <= |lines| && Broken(lines)
    ensures |Words(Join(lines[start..end]))| == Used(Counts(lines), start, end)
    decreases end - start
  {
    if start < end {
      JoinWords(lines, start, end - 1);
      LineAddsWords(lines, start, end);
    } else {
      assert lines[start..end] == [];
    }
  }

  ghost predicate Honest(c: TextChunk, index: nat, uri: string) {
    c.chunkIndex == index && c.uri == uri && c.text == Strip(c.text) && c.tokens == |Words(c.text)| && c.tokens > 0
  }

  ghost predicate AllHonest(chunks: seq<TextChunk>, index: nat, uri: string) {
    forall i :: 0 <= i < |chunks| ==> Honest(chunks[i], index + i, uri)
  }

  lemma {:induction false} StripIsTrimmed(s: string)
    ensures Strip(s) == [] || Trimmed(Strip(s))
    ensures Strip(Strip(s)) == Strip(s)
  {
    var l, r := StripSplits(s);
  }

  lemma {:induction false} ChunksHonest(lines: seq<string>, uri: string, windows: seq<Window>, index: nat)
    requires Fit(windows, |lines|)
    requires Broken(lines)
    ensures var chunks := ChunksOf(lines, Counts(lines), uri, windows, index);
            AllHonest(chunks, index, uri)
  {
    if windows != [] {
      var w := windows[0];
      var joined := Join(lines[w.start..w.end]);
      var chunks := ChunksOf(lines, Counts(lines), uri, windows, index);
      if Strip(joined) == "" {
        ChunksHonest(lines, uri, windows[1..], index);
        assert chunks == ChunksOf(lines, Counts(lines), uri, windows[1..], index);
      } else {
        ChunksHonest(lines, uri, windows[1..], index + 1);
        WindowHonest(lines, uri, w, index);
        HonestCons(chunks[0], chunks[1..], index, uri);
        assert chunks == [chunks[0]] + chunks[1..];
      }
    }
  }

  lemma {:induction false} HonestCons(c: TextChunk, rest: seq<TextChunk>, index: nat, uri: string)
    requires Honest(c, index, uri) && AllHonest(rest, index + 1, uri)
    ensures AllHonest([c] + rest, index, uri)
  {
    forall i | 0 <= i < |[c] + rest| ensures Honest(([c] + rest)[i], index + i, uri) {
      if i > 0 {
        assert Honest(rest[i - 1], index + 1 + (i - 1), uri);
      }
    }
  }

  lemma {:induction false} WindowHonest(lines: seq<string>, uri: string, w: Window, index: nat)
    requires w.start < w.end <= |lines| && Strip(Join(lines[w.start..w.end])) != ""
    requires Broken(lines)
    ensures Honest(TextChunk(Strip(Join(lines[w.start..w.end])), uri, index,
                             Used(Counts(lines), w.start, w.end), w.start > 0), index, uri)
  {
    var joined := Join(lines[w.start..w.end]);
    JoinWords(lines, w.start, w.end);
    StripWords(joined);
    StripIsTrimmed(joined);
  }

  /** Each chunk's token count is the word count of its text, and indices count from zero. */
  lemma {:induction false} ChunksAreHonest(text: string, uri: string, s: Settings)
    ensures var chunks := ChunkText(text, uri, s);
            AllHonest(chunks, 0, uri)
  {
    var lines := Lines(text);
    WindowsFit(lines, s);
    forall i | 0 <= i < |lines| - 1 ensures lines[i] != [] && IsSpace(lines[i][|lines[i]| - 1]) {
      LinesEnd(text, i);
    }
    ChunksHonest(lines, uri, WindowsOf(lines, s), 0);
  }

  lemma {:induction false} LaterChunksContinue(lines: seq<string>, uri: string, windows: seq<Window>, index: nat)
    requires Fit(windows, |lines|) && forall i :: 0 <= i < |windows| ==> windows[i].start > 0
    ensures forall c :: c in ChunksOf(lines, Counts(lines), uri, windows, index) ==> c.isContinuation
  {
    if windows != [] {
      LaterChunksContinue(lines, uri, windows[1..], index);
      LaterChunksContinue(lines, uri, windows[1..], index + 1);
    }
  }

  lemma {:induction false} LaterStarts(windows: seq<Window>, i: nat)
    requires Steps(windows) && 0 < i < |windows|
    ensures windows[i].start > 0
  {
    assert Advances(windows[i - 1], windows[i]);
  }

  /** Every chunk but the first is a continuation; the first is one exactly when the first
      window is blank and emitted nothing. */
  lemma {:induction false} ContinuationFlags(text: string, uri: string, s: Settings, i: nat)
    requires i < |ChunkText(text, uri, s)|
    ensures ChunkText(text, uri, s)[i].isContinuation <==>
            i > 0 || Strip(Join(Lines(text)[..WindowsOf(Lines(text), s)[0].end])) == ""
  {
    var lines := Lines(text);
    WindowsFit(lines, s);
    if lines != [] {
      WindowsRun(Counts(lines), s, 0);
      var ws := WindowsOf(lines, s);
      forall j | 0 < j < |ws| ensures ws[j].start > 0 {
        LaterStarts(ws, j);
      }
      FirstMayContinue(lines, uri, ws, i);
    }
  }

  lemma {:induction false} FirstMayContinue(lines: seq<string>, uri: string, ws: seq<Window>, i: nat)
    requires ws != [] && Fit(ws, |lines|) && ws[0].start == 0 && forall j :: 0 < j < |ws| ==> ws[j].start > 0
    requires i < |ChunksOf(lines, Counts(lines), uri, ws, 0)|
    ensures ChunksOf(lines, Counts(lines), uri, ws, 0)[i].isContinuation <==>
            i > 0 || Strip(Join(lines[..ws[0].end])) == ""
  {
    var rest := ws[1..];
    assert forall j :: 0 <= j < |rest| ==> rest[j] == ws[j + 1];
    assert lines[0..ws[0].end] == lines[..ws[0].end];
    if Strip(Join(lines[..ws[0].end])) == "" {
      LaterChunksContinue(lines, uri, rest, 0);
      var chunks := ChunksOf(lines, Counts(lines), uri, rest, 0);
      assert chunks[i] in chunks;
    } else if i > 0 {
      LaterChunksContinue(lines, uri, rest, 1);
      var chunks := ChunksOf(lines, Counts(lines), uri, rest, 1);
      assert chunks[i - 1] in chunks;
    }
  }

  ghost predicate Holds(chunks: seq<TextChunk>, part: string) {
    exists c :: c in chunks && Contains(c.text, part)
  }

  lemma {:induction false} LineInChunk(lines: seq<string>, uri: string, windows: seq<Window>, index: nat, k: nat,
                                       n: nat)
    requires Fit(windows, |lines|)
    requires n < |windows| && windows[n].start <= k < windows[n].end && Strip(lines[k]) != ""
    ensures Holds(ChunksOf(lines, Counts(lines), uri, windows, index), Strip(lines[k]))
  {
    var w := windows[0];
    var body := Strip(Join(lines[w.start..w.end]));
    var later := if body == "" then index else index + 1;
    if n == 0 {
      LineInWindow(lines, w, k);
      var c := TextChunk(body, uri, index, Used(Counts(lines), w.start, w.end), w.start > 0);
      assert c in ChunksOf(lines, Counts(lines), uri, windows, index);
    } else {
      assert windows[1..][n - 1] == windows[n];
      LineInChunk(lines, uri, windows[1..], later, k, n - 1);
      var c :| c in ChunksOf(lines, Counts(lines), uri, windows[1..], later) && Contains(c.text, Strip(lines[k]));
      assert c in ChunksOf(lines, Counts(lines), uri, windows, index);
    }
  }

  lemma {:induction false} JoinAround(a: seq<string>, x: string, b: seq<string>)
    ensures Join(a + ([x] + b)) == Join(a) + (x + Join(b))
  {
    JoinAppend(a, [x] + b);
    assert ([x] + b)[1..] == b;
  }

  lemma {:induction false} PartInside(before: string, line: string, after: string)
    requires Strip(line) != ""
    ensures Contains(Strip(before + (line + after)), Strip(line))
  {
    var l, r := StripSplits(line);
    var part := Strip(line);
    assert before + (line + after) == (before + l) + part + (r + after);
    StripKeepsPart(before + l, part, r + after);
  }

  lemma {:induction false} LineInWindow(lines: seq<string>, w: Window, k: nat)
    requires w.start <= k < w.end <= |lines| && Strip(lines[k]) != ""
    ensures var body := Strip(Join(lines[w.start..w.end]));
            body != "" && Contains(body, Strip(lines[k]))
  {
    assert lines[w.start..w.end] == lines[w.start..k] + ([lines[k]] + lines[k + 1..w.end]);
    JoinAround(lines[w.start..k], lines[k], lines[k + 1..w.end]);
    PartInside(Join(lines[w.start..k]), lines[k], Join(lines[k + 1..w.end]));
    var a, b :| Strip(Join(lines[w.start..w.end])) == a + Strip(lines[k]) + b;
  }

  lemma {:induction false} WindowWithLine(windows: seq<Window>, k: nat) returns (n: nat)
    requires windows != [] && Steps(windows) && windows[0].start <= k < windows[|windows| - 1].end
    ensures n < |windows| && windows[n].start <= k < windows[n].end
  {
    if k < windows[0].end {
      n := 0;
    } else {
      assert Advances(windows[0], windows[1]);
      forall i | 0 <= i < |windows[1..]| - 1 ensures Advances(windows[1..][i], windows[1..][i + 1]) {
        assert Advances(windows[i + 1], windows[i + 2]);
      }
      n := WindowWithLine(windows[1..], k);
      n := n + 1;
    }
  }

  /** No text is lost: the stripped content of every line that is not blank stands in a chunk. */
  lemma {:induction false} EveryLineInAChunk(text: string, uri: string, s: Settings, k: nat)
    requires k < |Lines(text)| && Strip(Lines(text)[k]) != ""
    ensures Holds(ChunkText(text, uri, s), Strip(Lines(text)[k]))
  {
    var lines := Lines(text);
    WindowsRun(Counts(lines), s, 0);
    WindowsFit(lines, s);
    var n := WindowWithLine(WindowsOf(lines, s), k);
    LineInChunk(lines, uri, WindowsOf(lines, s), 0, k, n);
  }

  // ---------------------------------------------------------------- the loops

  lemma {:induction false} EmitOne(lines: seq<string>, tokens: seq<nat>, uri: string, windows: seq<Window>,
                                   done: seq<TextChunk>, chunks: seq<TextChunk>)
    requires |lines| == |tokens| && Fit(windows, |lines|) && windows != []
    requires var w := windows[0];
             var body := Strip(Join(lines[w.start..w.end]));
             chunks == if body == "" then done
                       else done + [TextChunk(body, uri, |done|, Used(tokens, w.start, w.end), w.start > 0)]
    ensures chunks + ChunksOf(lines, tokens, uri, windows[1..], |chunks|)
         == done + ChunksOf(lines, tokens, uri, windows, |done|)
  {
    var w := windows[0];
    var body := Strip(Join(lines[w.start..w.end]));
    if body != "" {
      var c := TextChunk(body, uri, |done|, Used(tokens, w.start, w.end), w.start > 0);
      Assoc(done, [c], ChunksOf(lines, tokens, uri, windows[1..], |done| + 1));
    }
  }

  class SlidingWindowChunker {
    const settings: Settings

    constructor (maxTokens: int, overlapTokens: int)
      ensures settings == Settings(maxTokens, overlapTokens)
    {
      settings := Settings(maxTokens, overlapTokens);
    }

    method Grow(tokens: seq<nat>, start: nat) returns (end: nat, used: nat)
      requires start < |tokens|
      ensures end == WindowEnd(tokens, settings, start, start) && used == Used(tokens, start, end)
    {
      used := 0;
      end := start;
      while end < |tokens|
        invariant start <= end <= |tokens| && used == Used(tokens, start, end)
        invariant WindowEnd(tokens, settings, start, end) == WindowEnd(tokens, settings, start, start)
      {
        var cost := tokens[end];
        if used + cost > settings.maxTokens && end > start {
          break;
        }
        used := used + cost;
        end := end + 1;
      }
    }

    method FindRestart(tokens: seq<nat>, start: nat, end: nat) returns (restart: nat)
      requires start < end <= |tokens|
      ensures restart == Restart(tokens, settings, start, end)
    {
      restart := end;
      if settings.overlapTokens > 0 {
        var accum := 0;
        var pos := end - 1;
        while pos > start
          invariant start <= pos < end && restart == pos + 1 && accum == Used(tokens, restart, end)
          invariant BackUp(tokens, settings, start, end, restart) == BackUp(tokens, settings, start, end, end)
        {
          UsedSplit(tokens, pos, pos + 1, end);
          if accum + tokens[pos] > settings.overlapTokens {
            break;
          }
          accum := accum + tokens[pos];
          restart := pos;
          pos := pos - 1;
        }
      }
    }

    method Chunk(text: string, uri: string) returns (chunks: seq<TextChunk>)
      ensures chunks == ChunkText(text, uri, settings)
    {
      var lines := Lines(text);
      if lines == [] {
        return [];
      }
      var tokens := Counts(lines);
      WindowsFit(lines, settings);
      chunks := EmitWindows(lines, tokens, uri);
    }

    method EmitWindows(lines: seq<string>, tokens: seq<nat>, uri: string) returns (chunks: seq<TextChunk>)
      requires |lines| == |tokens| > 0
      requires Fit(Windows(tokens, settings, 0), |lines|)
      ensures chunks == ChunksOf(lines, tokens, uri, Windows(tokens, settings, 0), 0)
    {
      chunks := [];
      var start := 0;
      while start < |lines|
        invariant start < |lines|
        invariant Fit(Windows(tokens, settings, start), |lines|)
        invariant chunks + ChunksOf(lines, tokens, uri, Windows(tokens, settings, start), |chunks|)
               == ChunksOf(lines, tokens, uri, Windows(tokens, settings, 0), 0)
        decreases |lines| - start
      {
        var end, used := Grow(tokens, start);
        WindowNotEmpty(tokens, settings, start);
        ghost var windows := Windows(tokens, settings, start);
        assert windows[0] == Window(start, end);
        var body := Strip(Join(lines[start..end]));
        ghost var done := chunks;
        if body != "" {
          chunks := chunks + [TextChunk(body, uri, |chunks|, used, start > 0)];
        }
        EmitOne(lines, tokens, uri, windows, done, chunks);
        if end >= |lines| {
          assert windows[1..] == [];
          break;
        }
        var restart := FindRestart(tokens, start, end);
        assert windows[1..] == Windows(tokens, settings, restart);
        start := restart;
      }
    }
  }
}
