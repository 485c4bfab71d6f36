/** The chunks against the text alone: where they stand, what they cover, how long they are. */
module ChunkPlaces {
  import opened Text
  import opened TextLaws
  import opened Chunker

  /** The part stands in the text from a position on. */
  predicate StandsAt(text: string, at: nat, part: string) {
    at + |part| <= |text| && text[at..at + |part|] == part
  }

  function ChunkOf(lines: seq<string>, uri: string, w: Window, index: nat): TextChunk
    requires w.start < w.end <= |lines|
  {
    TextChunk(Strip(Join(lines[w.start..w.end])), uri, index, Used(Counts(lines), w.start, w.end), w.start > 0)
  }

  // ---------------------------------------------------------------- windows as parts of the text

  /** Where a line begins. */
  function Offset(lines: seq<string>, k: nat): nat
    requires k <= |lines|
  {
    |Join(lines[..k])|
  }

  lemma {:induction false} JoinParts(lines: seq<string>, start: nat, end: nat)
    requires start <= end <= |lines|
    ensures Join(lines) == Join(lines[..start]) + (Join(lines[start..end]) + Join(lines[end..]))
    ensures Offset(lines, end) == Offset(lines, start) + |Join(lines[start..end])| <= |Join(lines)|
  {
    assert lines == lines[..end] + lines[end..];
    assert lines[..end] == lines[..start] + lines[start..end];
    JoinAppend(lines[..end], lines[end..]);
    JoinAppend(lines[..start], lines[start..end]);
    Assoc(Join(lines[..start]), Join(lines[start..end]), Join(lines[end..]));
  }

  lemma {:induction false} OffsetsOrdered(lines: seq<string>, a: nat, b: nat)
    requires a <= b <= |lines|
    ensures Offset(lines, a) <= Offset(lines, b) <= |Join(lines)|
  {
    JoinParts(lines, a, b);
  }

  /** The stripped window stands in the text; the rest of the window is white space. */
  ghost predicate IsBodyAt(text: string, from: nat, upTo: nat, at: nat, body: string) {
    && from <= at && at + |body| <= upTo <= |text| && text[at..at + |body|] == body
    && (forall k :: from <= k < upTo && !IsSpace(text[k]) ==> at <= k < at + |body|)
    && (body != [] ==> !IsSpace(text[at]))
  }

  lemma {:induction false} BodyInPart(a: string, l: string, body: string, r: string, b: string)
    requires AllSpace(l) && AllSpace(r) && (body == [] || Trimmed(body))
    ensures IsBodyAt(a + ((l + body + r) + b), |a|, |a + (l + body + r)|, |a + l|, body)
  {
    var text, at := a + ((l + body + r) + b), |a + l|;
    assert text == (a + l) + (body + (r + b));
    assert text[at..] == body + (r + b);
    assert text[at..at + |body|] == body;
    assert forall j :: 0 <= j < |l| ==> text[|a| + j] == l[j];
    assert forall j :: 0 <= j < |r| ==> text[at + |body| + j] == r[j];
    forall k | |a| <= k < |a + (l + body + r)| && !(at <= k < at + |body|) ensures IsSpace(text[k]) {
      if k < at {
        assert text[|a| + (k - |a|)] == l[k - |a|];
      } else {
        assert text[at + |body| + (k - at - |body|)] == r[k - at - |body|];
      }
    }
    assert body != [] ==> text[at] == body[0];
  }

  lemma {:induction false} WindowPlace(lines: seq<string>, w: Window) returns (at: nat)
    requires w.start < w.end <= |lines|
    ensures IsBodyAt(Join(lines), Offset(lines, w.start), Offset(lines, w.end), at,
                     Strip(Join(lines[w.start..w.end])))
  {
    var part := Join(lines[w.start..w.end]);
    var l, r := StripSplits(part);
    JoinParts(lines, w.start, w.end);
    BodyInPart(Join(lines[..w.start]), l, Strip(part), r, Join(lines[w.end..]));
    at := |Join(lines[..w.start]) + l|;
  }

  // ---------------------------------------------------------------- chunks in their places

  /** Each chunk stands at its place, and the places never go back. */
  predicate InPlace(text: string, chunks: seq<TextChunk>, places: seq<nat>) {
    && |places| == |chunks|
    && (forall i :: 0 <= i < |chunks| ==> StandsAt(text, places[i], chunks[i].text))
    && (forall i, j :: 0 <= i < j < |places| ==> places[i] <= places[j])
  }

  /** Some chunk stands over the position. */
  predicate Covered(chunks: seq<TextChunk>, places: seq<nat>, k: nat)
    requires |places| == |chunks|
  {
    exists i :: 0 <= i < |chunks| && places[i] <= k < places[i] + |chunks[i].text|
  }

  /** The chunks stand in place from a position on, and over every character there that is not
      white space. */
  predicate WellPlaced(text: string, from: nat, chunks: seq<TextChunk>, places: seq<nat>) {
    && InPlace(text, chunks, places)
    && (forall i :: 0 <= i < |places| ==> from <= places[i] < |text| && !IsSpace(text[places[i]]))
    && (forall k :: from <= k < |text| && !IsSpace(text[k]) ==> Covered(chunks, places, k))
  }

  lemma {:induction false} CoveredCons(c: TextChunk, at: nat, chunks: seq<TextChunk>, places: seq<nat>, k: nat)
    requires |places| == |chunks|
    ensures at <= k < at + |c.text| ==> Covered([c] + chunks, [at] + places, k)
    ensures Covered(chunks, places, k) ==> Covered([c] + chunks, [at] + places, k)
  {
    var cs, ps := [c] + chunks, [at] + places;
    if at <= k < at + |c.text| {
      assert ps[0] <= k < ps[0] + |cs[0].text|;
    }
    if i :| 0 <= i < |chunks| && places[i] <= k < places[i] + |chunks[i].text| {
      assert ps[i + 1] <= k < ps[i + 1] + |cs[i + 1].text|;
    }
  }

  lemma {:induction false} PlaceCons(text: string, c: TextChunk, at: nat, chunks: seq<TextChunk>, places: seq<nat>)
    requires InPlace(text, chunks, places) && StandsAt(text, at, c.text)
    requires forall i :: 0 <= i < |places| ==> at <= places[i]
    ensures InPlace(text, [c] + chunks, [at] + places)
  {
  }

  lemma {:induction false} CoveredFromFront(text: string, from: nat, upTo: nat, next: nat, at: nat, c: TextChunk,
                                            chunks: seq<TextChunk>, places: seq<nat>, k: nat)
    requires IsBodyAt(text, from, upTo, at, c.text) && next <= upTo && |places| == |chunks|
    requires next <= k < |text| && !IsSpace(text[k]) ==> Covered(chunks, places, k)
    requires from <= k < |text| && !IsSpace(text[k])
    ensures Covered([c] + chunks, [at] + places, k)
  {
    CoveredCons(c, at, chunks, places, k);
  }

  /** One more window in front. */
  lemma {:induction false} PlaceWindow(text: string, from: nat, upTo: nat, next: nat, at: nat, c: TextChunk,
                                       chunks: seq<TextChunk>, places: seq<nat>)
    requires IsBodyAt(text, from, upTo, at, c.text) && c.text != [] && from <= next <= upTo
    requires WellPlaced(text, next, chunks, places)
    ensures WellPlaced(text, from, [c] + chunks, [at] + places)
  {
    forall i | 0 <= i < |places| ensures at <= places[i] {
      assert places[i] < upTo ==> at <= places[i];
    }
    PlaceCons(text, c, at, chunks, places);
    forall k | from <= k < |text| && !IsSpace(text[k]) ensures Covered([c] + chunks, [at] + places, k) {
      CoveredFromFront(text, from, upTo, next, at, c, chunks, places, k);
    }
    NotBefore(text, from, at, places);
  }

  lemma {:induction false} NotBefore(text: string, from: nat, at: nat, places: seq<nat>)
    requires from <= at < |text| && !IsSpace(text[at])
    requires forall i :: 0 <= i < |places| ==> from <= places[i] < |text| && !IsSpace(text[places[i]])
    ensures var all := [at] + places;
      forall i :: 0 <= i < |all| ==> from <= all[i] < |text| && !IsSpace(text[all[i]])
  {
  }

  lemma {:induction false} PlaceBlank(text: string, from: nat, upTo: nat, next: nat, at: nat,
                                      chunks: seq<TextChunk>, places: seq<nat>)
    requires IsBodyAt(text, from, upTo, at, "") && from <= next <= upTo
    requires WellPlaced(text, next, chunks, places)
    ensures WellPlaced(text, from, chunks, places)
  {
  }

  /** Where the windows behind the first begin: within it, or at its end. */
  lemma {:induction false} NextPlace(lines: seq<string>, windows: seq<Window>) returns (next: nat)
    requires Fit(windows, |lines|) && Steps(windows) && windows != [] && windows[|windows| - 1].end == |lines|
    ensures Offset(lines, windows[0].start) <= next <= Offset(lines, windows[0].end)
    ensures next == if |windows| == 1 then |Join(lines)| else Offset(lines, windows[1].start)
  {
    var w := windows[0];
    OffsetsOrdered(lines, w.start, w.end);
    if |windows| == 1 {
      next := |Join(lines)|;
      assert lines[..|lines|] == lines;
    } else {
      assert Advances(w, windows[1]);
      next := Offset(lines, windows[1].start);
      OffsetsOrdered(lines, w.start, windows[1].start);
      OffsetsOrdered(lines, windows[1].start, w.end);
    }
  }

  lemma {:induction false} PlaceWindows(lines: seq<string>, uri: string, windows: seq<Window>, index: nat)
    returns (places: seq<nat>)
    requires Fit(windows, |lines|) && Steps(windows) && windows != [] && windows[|windows| - 1].end == |lines|
    ensures WellPlaced(Join(lines), Offset(lines, windows[0].start),
                       ChunksOf(lines, Counts(lines), uri, windows, index), places)
  {
    var w, rest := windows[0], windows[1..];
    var later := if Strip(Join(lines[w.start..w.end])) == "" then index else index + 1;
    var next := NextPlace(lines, windows);
    if rest == [] {
      places := [];
    } else {
      StepsTail(windows);
      assert rest[|rest| - 1] == windows[|windows| - 1];
      places := PlaceWindows(lines, uri, rest, later);
    }
    var at := WindowPlace(lines, w);
    places := PlaceOne(lines, uri, windows, index, next, at, places);
  }

  lemma {:induction false} PlaceOne(lines: seq<string>, uri: string, windows: seq<Window>, index: nat, next: nat,
                                    at: nat, later: seq<nat>)
    returns (places: seq<nat>)
    requires Fit(windows, |lines|) && windows != []
    requires var w := windows[0];
      var body := Strip(Join(lines[w.start..w.end]));
      && IsBodyAt(Join(lines), Offset(lines, w.start), Offset(lines, w.end), at, body)
      && Offset(lines, w.start) <= next <= Offset(lines, w.end)
      && WellPlaced(Join(lines), next, ChunksOf(lines, Counts(lines), uri, windows[1..],
                                                if body == "" then index else index + 1), later)
    ensures WellPlaced(Join(lines), Offset(lines, windows[0].start),
                       ChunksOf(lines, Counts(lines), uri, windows, index), places)
  {
    var w := windows[0];
    var body := Strip(Join(lines[w.start..w.end]));
    if body == "" {
      places := later;
      PlaceBlank(Join(lines), Offset(lines, w.start), Offset(lines, w.end), next, at,
                 ChunksOf(lines, Counts(lines), uri, windows[1..], index), later);
    } else {
      places := [at] + later;
      PlaceWindow(Join(lines), Offset(lines, w.start), Offset(lines, w.end), next, at,
                  ChunkOf(lines, uri, w, index), ChunksOf(lines, Counts(lines), uri, windows[1..], index + 1), later);
    }
  }

  /** Each chunk is a part of the text, in order, and every character that is not white space
      stands in a chunk. */
  lemma {:induction false} ChunksStandInText(text: string, uri: string, s: Settings) returns (places: seq<nat>)
    ensures WellPlaced(text, 0, ChunkText(text, uri, s), places)
  {
    var lines := Lines(text);
    JoinLines(text);
    WindowsFit(lines, s);
    if lines == [] {
      places := [];
    } else {
      WindowsRun(Counts(lines), s, 0);
      assert lines[..0] == [];
      places := PlaceWindows(lines, uri, WindowsOf(lines, s), 0);
    }
  }

  // ---------------------------------------------------------------- how long they are

  /** The chunk is that of some window. */
  ghost predicate HasWindow(lines: seq<string>, uri: string, windows: seq<Window>, c: TextChunk)
    requires Fit(windows, |lines|)
  {
    exists n :: 0 <= n < |windows| && c == ChunkOf(lines, uri, windows[n], c.chunkIndex)
  }

  lemma {:induction false} HasLaterWindow(lines: seq<string>, uri: string, windows: seq<Window>, c: TextChunk)
    requires Fit(windows, |lines|) && windows != [] && HasWindow(lines, uri, windows[1..], c)
    ensures HasWindow(lines, uri, windows, c)
  {
    var n :| 0 <= n < |windows[1..]| && c == ChunkOf(lines, uri, windows[1..][n], c.chunkIndex);
    assert windows[n + 1] == windows[1..][n];
  }

  lemma {:induction false} ChunkHasWindow(lines: seq<string>, uri: string, windows: seq<Window>, index: nat,
                                          c: TextChunk)
    requires Fit(windows, |lines|) && c in ChunksOf(lines, Counts(lines), uri, windows, index)
    ensures HasWindow(lines, uri, windows, c)
  {
    var w := windows[0];
    if Strip(Join(lines[w.start..w.end])) == "" {
      ChunkHasWindow(lines, uri, windows[1..], index, c);
      HasLaterWindow(lines, uri, windows, c);
    } else if c == ChunkOf(lines, uri, w, index) {
      assert c == ChunkOf(lines, uri, windows[0], c.chunkIndex);
    } else {
      ChunkHasWindow(lines, uri, windows[1..], index + 1, c);
      HasLaterWindow(lines, uri, windows, c);
    }
  }

  lemma {:induction false} LineStripsWhole(l: string)
    requires IsLine(l)
    ensures forall c :: c in Strip(l) ==> !IsLineBreak(c)
  {
    var a, b := StripSplits(l);
    var body := Strip(l);
    forall c | c in body ensures !IsLineBreak(c) {
      var k :| 0 <= k < |body| && body[k] == c;
      assert l[|a| + k] == c && l[|a| + |body| - 1] == body[|body| - 1];
      NoBreakBefore(l, |a| + k, |a| + |body| - 1);
    }
  }

  lemma {:induction false} NoBreakBefore(l: string, j: nat, last: nat)
    requires IsLine(l) && j <= last < |l| && !IsSpace(l[last])
    ensures !IsLineBreak(l[j])
  {
  }

  lemma {:induction false} WindowIsLimited(lines: seq<string>, uri: string, s: Settings, w: Window, index: nat)
    requires w.start < w.end <= |lines| && Limited(Counts(lines), s, w) && AreLines(lines)
    ensures var c := ChunkOf(lines, uri, w, index);
      c.tokens <= s.maxTokens || forall x :: x in c.text ==> !IsLineBreak(x)
  {
    if w.end == w.start + 1 {
      assert lines[w.start..w.end] == [lines[w.start]];
      assert Join([lines[w.start]]) == lines[w.start];
      LineStripsWhole(lines[w.start]);
    }
  }

  /** A chunk keeps to the limit, or it is one line without its end. */
  lemma {:induction false} ChunkIsLimited(text: string, uri: string, s: Settings, c: TextChunk)
    requires c in ChunkText(text, uri, s)
    ensures c.tokens <= s.maxTokens || forall x :: x in c.text ==> !IsLineBreak(x)
  {
    var lines := Lines(text);
    WindowsFit(lines, s);
    ChunkHasWindow(lines, uri, WindowsOf(lines, s), 0, c);
    var n :| 0 <= n < |WindowsOf(lines, s)| && c == ChunkOf(lines, uri, WindowsOf(lines, s)[n], c.chunkIndex);
    WindowsRun(Counts(lines), s, 0);
    LinesSplit(text);
    WindowIsLimited(lines, uri, s, WindowsOf(lines, s)[n], c.chunkIndex);
  }
}
