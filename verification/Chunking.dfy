/** Cutting a document's text into overlapping windows that prefer to end at a space. */
module Chunking {
  import opened Common
  import opened Text

  datatype Window = Window(start: nat, end: nat)

  /** str.rfind(" ", start, end): the last space in the range, -1 without one. */
  function LastSpace(s: string, start: nat, end: nat): (i: int)
    requires start <= end <= |s|
    ensures i == -1 || (start <= i < end && s[i] == ' ')
    ensures forall j :: start <= j < end && s[j] == ' ' ==> j <= i
    decreases end - start
  {
    if start == end then -1
    else if s[end - 1] == ' ' then end - 1
    else LastSpace(s, start, end - 1)
  }

  /** A window ends at the size limit, or at the last space past its middle when more text follows. */
  function WindowEnd(s: string, size: nat, start: nat): (end: nat)
    requires start < |s| && size >= 1
    ensures start < end <= Min(|s|, start + size)
    ensures end < |s| ==> end >= start + size / 2 + 1
  {
    var end := Min(|s|, start + size);
    if end < |s| then
      var boundary := LastSpace(s, start, end);
      if boundary > start + size / 2 then boundary else end
    else end
  }

  function NextStart(start: nat, end: nat, overlap: nat): nat {
    if end - overlap >= start + 1 then end - overlap else start + 1
  }

  function Windows(s: string, size: nat, overlap: nat, start: nat): (ws: seq<Window>)
    requires start < |s| && overlap < size
    ensures ws != []
    decreases |s| - start
  {
    var end := WindowEnd(s, size, start);
    if end >= |s| then [Window(start, end)]
    else [Window(start, end)] + Windows(s, size, overlap, NextStart(start, end, overlap))
  }

  function AllWindows(s: string, size: nat, overlap: nat): seq<Window>
    requires overlap < size
  {
    if s == "" then [] else Windows(s, size, overlap, 0)
  }

  function Cut(s: string, w: Window): string {
    if w.start <= w.end <= |s| then s[w.start..w.end] else ""
  }

  /** A window's stripped text, unless it is blank. */
  function ChunkOf(s: string, w: Window): seq<string> {
    if Strip(Cut(s, w)) != "" then [Strip(Cut(s, w))] else []
  }

  function Chunks(s: string, ws: seq<Window>): seq<string> {
    if ws == [] then [] else ChunkOf(s, ws[0]) + Chunks(s, ws[1..])
  }

  lemma ChunksStep(s: string, size: nat, overlap: nat, start: nat)
    requires start < |s| && overlap < size
    ensures var end := WindowEnd(s, size, start);
            Chunks(s, Windows(s, size, overlap, start)) ==
            ChunkOf(s, Window(start, end)) +
            if end >= |s| then [] else Chunks(s, Windows(s, size, overlap, NextStart(start, end, overlap)))
  {
    hide ChunkOf, WindowEnd;
    var end := WindowEnd(s, size, start);
    if end < |s| {
      var tail := Windows(s, size, overlap, NextStart(start, end, overlap));
      assert ([Window(start, end)] + tail)[1..] == tail;
    }
  }

  /** At the top of the loop: what is collected and what is still to come make up all chunks. */
  ghost predicate Collected(s: string, size: nat, overlap: nat, start: nat, chunks: seq<string>) {
    && start < |s| && overlap < size
    && chunks + Chunks(s, Windows(s, size, overlap, start)) == Chunks(s, AllWindows(s, size, overlap))
  }

  lemma FirstCollected(s: string, size: nat, overlap: nat)
    requires overlap < size
    ensures s == "" ==> Chunks(s, AllWindows(s, size, overlap)) == []
    ensures s != "" ==> Collected(s, size, overlap, 0, [])
  {
  }

  lemma NextCollected(s: string, size: nat, overlap: nat, start: nat, chunks: seq<string>, end: nat, chunk: string)
    requires Collected(s, size, overlap, start, chunks)
    requires end == WindowEnd(s, size, start) && chunk == Strip(s[start..end])
    ensures var longer := if chunk != "" then chunks + [chunk] else chunks;
            if end >= |s| then longer == Chunks(s, AllWindows(s, size, overlap))
            else Collected(s, size, overlap, NextStart(start, end, overlap), longer)
  {
    hide WindowEnd, Strip, AllWindows, Chunks, Windows;
    var piece := if chunk != "" then [chunk] else [];
    assert piece == ChunkOf(s, Window(start, end));
    assert (if chunk != "" then chunks + [chunk] else chunks) == chunks + piece;
    ChunksStep(s, size, overlap, start);
    var rest := if end >= |s| then [] else Chunks(s, Windows(s, size, overlap, NextStart(start, end, overlap)));
    Regroup(chunks, piece, rest);
  }

  lemma Regroup(a: seq<string>, b: seq<string>, c: seq<string>)
    ensures a + (b + c) == (a + b) + c && (c == [] ==> (a + b) + c == a + b)
  {
  }

  /** The loop, for any text and any overlap smaller than the size. */
  method ChunkContent(content: string, size: nat, overlap: nat) returns (chunks: seq<string>)
    requires overlap < size
    ensures chunks == Chunks(content, AllWindows(content, size, overlap))
  {
    hide Chunks, Strip, Windows, AllWindows, Collected, LastSpace;
    FirstCollected(content, size, overlap);
    chunks := [];
    if content == "" {
      return;
    }
    var start := 0;
    while start < |content|
      invariant start < |content| && Collected(content, size, overlap, start, chunks)
      decreases |content| - start
    {
      var end := Min(|content|, start + size);
      if end < |content| {
        var boundary := LastSpace(content, start, end);
        if boundary > start + size / 2 {
          end := boundary;
        }
      }
      var chunk := Strip(content[start..end]);
      NextCollected(content, size, overlap, start, chunks, end, chunk);
      if chunk != "" {
        chunks := chunks + [chunk];
      }
      if end >= |content| {
        break;
      }
      start := NextStart(start, end, overlap);
    }
  }

  // ---- What the windows cover

  /** Window i begins right of its predecessor's beginning and no later than its end. */
  predicate Follows(ws: seq<Window>, i: nat)
    requires 0 < i < |ws|
  {
    ws[i - 1].start < ws[i].start <= ws[i - 1].end
  }

  predicate Fits(s: string, size: nat, w: Window) {
    w.start < w.end <= |s| && w.end - w.start <= size
  }

  /** Windows start at `start`, move strictly right, leave no gap and reach the end of the text. */
  ghost predicate Covers(ws: seq<Window>, s: string, start: nat, size: nat) {
    && ws != [] && ws[0].start == start && ws[|ws| - 1].end == |s|
    && (forall i :: 0 <= i < |ws| ==> Fits(s, size, ws[i]))
    && (forall i :: 0 < i < |ws| ==> Follows(ws, i))
  }

  lemma PrependCovers(tail: seq<Window>, s: string, w: Window, size: nat)
    requires tail != [] && Covers(tail, s, tail[0].start, size) && Fits(s, size, w)
    requires w.start < tail[0].start <= w.end
    ensures Covers([w] + tail, s, w.start, size)
  {
    var ws := [w] + tail;
    forall i | 0 < i < |ws| ensures Follows(ws, i) {
      if i > 1 {
        assert Follows(tail, i - 1);
      }
    }
  }

  lemma {:induction false} WindowsCover(s: string, size: nat, overlap: nat, start: nat)
    requires start < |s| && overlap < size
    ensures Covers(Windows(s, size, overlap, start), s, start, size)
    decreases |s| - start
  {
    var end := WindowEnd(s, size, start);
    if end < |s| {
      hide Covers, WindowEnd;
      var next := NextStart(start, end, overlap);
      WindowsCover(s, size, overlap, next);
      CoversStart(Windows(s, size, overlap, next), s, next, size);
      PrependCovers(Windows(s, size, overlap, next), s, Window(start, end), size);
    }
  }

  lemma CoversStart(ws: seq<Window>, s: string, start: nat, size: nat)
    requires Covers(ws, s, start, size)
    ensures ws[0].start == start && Covers(ws, s, ws[0].start, size)
  {
  }

  lemma CoversEnds(ws: seq<Window>, s: string, size: nat)
    requires Covers(ws, s, 0, size)
    ensures ws != [] && ws[|ws| - 1].end == |s|
  {
  }

  ghost predicate SpaceBetween(s: string, from: nat, to: nat)
    requires to <= |s|
  {
    exists p :: from < p < to && s[p] == ' '
  }

  /** A window that cannot hold the rest of the text ends at the last space past its middle, or at the size limit when
      there is none. */
  ghost predicate EndsRight(s: string, size: nat, w: Window) {
    if w.start + size >= |s| then w.end == |s|
    else
      var middle, limit := w.start + size / 2, w.start + size;
      if SpaceBetween(s, middle, limit) then
        middle < w.end < limit && s[w.end] == ' ' && !SpaceBetween(s, w.end, limit)
      else w.end == limit
  }

  /** A window shares `overlap` characters with the one before it, unless that one is no longer than the overlap: then
      it begins one character after it. */
  predicate BeginsRight(ws: seq<Window>, overlap: nat, i: nat)
    requires 0 < i < |ws|
  {
    if ws[i - 1].end - ws[i - 1].start > overlap then ws[i].start == ws[i - 1].end - overlap
    else ws[i].start == ws[i - 1].start + 1
  }

  lemma EndIsRight(s: string, size: nat, start: nat)
    requires start < |s| && size >= 1
    ensures EndsRight(s, size, Window(start, WindowEnd(s, size, start)))
  {
    hide LastSpace;
    var end := Min(|s|, start + size);
    if end < |s| {
      var boundary := LastSpace(s, start, end);
    }
  }

  /** The windows from `start` on: each ends and begins where it should, and the last alone reaches the end. */
  ghost predicate Exact(ws: seq<Window>, s: string, size: nat, overlap: nat, start: nat) {
    && ws != [] && ws[0].start == start
    && (forall i :: 0 <= i < |ws| ==> EndsRight(s, size, ws[i]) && (ws[i].end >= |s| <==> i == |ws| - 1))
    && (forall i :: 0 < i < |ws| ==> BeginsRight(ws, overlap, i))
  }

  lemma PrependExact(w: Window, tail: seq<Window>, s: string, size: nat, overlap: nat, next: nat)
    requires Exact(tail, s, size, overlap, next) && EndsRight(s, size, w) && w.end < |s|
    requires next == if w.end - w.start > overlap then w.end - overlap else w.start + 1
    ensures Exact([w] + tail, s, size, overlap, w.start)
  {
    hide EndsRight;
    var ws := [w] + tail;
    forall i | 0 < i < |ws| ensures BeginsRight(ws, overlap, i) {
      if i > 1 {
        assert BeginsRight(tail, overlap, i - 1);
      }
    }
  }

  lemma LastIsExact(s: string, size: nat, overlap: nat, w: Window)
    requires EndsRight(s, size, w) && w.end >= |s|
    ensures Exact([w], s, size, overlap, w.start)
  {
    hide EndsRight;
  }

  /** These conditions hold of the windows, and so say which they are. */
  lemma {:induction false} WindowsAreExact(s: string, size: nat, overlap: nat, start: nat)
    requires start < |s| && overlap < size
    ensures Exact(Windows(s, size, overlap, start), s, size, overlap, start)
    decreases |s| - start
  {
    hide Exact, EndsRight, WindowEnd;
    var end := WindowEnd(s, size, start);
    EndIsRight(s, size, start);
    if end < |s| {
      var next := NextStart(start, end, overlap);
      WindowsAreExact(s, size, overlap, next);
      PrependExact(Window(start, end), Windows(s, size, overlap, next), s, size, overlap, next);
    } else {
      LastIsExact(s, size, overlap, Window(start, end));
    }
  }

  /** Laying the windows down in order, each adding what lies beyond the text so far. */
  function Rebuild(s: string, ws: seq<Window>): string {
    if ws == [] then ""
    else
      var acc, w := Rebuild(s, ws[..|ws| - 1]), ws[|ws| - 1];
      var piece := Cut(s, w);
      if w.start <= |acc| < w.start + |piece| then acc + piece[|acc| - w.start..] else acc
  }

  lemma {:induction false} RebuildIsPrefix(s: string, size: nat, ws: seq<Window>, n: nat)
    requires Covers(ws, s, 0, size) && 0 < n <= |ws|
    ensures var acc := Rebuild(s, ws[..n]);
            |acc| <= |s| && acc == s[..|acc|] && |acc| >= ws[n - 1].end
  {
    var w := ws[n - 1];
    assert Fits(s, size, w);
    assert ws[..n][..n - 1] == ws[..n - 1];
    if n > 1 {
      RebuildIsPrefix(s, size, ws, n - 1);
      assert Follows(ws, n - 1);
    }
    hide Covers;
    AddPiece(s, Rebuild(s, ws[..n - 1]), w);
  }

  lemma AddPiece(s: string, acc: string, w: Window)
    requires |acc| <= |s| && acc == s[..|acc|] && w.start <= |acc| && w.start <= w.end <= |s|
    ensures var piece := Cut(s, w);
            var next := if |acc| < w.start + |piece| then acc + piece[|acc| - w.start..] else acc;
            |next| <= |s| && next == s[..|next|] && |next| >= w.end
  {
  }

  lemma CoverRebuilds(s: string, size: nat, ws: seq<Window>)
    requires Covers(ws, s, 0, size)
    ensures Rebuild(s, ws) == s
  {
    hide Covers, Rebuild;
    CoversEnds(ws, s, size);
    RebuildIsPrefix(s, size, ws, |ws|);
    assert ws[..|ws|] == ws;
  }

  /** The windows rebuild the text exactly. */
  lemma WindowsRebuildTheText(s: string, size: nat, overlap: nat)
    requires overlap < size
    ensures Rebuild(s, AllWindows(s, size, overlap)) == s
  {
    hide Covers, Windows;
    if s != "" {
      WindowsCover(s, size, overlap, 0);
      CoverRebuilds(s, size, AllWindows(s, size, overlap));
    }
  }

  lemma SomeWindowHolds(ws: seq<Window>, s: string, size: nat, p: nat) returns (i: nat)
    requires Covers(ws, s, 0, size) && p < |s|
    ensures i < |ws| && ws[i].start <= p < ws[i].end
  {
    i := |ws| - 1;
    while ws[i].start > p
      invariant i < |ws| && p < ws[i].end
    {
      assert Follows(ws, i);
      i := i - 1;
    }
  }

  lemma {:induction false} ChunkOfWindow(s: string, ws: seq<Window>, i: nat) returns (k: nat)
    requires i < |ws| && Strip(Cut(s, ws[i])) != ""
    ensures k < |Chunks(s, ws)| && Chunks(s, ws)[k] == Strip(Cut(s, ws[i]))
  {
    hide Strip, Cut;
    if i == 0 {
      k := 0;
    } else {
      k := ChunkOfWindow(s, ws[1..], i - 1);
      k := k + |ChunkOf(s, ws[0])|;
    }
  }

  /** A chunk of at most `size` characters lies in the text at [at, at + |chunk|) and holds position p. */
  predicate HoldsPosition(s: string, chunk: string, at: nat, p: nat, size: nat) {
    |chunk| <= size && at <= p < at + |chunk| <= |s| && s[at..at + |chunk|] == chunk
  }

  lemma SliceOfSlice(s: string, from: nat, to: nat, a: nat, b: nat)
    requires from <= to <= |s| && a <= b <= to - from
    ensures s[from..to][a..b] == s[from + a..from + b]
  {
    var x, y := s[from..to][a..b], s[from + a..from + b];
    assert forall i :: 0 <= i < |x| ==> x[i] == y[i];
  }

  lemma StripKeeps(s: string, w: Window, size: nat, p: nat) returns (at: nat)
    requires Fits(s, size, w) && w.start <= p < w.end && !IsSpace(s[p])
    ensures Strip(Cut(s, w)) != "" && HoldsPosition(s, Strip(Cut(s, w)), at, p, size)
  {
    var piece := Cut(s, w);
    var b := StripBounds(piece);
    StripBoundsAreTight(piece);
    assert piece[p - w.start] == s[p];
    at := w.start + b.0;
    SliceOfSlice(s, w.start, w.end, b.0, b.1);
    assert b.0 <= p - w.start < b.1;
    assert at + (b.1 - b.0) == w.start + b.1;
    assert Strip(piece) == piece[b.0..b.1];
  }

  /** Every non-whitespace character of the text is in some chunk, which is at most `size` long. */
  lemma NoTextIsLost(s: string, size: nat, overlap: nat, p: nat) returns (k: nat, at: nat)
    requires overlap < size && p < |s| && !IsSpace(s[p])
    ensures var chunks := Chunks(s, AllWindows(s, size, overlap));
            k < |chunks| && HoldsPosition(s, chunks[k], at, p, size)
  {
    hide Strip, Chunks;
    WindowsCover(s, size, overlap, 0);
    var ws := AllWindows(s, size, overlap);
    var i := SomeWindowHolds(ws, s, size, p);
    at := StripKeeps(s, ws[i], size, p);
    k := ChunkOfWindow(s, ws, i);
  }

  // ---- How many windows there are

  /** With overlap at most half the size every step advances by at least size/2 + 1 - overlap. */
  lemma {:induction false} WindowsAdvance(s: string, size: nat, overlap: nat, start: nat, step: nat)
    requires start < |s| && overlap < size && step == size / 2 + 1 - overlap && step >= 1
    ensures (|Windows(s, size, overlap, start)| - 1) * step < |s| - start
    decreases |s| - start
  {
    var end := WindowEnd(s, size, start);
    if end < |s| {
      var next := NextStart(start, end, overlap);
      assert next >= start + step;
      WindowsAdvance(s, size, overlap, next, step);
      hide WindowEnd, NextStart;
      OneMoreStep(|Windows(s, size, overlap, next)|, step);
    }
  }

  lemma OneMoreStep(count: nat, step: nat)
    ensures (count - 1) * step + step == count * step
  {
  }

  /** All windows but the last together advance by no more than the text: there are at most
      1 + n / (size/2 + 1 - overlap) of them. */
  lemma WindowCountIsLinear(s: string, size: nat, overlap: nat)
    requires overlap <= size / 2 && size >= 1
    ensures s != "" ==> (|AllWindows(s, size, overlap)| - 1) * (size / 2 + 1 - overlap) < |s|
    ensures |Chunks(s, AllWindows(s, size, overlap))| <= |AllWindows(s, size, overlap)|
  {
    hide Windows, Chunks;
    if s != "" {
      WindowsAdvance(s, size, overlap, 0, size / 2 + 1 - overlap);
    }
    ChunksPerWindow(s, AllWindows(s, size, overlap));
  }

  predicate Blank(s: string, w: Window) {
    Strip(Cut(s, w)) == ""
  }

  /** How many of the first `n` windows are not blank. */
  function Shown(s: string, ws: seq<Window>, n: nat): nat
    requires n <= |ws|
  {
    if n == 0 then 0 else Shown(s, ws, n - 1) + if Blank(s, ws[n - 1]) then 0 else 1
  }

  lemma {:induction false} ChunksFromTheEnd(s: string, ws: seq<Window>)
    requires ws != []
    ensures Chunks(s, ws) == Chunks(s, ws[..|ws| - 1]) + ChunkOf(s, ws[|ws| - 1])
  {
    hide ChunkOf;
    if |ws| > 1 {
      var tail, front := ws[1..], ws[..|ws| - 1];
      ChunksFromTheEnd(s, tail);
      assert tail[..|tail| - 1] == front[1..];
    }
  }

  lemma {:induction false} SameShown(s: string, ws: seq<Window>, n: nat)
    requires n < |ws|
    ensures Shown(s, ws, n) == Shown(s, ws[..|ws| - 1], n)
  {
    hide Blank;
    if n > 0 {
      SameShown(s, ws, n - 1);
    }
  }

  /** The chunks are the stripped texts of the windows that are not blank, in order. */
  lemma {:induction false} ChunksAreTheWindows(s: string, ws: seq<Window>, i: nat)
    ensures |Chunks(s, ws)| == Shown(s, ws, |ws|)
    ensures i < |ws| && !Blank(s, ws[i]) ==>
              Shown(s, ws, i) < |Chunks(s, ws)| && Chunks(s, ws)[Shown(s, ws, i)] == Strip(Cut(s, ws[i]))
  {
    hide Strip, Cut;
    if ws != [] {
      var n := |ws| - 1;
      ChunksFromTheEnd(s, ws);
      ChunksAreTheWindows(s, ws[..n], i);
      SameShown(s, ws, n);
      if i < n {
        SameShown(s, ws, i);
      }
    }
  }

  lemma {:induction false} ChunksPerWindow(s: string, ws: seq<Window>)
    ensures |Chunks(s, ws)| <= |ws|
  {
    hide Strip, Cut;
    if ws != [] {
      ChunksPerWindow(s, ws[1..]);
    }
  }

  // ---- Numbering chunks across pages

  datatype Page = Page(number: int, content: string)

  datatype Chunk = Chunk(index: nat, page: int, content: string)

  /** What build_chunks produces of some pages, before numbering. */
  function Built(pages: seq<Page>, size: nat, overlap: nat): seq<(int, string)>
    requires overlap < size
  {
    if pages == [] then []
    else
      var page := pages[|pages| - 1];
      Built(pages[..|pages| - 1], size, overlap)
      + Labelled(page.number, Chunks(page.content, AllWindows(page.content, size, overlap)))
  }

  function Labelled(number: int, contents: seq<string>): seq<(int, string)> {
    seq(|contents|, i requires 0 <= i < |contents| => (number, contents[i]))
  }

  ghost predicate Numbered(chunks: seq<Chunk>, built: seq<(int, string)>) {
    && |chunks| == |built|
    && forall i :: 0 <= i < |chunks| ==> chunks[i] == Chunk(i, built[i].0, built[i].1)
  }

  /** How many chunks the pages before the p-th one make. */
  function ChunksBefore(pages: seq<Page>, size: nat, overlap: nat, p: nat): nat
    requires overlap < size && p <= |pages|
  {
    if p == 0 then 0
    else ChunksBefore(pages, size, overlap, p - 1) +
         |Chunks(pages[p - 1].content, AllWindows(pages[p - 1].content, size, overlap))|
  }

  /** The chunks of each page follow those of the pages before it, in order, under its page number. */
  lemma {:induction false} BuiltPageByPage(pages: seq<Page>, size: nat, overlap: nat, p: nat, c: nat)
    requires overlap < size && p < |pages|
    requires c < |Chunks(pages[p].content, AllWindows(pages[p].content, size, overlap))|
    ensures |Built(pages, size, overlap)| == ChunksBefore(pages, size, overlap, |pages|)
    ensures var at := ChunksBefore(pages, size, overlap, p) + c;
            at < |Built(pages, size, overlap)| &&
            Built(pages, size, overlap)[at] ==
            (pages[p].number, Chunks(pages[p].content, AllWindows(pages[p].content, size, overlap))[c])
  {
    hide Chunks, AllWindows;
    var front := pages[..|pages| - 1];
    BuiltSize(front, size, overlap);
    BuiltSize(pages, size, overlap);
    SamePrefix(pages, front, size, overlap, p);
    SamePrefix(pages, front, size, overlap, |front|);
    if p < |front| {
      BuiltPageByPage(front, size, overlap, p, c);
    }
  }

  lemma {:induction false} BuiltSize(pages: seq<Page>, size: nat, overlap: nat)
    requires overlap < size
    ensures |Built(pages, size, overlap)| == ChunksBefore(pages, size, overlap, |pages|)
  {
    hide Chunks, AllWindows;
    if pages != [] {
      var front := pages[..|pages| - 1];
      BuiltSize(front, size, overlap);
      SamePrefix(pages, front, size, overlap, |front|);
    }
  }

  lemma {:induction false} SamePrefix(pages: seq<Page>, front: seq<Page>, size: nat, overlap: nat, p: nat)
    requires overlap < size && p <= |front| <= |pages| && front == pages[..|front|]
    ensures ChunksBefore(pages, size, overlap, p) == ChunksBefore(front, size, overlap, p)
  {
    hide Chunks, AllWindows;
    if p > 0 {
      SamePrefix(pages, front, size, overlap, p - 1);
    }
  }

  /** Chunks are numbered 0, 1, 2, ... across all pages, in page and text order. */
  method BuildChunks(pages: seq<Page>, size: nat, overlap: nat) returns (chunks: seq<Chunk>)
    requires overlap < size
    ensures Numbered(chunks, Built(pages, size, overlap))
  {
    hide Chunks, AllWindows;
    chunks := [];
    for p := 0 to |pages|
      invariant Numbered(chunks, Built(pages[..p], size, overlap))
    {
      assert pages[..p + 1][..p] == pages[..p];
      ghost var before := Built(pages[..p], size, overlap);
      var contents := ChunkContent(pages[p].content, size, overlap);
      ghost var labelled := Labelled(pages[p].number, contents);
      assert Built(pages[..p + 1], size, overlap) == before + labelled;
      for c := 0 to |contents|
        invariant Numbered(chunks, before + labelled[..c])
      {
        chunks := chunks + [Chunk(|chunks|, pages[p].number, contents[c])];
      }
      assert labelled[..|contents|] == labelled;
    }
    assert pages[..|pages|] == pages;
  }
}
