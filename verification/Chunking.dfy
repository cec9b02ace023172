/** `_chunk_section` and `chunk_markdown` of the document processor. */
module Chunking {
  import opened Text
  import opened Sections

  /** The environment settings CHUNK_SIZE, CHUNK_OVERLAP and BATCH_SIZE: any integers. */
  datatype Config = Config(chunkSize: int, overlap: int, batchSize: int)

  datatype Kind = CompleteSection | SectionPart

  datatype Chunk = Chunk(content: string, header: string, level: nat, size: nat, kind: Kind)

  /** A chunk with the document metadata that `chunk_markdown` adds. */
  datatype Entry = Entry(chunk: Chunk, path: string, index: nat, total: nat)

  // ----- windows: which lines a chunk is made of -----

  /** Lines lo..hi form one chunk; lines lo..seen were already part of the chunk before it. */
  datatype Window = Window(lo: nat, seen: nat, hi: nat)

  /** Python's `xs[-n:]`: for n = 0 the whole list, for negative n all but the first -n items. */
  function PyTail<T>(xs: seq<T>, n: int): seq<T> {
    if n > 0 then (if n < |xs| then xs[|xs| - n..] else xs)
    else if -n < |xs| then xs[-n..] else []
  }

  /** First line of the next chunk after a chunk of the lines lo..hi. */
  function NextStart(cfg: Config, lo: nat, hi: nat): (r: nat)
    requires lo <= hi
    ensures lo <= r <= hi
    ensures cfg.overlap > 0 && lo < hi ==> r == if hi - lo > cfg.overlap then hi - cfg.overlap else hi
    ensures lo < hi ==> (r == lo <==> cfg.overlap == 0)
  {
    if hi - lo <= cfg.overlap then hi
    else if cfg.overlap > 0 then hi - cfg.overlap
    else if lo - cfg.overlap < hi then lo - cfg.overlap else hi
  }

  /** Line i ends a chunk that began at line lo: it is blank, it is not inside a code block of
      the section, and the chunk is larger than the limit. */
  predicate IsCut(cfg: Config, lines: seq<string>, lo: nat, i: nat)
    requires lo <= i < |lines|
  {
    && Strip(Python, lines[i]) == ""
    && FenceCount(Python, lines[..i + 1]) % 2 == 0
    && Size(lines[lo..i + 1]) > cfg.chunkSize
  }

  function WindowsFrom(cfg: Config, lines: seq<string>, lo: nat, seen: nat, pos: nat): (ws: seq<Window>)
    requires lo <= seen <= pos <= |lines|
    ensures forall k :: 0 <= k < |ws| ==> ws[k].lo <= ws[k].seen <= ws[k].hi <= |lines|
    decreases |lines| - pos
  {
    if pos == |lines| then
      if lo < |lines| then [Window(lo, seen, pos)] else []
    else if IsCut(cfg, lines, lo, pos) then
      [Window(lo, seen, pos + 1)] + WindowsFrom(cfg, lines, NextStart(cfg, lo, pos + 1), pos + 1, pos + 1)
    else
      WindowsFrom(cfg, lines, lo, seen, pos + 1)
  }

  function Windows(cfg: Config, lines: seq<string>): (ws: seq<Window>)
    ensures forall k :: 0 <= k < |ws| ==> ws[k].lo <= ws[k].seen <= ws[k].hi <= |lines|
  {
    WindowsFrom(cfg, lines, 0, 0, 0)
  }

  /** Written out: the line holds only whitespace, an even number of fence lines of the section stands up
      to it, and the lines of the chunk with their line ends are longer than the limit. */
  lemma CutMeaning(cfg: Config, lines: seq<string>, lo: nat, i: nat)
    requires lo <= i < |lines|
    ensures IsCut(cfg, lines, lo, i) <==>
            && AllSpace(Python, lines[i])
            && |FenceLines(Python, lines[..i + 1])| % 2 == 0
            && |Join(lines[lo..i + 1])| + 1 > cfg.chunkSize
  {
    BlankIff(Python, lines[i]);
    FenceCountIs(Python, lines[..i + 1]);
    SizeIsJoinLength(lines[lo..i + 1]);
    hide Strip, FenceCount, FenceLines, Size, Join, AllSpace;
  }

  /** Written out: a positive overlap copies that many lines, and none when the chunk is not longer than
      it; 0 copies the whole chunk, and a negative one all but its first lines. */
  lemma OverlapRule(cfg: Config, lo: nat, hi: nat)
    requires lo < hi
    ensures cfg.overlap >= hi - lo ==> NextStart(cfg, lo, hi) == hi
    ensures 0 < cfg.overlap < hi - lo ==> NextStart(cfg, lo, hi) == hi - cfg.overlap
    ensures cfg.overlap == 0 ==> NextStart(cfg, lo, hi) == lo
    ensures lo - hi < cfg.overlap < 0 ==> NextStart(cfg, lo, hi) == lo - cfg.overlap
    ensures cfg.overlap <= lo - hi ==> NextStart(cfg, lo, hi) == hi
  {
  }

  // ----- greedy windows, stated without scanning -----

  ghost predicate InBounds(lines: seq<string>, w: Window) {
    w.lo <= w.seen <= w.hi <= |lines| && w.lo < |lines|
  }

  /** No line of the window before its last line, among those it adds, is a cut. */
  ghost predicate NoEarlierCut(cfg: Config, lines: seq<string>, w: Window)
    requires InBounds(lines, w)
  {
    forall j :: w.seen <= j < w.hi - 1 ==> !IsCut(cfg, lines, w.lo, j)
  }

  ghost predicate EndsAtCut(cfg: Config, lines: seq<string>, w: Window)
    requires InBounds(lines, w)
  {
    w.seen < w.hi && IsCut(cfg, lines, w.lo, w.hi - 1)
  }

  ghost predicate Follows(cfg: Config, w: Window, next: Window) {
    w.lo <= w.hi && next.seen == w.hi && next.lo == NextStart(cfg, w.lo, w.hi)
  }

  /** The windows start at lines lo and seen, every window but the last ends at its first cut, each
      begins where the overlap rule says, and the last reaches the end with nothing left to copy. */
  ghost predicate Greedy(cfg: Config, lines: seq<string>, lo: nat, seen: nat, ws: seq<Window>) {
    && (ws == [] ==> lo == |lines|)
    && (ws != [] ==> ws[0].lo == lo && ws[0].seen == seen)
    && (forall k :: 0 <= k < |ws| ==> InBounds(lines, ws[k]) && NoEarlierCut(cfg, lines, ws[k]))
    && (forall k :: 0 <= k < |ws| - 1 ==> EndsAtCut(cfg, lines, ws[k]))
    && (forall j, k :: 0 <= j < k < |ws| && k == j + 1 ==> Follows(cfg, ws[j], ws[k]))
    && (ws != [] ==> var w := ws[|ws| - 1];
                     w.hi == |lines| && (EndsAtCut(cfg, lines, w) ==> NextStart(cfg, w.lo, w.hi) == |lines|))
  }

  lemma GreedyCons(cfg: Config, lines: seq<string>, w: Window, ws: seq<Window>)
    requires InBounds(lines, w) && NoEarlierCut(cfg, lines, w) && EndsAtCut(cfg, lines, w)
    requires Greedy(cfg, lines, NextStart(cfg, w.lo, w.hi), w.hi, ws)
    requires ws == [] ==> w.hi == |lines|
    ensures Greedy(cfg, lines, w.lo, w.seen, [w] + ws)
  {
    hide IsCut, NextStart;
  }

  lemma GreedyEnd(cfg: Config, lines: seq<string>, lo: nat, seen: nat)
    requires lo <= seen <= |lines|
    requires forall j :: seen <= j < |lines| ==> !IsCut(cfg, lines, lo, j)
    ensures Greedy(cfg, lines, lo, seen, if lo < |lines| then [Window(lo, seen, |lines|)] else [])
  {
    hide IsCut, NextStart;
  }

  lemma {:induction false} WindowsGreedy(cfg: Config, lines: seq<string>, lo: nat, seen: nat, pos: nat)
    requires lo <= seen <= pos <= |lines|
    requires forall j :: seen <= j < pos ==> !IsCut(cfg, lines, lo, j)
    ensures Greedy(cfg, lines, lo, seen, WindowsFrom(cfg, lines, lo, seen, pos))
    decreases |lines| - pos
  {
    hide IsCut, NextStart, Greedy;
    if pos == |lines| {
      GreedyEnd(cfg, lines, lo, seen);
    } else if IsCut(cfg, lines, lo, pos) {
      var next := NextStart(cfg, lo, pos + 1);
      WindowsGreedy(cfg, lines, next, pos + 1, pos + 1);
      EmptyGreedy(cfg, lines, next, pos + 1, WindowsFrom(cfg, lines, next, pos + 1, pos + 1));
      GreedyCons(cfg, lines, Window(lo, seen, pos + 1), WindowsFrom(cfg, lines, next, pos + 1, pos + 1));
    } else {
      WindowsGreedy(cfg, lines, lo, seen, pos + 1);
    }
  }

  lemma EmptyGreedy(cfg: Config, lines: seq<string>, lo: nat, seen: nat, ws: seq<Window>)
    requires Greedy(cfg, lines, lo, seen, ws) && lo <= seen <= |lines|
    ensures ws == [] ==> seen == |lines|
  {
  }

  /** Scanning from seen to the first cut (or to the end) produces one window. */
  lemma {:induction false} ScanToCut(cfg: Config, lines: seq<string>, w: Window, pos: nat)
    requires InBounds(lines, w) && NoEarlierCut(cfg, lines, w)
    requires w.seen <= pos && (EndsAtCut(cfg, lines, w) ==> pos < w.hi)
    requires pos <= w.hi
    requires EndsAtCut(cfg, lines, w) || w.hi == |lines|
    ensures WindowsFrom(cfg, lines, w.lo, w.seen, pos) ==
            [w] + if EndsAtCut(cfg, lines, w)
                  then WindowsFrom(cfg, lines, NextStart(cfg, w.lo, w.hi), w.hi, w.hi) else []
    decreases w.hi - pos
  {
    hide IsCut, NextStart;
    if pos < w.hi && !IsCut(cfg, lines, w.lo, pos) {
      ScanToCut(cfg, lines, w, pos + 1);
    }
  }

  lemma {:induction false} GreedyIsWindows(cfg: Config, lines: seq<string>, lo: nat, seen: nat, ws: seq<Window>)
    requires lo <= seen <= |lines|
    requires Greedy(cfg, lines, lo, seen, ws)
    ensures ws == WindowsFrom(cfg, lines, lo, seen, seen)
    decreases |ws|
  {
    hide IsCut, NextStart;
    if ws != [] {
      var w, rest := ws[0], ws[1..];
      ScanToCut(cfg, lines, w, w.seen);
      if EndsAtCut(cfg, lines, w) {
        var next := NextStart(cfg, w.lo, w.hi);
        assert Greedy(cfg, lines, next, w.hi, rest) by {
          if rest == [] {
            assert ws[|ws| - 1] == w;
          } else {
            assert Follows(cfg, ws[0], ws[1]);
            forall j, k | 0 <= j < k < |rest| && k == j + 1
              ensures Follows(cfg, rest[j], rest[k])
            {
              assert rest[j] == ws[j + 1] && rest[k] == ws[k + 1];
            }
          }
        }
        GreedyIsWindows(cfg, lines, next, w.hi, rest);
      }
    }
  }

  /** The windows of a section are the only greedy ones: every chunk but the last ends at the first
      blank line, outside a code block, at which its exact size exceeds the limit, and the next one
      begins where the overlap rule says. */
  lemma GreedyCutting(cfg: Config, lines: seq<string>, ws: seq<Window>)
    ensures ws == Windows(cfg, lines) <==> Greedy(cfg, lines, 0, 0, ws)
  {
    WindowsGreedy(cfg, lines, 0, 0, 0);
    if Greedy(cfg, lines, 0, 0, ws) {
      GreedyIsWindows(cfg, lines, 0, 0, ws);
    }
  }

  // ----- consequences -----

  /** The windows cover the lines from..to: the lines each one adds tile that range, and the lines
      it repeats are the last ones of the window before it. */
  ghost predicate Tiles(ws: seq<Window>, from: nat, to: nat) {
    && (ws == [] ==> from == to)
    && (ws != [] ==> ws[0].lo == ws[0].seen == from && ws[|ws| - 1].hi == to)
    && (forall k :: 0 <= k < |ws| ==> ws[k].lo <= ws[k].seen <= ws[k].hi)
    && (forall j, k :: 0 <= j < k < |ws| && k == j + 1 ==> ws[k].seen == ws[j].hi && ws[j].lo <= ws[k].lo)
  }

  lemma WindowsTile(cfg: Config, lines: seq<string>)
    ensures Tiles(Windows(cfg, lines), 0, |lines|)
  {
    WindowsGreedy(cfg, lines, 0, 0, 0);
    hide IsCut, WindowsFrom;
    var ws := Windows(cfg, lines);
    forall j, k | 0 <= j < k < |ws| && k == j + 1
      ensures ws[k].seen == ws[j].hi && ws[j].lo <= ws[k].lo
    {
      assert Follows(cfg, ws[j], ws[k]);
    }
  }

  lemma {:induction false} StartsOrder(cfg: Config, lines: seq<string>, ws: seq<Window>, j: nat, k: nat)
    requires Greedy(cfg, lines, 0, 0, ws) && j < k < |ws|
    ensures if cfg.overlap == 0 then ws[j].lo == ws[k].lo else ws[j].lo < ws[k].lo
    decreases k
  {
    hide IsCut;
    assert Follows(cfg, ws[k - 1], ws[k]) && EndsAtCut(cfg, lines, ws[k - 1]);
    if j < k - 1 {
      StartsOrder(cfg, lines, ws, j, k - 1);
    }
  }

  /** Chunk starts strictly increase for every overlap but 0; with overlap 0 the slice `[-0:]`
      copies whole chunks, and every chunk of the section starts at its first line. */
  lemma StartsIncrease(cfg: Config, lines: seq<string>)
    ensures var ws := Windows(cfg, lines);
            (forall j, k :: 0 <= j < k < |ws| ==> ws[j].lo < ws[k].lo) <==> (cfg.overlap != 0 || |ws| <= 1)
    ensures var ws := Windows(cfg, lines);
            cfg.overlap == 0 ==> forall k :: 0 <= k < |ws| ==> ws[k].lo == 0
  {
    WindowsGreedy(cfg, lines, 0, 0, 0);
    hide IsCut, WindowsFrom, NextStart;
    var ws := Windows(cfg, lines);
    forall j, k | 0 <= j < k < |ws|
      ensures if cfg.overlap == 0 then ws[j].lo == ws[k].lo else ws[j].lo < ws[k].lo
    {
      StartsOrder(cfg, lines, ws, j, k);
    }
    if cfg.overlap == 0 && |ws| > 1 {
      assert !(ws[0].lo < ws[1].lo);
    }
  }

  const THREE_LINES: seq<string> := ["a", "", "b"]

  lemma BlankLine()
    ensures Strip(Python, "") == "" && Strip(Python, "b") != ""
  {
    StripFixed(Python, "b");
  }

  /** A section that is cut once, with overlap 0: the second chunk starts where the first did. */
  lemma OverlapZeroRepeats()
    ensures Windows(Config(2, 0, 1), THREE_LINES) == [Window(0, 0, 2), Window(0, 2, 3)]
  {
    var cfg, lines, ws := Config(2, 0, 1), THREE_LINES, [Window(0, 0, 2), Window(0, 2, 3)];
    BlankLine();
    StripFixed(Python, "a");
    assert lines[..2] == ["a", ""] && lines[0..2] == ["a", ""];
    assert Size(["a", ""]) == 3 && FenceCount(Python, ["a", ""]) == 0 by {
      assert ["a", ""][1..] == [""];
    }
    hide Strip, FenceCount, Size, WindowsFrom;
    assert IsCut(cfg, lines, 0, 1) && !IsCut(cfg, lines, 0, 0) && !IsCut(cfg, lines, 0, 2);
    GreedyCutting(cfg, lines, ws);
  }

  lemma CutIsEven(cfg: Config, lines: seq<string>, k: nat)
    requires k + 1 < |Windows(cfg, lines)|
    ensures var w := Windows(cfg, lines)[k];
            && w.seen <= w.hi <= |lines|
            && FenceCount(Python, lines[..w.hi]) % 2 == 0
  {
    WindowsGreedy(cfg, lines, 0, 0, 0);
    hide WindowsFrom, NextStart, Strip, Size, FenceCount;
    assert EndsAtCut(cfg, lines, Windows(cfg, lines)[k]);
  }

  lemma EvenBetween(lines: seq<string>, a: nat, b: nat)
    requires a <= b <= |lines|
    requires FenceCount(Python, lines[..a]) % 2 == FenceCount(Python, lines[..b]) % 2 == 0
    ensures FenceCount(Python, lines[a..b]) % 2 == 0
  {
    hide FenceCount;
    FenceConcat(Python, lines[..a], lines[a..b]);
    assert lines[..b] == lines[..a] + lines[a..b];
  }

  /** Every cut has an even number of fence lines before it, so the lines that a chunk adds between
      two cuts hold balanced fences. */
  lemma FenceSafeCuts(cfg: Config, lines: seq<string>, k: nat)
    requires k + 1 < |Windows(cfg, lines)|
    ensures var w := Windows(cfg, lines)[k];
            && w.seen <= w.hi <= |lines|
            && FenceCount(Python, lines[..w.hi]) % 2 == 0
            && FenceCount(Python, lines[w.seen..w.hi]) % 2 == 0
  {
    hide Windows, FenceCount;
    CutIsEven(cfg, lines, k);
    WindowsTile(cfg, lines);
    NoFences(lines);
    var ws := Windows(cfg, lines);
    if k > 0 {
      CutIsEven(cfg, lines, k - 1);
      assert ws[k].seen == ws[k - 1].hi;
    }
    EvenBetween(lines, ws[k].seen, ws[k].hi);
  }

  // ----- chunks of a section -----

  function PartOf(section: Section, lines: seq<string>, w: Window): Chunk
    requires w.lo <= w.hi <= |lines|
  {
    var part := lines[w.lo..w.hi];
    Chunk(Strip(Python, Join(part)), section.header, section.level, Size(part), SectionPart)
  }

  function Parts(section: Section, lines: seq<string>, ws: seq<Window>): (r: seq<Chunk>)
    requires forall k :: 0 <= k < |ws| ==> ws[k].lo <= ws[k].hi <= |lines|
    ensures |r| == |ws| && forall k :: 0 <= k < |ws| ==> r[k] == PartOf(section, lines, ws[k])
  {
    seq(|ws|, k requires 0 <= k < |ws| => PartOf(section, lines, ws[k]))
  }

  function SectionChunks(cfg: Config, section: Section): seq<Chunk> {
    if section.size <= cfg.chunkSize then
      [Chunk(Strip(Python, section.content), section.header, section.level, section.size, CompleteSection)]
    else
      var lines := Split(section.content);
      Parts(section, lines, Windows(cfg, lines))
  }

  /** A chunk is marked as a complete section exactly when the section is within the limit, and then it is
      the section's only chunk and holds all of its text. */
  lemma KindExactly(cfg: Config, section: Section)
    ensures var cs := SectionChunks(cfg, section);
            && (forall c :: c in cs ==> (c.kind == CompleteSection <==> section.size <= cfg.chunkSize))
            && (section.size <= cfg.chunkSize ==>
                  && |cs| == 1 && cs[0].content == Strip(Python, section.content) && cs[0].size == section.size
                  && cs[0].header == section.header && cs[0].level == section.level)
  {
    hide Windows, Split;
  }

  lemma ChunkOfWindow(cfg: Config, section: Section, k: nat)
    requires section.size > cfg.chunkSize && k < |SectionChunks(cfg, section)|
    ensures var lines := Split(section.content);
            && |Windows(cfg, lines)| == |SectionChunks(cfg, section)|
            && SectionChunks(cfg, section)[k] == PartOf(section, lines, Windows(cfg, lines)[k])
  {
    hide Split, Windows, PartOf;
  }

  /** The pattern ^\|.*\|$ on a stripped line. */
  predicate IsTableRow(stripped: string) {
    |stripped| >= 2 && stripped[0] == '|' && stripped[|stripped| - 1] == '|'
  }

  lemma PyTailIsNextStart(cfg: Config, lines: seq<string>, lo: nat, hi: nat)
    requires lo <= hi <= |lines|
    ensures var cur := lines[lo..hi];
            (if |cur| > cfg.overlap then PyTail(cur, cfg.overlap) else []) == lines[NextStart(cfg, lo, hi)..hi]
  {
  }

  lemma NoFences(lines: seq<string>)
    ensures FenceCount(Python, lines[..0]) == 0 && Size(lines[0..0]) == 0
  {
  }

  lemma GrowBySlice(lines: seq<string>, lo: nat, i: nat)
    requires lo <= i < |lines|
    ensures lines[lo..i] + [lines[i]] == lines[lo..i + 1]
    ensures Size(lines[lo..i + 1]) == Size(lines[lo..i]) + |lines[i]| + 1
    ensures FenceCount(Python, lines[..i + 1]) ==
            FenceCount(Python, lines[..i]) + if IsFence(Python, lines[i]) then 1 else 0
  {
    hide IsFence;
    assert lines[lo..i] + [lines[i]] == lines[lo..i + 1];
    SizeConcat(lines[lo..i], [lines[i]]);
    assert lines[..i] + [lines[i]] == lines[..i + 1];
    FenceConcat(Python, lines[..i], [lines[i]]);
  }

  lemma FenceTest(line: string)
    ensures IsFence(Python, line) <==> FENCE <= Strip(Python, line)
  {
  }

  /** The chunks still to come when the loop is at line i with the chunk begun at line lo. */
  function PartsFrom(cfg: Config, section: Section, lines: seq<string>, lo: nat, seen: nat, i: nat): seq<Chunk>
    requires lo <= seen <= i <= |lines|
  {
    Parts(section, lines, WindowsFrom(cfg, lines, lo, seen, i))
  }

  lemma PartsStep(cfg: Config, section: Section, lines: seq<string>, lo: nat, seen: nat, i: nat)
    requires lo <= seen <= i < |lines|
    ensures PartsFrom(cfg, section, lines, lo, seen, i) ==
            if IsCut(cfg, lines, lo, i)
            then [PartOf(section, lines, Window(lo, seen, i + 1))]
                 + PartsFrom(cfg, section, lines, NextStart(cfg, lo, i + 1), i + 1, i + 1)
            else PartsFrom(cfg, section, lines, lo, seen, i + 1)
  {
    hide IsCut, NextStart, PartOf;
  }

  lemma PartsEnd(cfg: Config, section: Section, lines: seq<string>, lo: nat, seen: nat)
    requires lo <= seen <= |lines|
    ensures PartsFrom(cfg, section, lines, lo, seen, |lines|) ==
            if lo < |lines| then [PartOf(section, lines, Window(lo, seen, |lines|))] else []
  {
    hide PartOf;
  }

  /** One line of the loop: the fence flag, the table flag and the running size decide a cut exactly
      when the line is one. The table flag never matters, since a blank line has just cleared it. */
  lemma CutDecision(cfg: Config, lines: seq<string>, lo: nat, i: nat, inCodeBlock: bool, inTable: bool, size: int)
    requires lo <= i < |lines|
    requires size == Size(lines[lo..i + 1])
    requires inCodeBlock == (FenceCount(Python, lines[..i + 1]) % 2 == 1)
    requires Strip(Python, lines[i]) == "" ==> !inTable
    ensures IsCut(cfg, lines, lo, i) <==>
            size > cfg.chunkSize && !inCodeBlock && !inTable && Strip(Python, lines[i]) == ""
  {
    hide Strip, Size, FenceCount;
  }

  method ChunkSection(cfg: Config, section: Section) returns (chunks: seq<Chunk>)
    ensures chunks == SectionChunks(cfg, section)
  {
    hide Split, Join, Strip, WindowsFrom, IsCut, NextStart, Parts, PyTail, FenceCount, IsFence, Size;
    if section.size <= cfg.chunkSize {
      return [Chunk(Strip(Python, section.content), section.header, section.level, section.size, CompleteSection)];
    }
    chunks := [];
    var lines := Split(section.content);
    var currentChunk: seq<string> := [];
    var currentSize := 0;
    var inCodeBlock, inTable := false, false;
    NoFences(lines);
    ghost var lo: nat, seen: nat := 0, 0;
    for i := 0 to |lines|
      invariant lo <= seen <= i
      invariant chunks + PartsFrom(cfg, section, lines, lo, seen, i) == PartsFrom(cfg, section, lines, 0, 0, 0)
      invariant currentChunk == lines[lo..i] && currentSize == Size(lines[lo..i])
      invariant inCodeBlock == (FenceCount(Python, lines[..i]) % 2 == 1)
    {
      var line := lines[i];
      var lineStripped := Strip(Python, line);
      FenceTest(line);
      if FENCE <= lineStripped {
        inCodeBlock := !inCodeBlock;
      }
      if IsTableRow(lineStripped) {
        inTable := true;
      } else if inTable && lineStripped == "" {
        inTable := false;
      }
      GrowBySlice(lines, lo, i);
      currentChunk := currentChunk + [line];
      currentSize := currentSize + |line| + 1;
      CutDecision(cfg, lines, lo, i, inCodeBlock, inTable, currentSize);
      PartsStep(cfg, section, lines, lo, seen, i);
      if currentSize > cfg.chunkSize && !inCodeBlock && !inTable && lineStripped == "" {
        chunks := chunks
        + [Chunk(Strip(Python, Join(currentChunk)), section.header, section.level, currentSize, SectionPart)];
        var overlapLines := if |currentChunk| > cfg.overlap then PyTail(currentChunk, cfg.overlap) else [];
        PyTailIsNextStart(cfg, lines, lo, i + 1);
        lo, seen := NextStart(cfg, lo, i + 1), i + 1;
        currentChunk := overlapLines;
        currentSize := Size(overlapLines);
      }
    }
    PartsEnd(cfg, section, lines, lo, seen);
    if currentChunk != [] {
      chunks := chunks
      + [Chunk(Strip(Python, Join(currentChunk)), section.header, section.level, currentSize, SectionPart)];
    }
  }
}
