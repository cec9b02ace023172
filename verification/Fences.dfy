/** `formatContent` of the `ai` command, and how it meets the chunks of the index. */
module Fences {
  import opened Text
  import opened Sections
  import opened Chunking

  /** The text with a closing fence line when its fence lines do not pair up. */
  function Formatted(content: string): string {
    if FenceCount(Go, Split(content)) % 2 == 1 then content + "\n" + FENCE else content
  }

  lemma FenceSoFar(lines: seq<string>, i: nat)
    requires i < |lines|
    ensures FenceCount(Go, lines[..i + 1]) == FenceCount(Go, lines[..i]) + if FENCE <= Strip(Go, lines[i]) then 1 else 0
  {
    hide Strip;
    assert lines[..i + 1] == lines[..i] + [lines[i]];
    FenceConcat(Go, lines[..i], [lines[i]]);
  }

  method FormatContent(content: string) returns (out: string)
    ensures out == Formatted(content)
  {
    var lines := Split(content);
    var formatted: seq<string> := [];
    var inCodeBlock := false;
    JoinSplit(content);
    hide Strip, Split, Join;
    for i := 0 to |lines|
      invariant formatted == lines[..i]
      invariant inCodeBlock == (FenceCount(Go, lines[..i]) % 2 == 1)
    {
      var line := lines[i];
      FenceSoFar(lines, i);
      if FENCE <= Strip(Go, line) {
        inCodeBlock := !inCodeBlock;
      }
      formatted := formatted + [line];
    }
    assert lines[..|lines|] == lines;
    if inCodeBlock {
      JoinConcat(lines, [FENCE]);
      JoinOne(FENCE);
      formatted := formatted + [FENCE];
    }
    out := Join(formatted);
  }

  lemma FenceIsFence()
    ensures IsFence(Go, FENCE) && OneLine(FENCE)
  {
  }

  lemma ClosedLines(content: string)
    ensures Split(content + "\n" + FENCE) == Split(content) + ["```"]
  {
    var lines := Split(content);
    JoinSplit(content);
    hide Split, Join;
    JoinConcat(lines, [FENCE]);
    JoinOne(FENCE);
    SplitJoin(lines + [FENCE]);
  }

  lemma ClosedFences(content: string)
    ensures FenceCount(Go, Split(content + "\n" + FENCE)) == FenceCount(Go, Split(content)) + 1
  {
    var lines := Split(content);
    FenceIsFence();
    hide Strip, Split, IsFence;
    ClosedLines(content);
    FenceConcat(Go, lines, [FENCE]);
  }

  /** The result has an even number of fence lines and begins with the input; formatting it again
      changes nothing. Only an input with an odd number of fence lines is changed, and its lines get one
      more line of three backquotes. */
  lemma FormatContract(content: string)
    ensures var r := Formatted(content);
            && FenceCount(Go, Split(r)) % 2 == 0 && content <= r && Formatted(r) == r
            && (r == content <==> FenceCount(Go, Split(content)) % 2 == 0)
            && (r != content ==> Split(r) == Split(content) + ["```"])
  {
    ClosedFences(content);
    ClosedLines(content);
    hide FenceCount, Split;
  }

  // ----- chunks that reach formatContent -----

  /** A line that the chunker takes for a fence and `formatContent` does not: something before the
      backquotes is whitespace to Python only. */
  predicate IsDisguised(line: string) {
    IsFence(Python, line) && !IsFence(Go, line)
  }

  function DisguisedCount(lines: seq<string>): nat {
    if lines == [] then 0 else (if IsDisguised(lines[0]) then 1 else 0) + DisguisedCount(lines[1..])
  }

  lemma Backquote(rt: Runtime)
    ensures !IsSpace(rt, FENCE[0]) && !IsSpace(rt, FENCE[1]) && !IsSpace(rt, FENCE[2])
  {
  }

  lemma FenceStart(rt: Runtime, s: string)
    ensures IsFence(rt, s) <==> FENCE <= StripLeft(rt, s)
  {
    var t := StripLeft(rt, s);
    var post := StripRightShape(rt, t);
    var r := StripRight(rt, t);
    hide StripRight, StripLeft;
    if FENCE <= t {
      if |r| < 3 {
        assert false by { Backquote(rt); }
      }
      forall i | 0 <= i < 3 ensures r[i] == FENCE[i] { assert r[i] == t[i]; }
    }
  }

  lemma {:induction false} StripLeftTwice(s: string)
    ensures StripLeft(Python, StripLeft(Go, s)) == StripLeft(Python, s)
  {
    if s != "" && IsSpace(Go, s[0]) {
      assert IsSpace(Python, s[0]);
      StripLeftTwice(s[1..]);
    }
  }

  lemma GoFenceIsPythonFence(line: string)
    requires IsFence(Go, line)
    ensures IsFence(Python, line)
  {
    FenceStart(Go, line);
    FenceStart(Python, line);
    StripLeftTwice(line);
    var t := StripLeft(Go, line);
    assert t[0] == FENCE[0] == '`';
    assert StripLeft(Python, t) == t;
  }

  lemma {:induction false} FencesSplit(lines: seq<string>)
    ensures FenceCount(Python, lines) == FenceCount(Go, lines) + DisguisedCount(lines)
  {
    if lines != [] {
      if IsFence(Go, lines[0]) { GoFenceIsPythonFence(lines[0]); }
      hide IsFence;
      FencesSplit(lines[1..]);
    }
  }

  /** A chunk that ended at a cut and repeated no lines has balanced fences for the chunker; so
      `formatContent` leaves it as it is exactly when its disguised fence lines pair up. */
  lemma {:induction false} CutChunkUnchanged(cfg: Config, section: Section, k: nat)
    requires section.size > cfg.chunkSize
    requires k + 1 < |SectionChunks(cfg, section)|
    requires var ws := Windows(cfg, Split(section.content)); k < |ws| && ws[k].lo == ws[k].seen
    ensures var text := SectionChunks(cfg, section)[k].content;
            && FenceCount(Python, Split(text)) % 2 == 0
            && (Formatted(text) == text <==> DisguisedCount(Split(text)) % 2 == 0)
  {
    hide SectionChunks, Windows, Strip, Split, Join, Size, FenceCount, DisguisedCount, Formatted;
    var lines := Split(section.content);
    ChunkOfWindow(cfg, section, k);
    var w := Windows(cfg, lines)[k];
    var text := SectionChunks(cfg, section)[k].content;
    FenceSafeCuts(cfg, lines, k);
    CutAddsLines(cfg, lines, k);
    PartFences(lines[w.lo..w.hi]);
    FencesSplit(Split(text));
    FormatContract(text);
  }

  lemma PartFences(part: seq<string>)
    requires part != [] && AllOneLine(part)
    ensures FenceCount(Python, Split(Strip(Python, Join(part)))) == FenceCount(Python, part)
  {
    hide Strip, Split, Join, FenceCount;
    SplitJoin(part);
    FenceStrip(Python, Join(part));
  }

  lemma CutAddsLines(cfg: Config, lines: seq<string>, k: nat)
    requires k + 1 < |Windows(cfg, lines)|
    ensures var w := Windows(cfg, lines)[k]; w.seen < w.hi <= |lines|
  {
    WindowsGreedy(cfg, lines, 0, 0, 0);
    hide WindowsFrom, IsCut;
    assert EndsAtCut(cfg, lines, Windows(cfg, lines)[k]);
  }

  /** A line without the four separator characters is never disguised. */
  lemma NoSeparators(s: string)
    requires forall i :: 0 <= i < |s| ==> (IsSpace(Python, s[i]) <==> IsSpace(Go, s[i]))
    ensures !IsDisguised(s)
  {
    hide IsSpace, IsFence;
    SameStripLeft(s);
    FenceStart(Go, s);
    FenceStart(Python, s);
  }

  lemma {:induction false} SameStripLeft(s: string)
    requires forall i :: 0 <= i < |s| ==> (IsSpace(Python, s[i]) <==> IsSpace(Go, s[i]))
    ensures StripLeft(Python, s) == StripLeft(Go, s)
  {
    hide IsSpace;
    if s != "" && IsSpace(Go, s[0]) {
      SameStripLeft(s[1..]);
    }
  }

  /** A text whose two fence lines pair up for the chunker, one of them behind a file separator. */
  const SEPARATED: seq<string> := ["a", "\U{1C}```", "b", "```"]

  lemma SeparatedLines()
    ensures AllOneLine(SEPARATED) && IsDisguised(SEPARATED[1])
    ensures !IsFence(Python, SEPARATED[0]) && !IsFence(Python, SEPARATED[2]) && IsFence(Go, SEPARATED[3])
  {
  }

  /** `formatContent` adds a fence line to it although its fences are balanced for the chunker. */
  lemma SeparatorWitness()
    ensures var text := Join(SEPARATED);
            FenceCount(Python, Split(text)) % 2 == 0 && Formatted(text) != text
  {
    SeparatedLines();
    GoFenceIsPythonFence(SEPARATED[3]);
    SeparatedCounts();
    hide Strip, Join, Split, FenceCount, DisguisedCount, Formatted;
    FencesSplit(SEPARATED);
    SplitJoin(SEPARATED);
    FormatContract(Join(SEPARATED));
  }

  lemma SeparatedCounts()
    requires IsDisguised(SEPARATED[1]) && IsFence(Go, SEPARATED[3]) && IsFence(Python, SEPARATED[3])
    requires !IsFence(Python, SEPARATED[0]) && !IsFence(Python, SEPARATED[2])
    ensures DisguisedCount(SEPARATED) == 1 && FenceCount(Python, SEPARATED) == 2
  {
    hide IsFence;
  }

  /** A section whose first chunk is that text: a blank line ends it at size 14, over a limit of 10. */
  const CUT_LINES: seq<string> := SEPARATED + ["", "z"]
  const CUT_CONFIG: Config := Config(10, 1, 1)

  lemma CutLinesBlank()
    ensures forall j :: 0 <= j < |CUT_LINES| ==> (Strip(Python, CUT_LINES[j]) == "" <==> j == 4)
  {
    forall j | 0 <= j < |CUT_LINES| ensures Strip(Python, CUT_LINES[j]) == "" <==> j == 4 {
      BlankIff(Python, CUT_LINES[j]);
      if j != 4 {
        var last := |CUT_LINES[j]| - 1;
        assert !IsSpace(Python, CUT_LINES[j][last]);
      }
    }
  }

  lemma CutLinesCounts()
    ensures CUT_LINES[..5] == CUT_LINES[0..5] == SEPARATED + [""]
    ensures FenceCount(Python, CUT_LINES[..5]) == 2 && Size(CUT_LINES[0..5]) == 14 && Size(CUT_LINES) == 16
  {
    SeparatedLines();
    GoFenceIsPythonFence(SEPARATED[3]);
    SeparatedCounts();
    FenceStart(Python, "");
    hide IsFence;
    assert CUT_LINES[..5] == SEPARATED + [""] && CUT_LINES[0..5] == SEPARATED + [""];
    FenceConcat(Python, SEPARATED, [""]);
    hide FenceCount;
    SizeConcat(SEPARATED, [""]);
    SizeConcat(SEPARATED, ["", "z"]);
    assert SEPARATED[1..] == ["\U{1C}```", "b", "```"];
    assert Size(SEPARATED) == 2 + 5 + 2 + 4;
  }

  lemma CutLinesWindows()
    ensures Windows(CUT_CONFIG, CUT_LINES) == [Window(0, 0, 5), Window(4, 5, 6)]
  {
    var ws := [Window(0, 0, 5), Window(4, 5, 6)];
    CutLinesBlank();
    CutLinesCounts();
    hide Strip, FenceCount, Size, WindowsFrom;
    GreedyCutting(CUT_CONFIG, CUT_LINES, ws);
  }

  lemma CutLinesText()
    ensures Strip(Python, Join(CUT_LINES[0..5])) == Join(SEPARATED)
  {
    CutLinesCounts();
    JoinConcat(SEPARATED, [""]);
    JoinOne("");
    hide FenceCount;
    var text := Join(SEPARATED);
    assert text + "\n" + "" == text + ['\n'];
    StripDropRight(Python, text, '\n');
    assert SEPARATED == ["a"] + SEPARATED[1..] && SEPARATED == SEPARATED[..3] + ["```"];
    JoinConcat(["a"], SEPARATED[1..]);
    JoinConcat(SEPARATED[..3], ["```"]);
    JoinOne("a");
    JoinOne("```");
    hide Join;
    assert text[0] == 'a' && text[|text| - 1] == '`';
    StripFixed(Python, text);
  }

  lemma NoHashNoHeader(line: string)
    requires '#' !in line
    ensures !IsHeader(line)
  {
    var pre, post := StripShape(Python, line);
    hide Strip;
    assert forall c :: c in Strip(Python, line) ==> c in line;
  }

  lemma CutLinesSection()
    ensures SectionsOf(CUT_LINES) == [MakeSection(CUT_LINES)]
  {
    hide IsHeader;
    forall i | 1 <= i < |CUT_LINES| ensures !IsHeader(CUT_LINES[i]) {
      NoHashNoHeader(CUT_LINES[i]);
    }
    LastSection(CUT_LINES);
  }

  /** A document of one section; its first chunk ended at a cut, repeats no line, and is changed by
      `formatContent`. */
  lemma CutChunkChanged()
    ensures SectionsOf(Split(Join(CUT_LINES))) == [MakeSection(CUT_LINES)]
    ensures var section := MakeSection(CUT_LINES);
            var chunks, ws := SectionChunks(CUT_CONFIG, section), Windows(CUT_CONFIG, Split(section.content));
            && section.size > CUT_CONFIG.chunkSize && |chunks| == |ws| == 2 && ws[0].lo == ws[0].seen
            && FenceCount(Python, Split(chunks[0].content)) % 2 == 0
            && Formatted(chunks[0].content) != chunks[0].content
  {
    var section := MakeSection(CUT_LINES);
    SeparatedLines();
    SplitJoin(CUT_LINES);
    CutLinesCounts();
    CutLinesWindows();
    CutLinesText();
    CutLinesSection();
    SeparatorWitness();
    hide Split, Join, Strip, Size, Windows, FenceCount, Formatted, HeaderText, HeaderLevel;
    assert |SectionChunks(CUT_CONFIG, section)| == 2;
    ChunkOfWindow(CUT_CONFIG, section, 0);
  }
}
