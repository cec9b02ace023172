/** `chunk_markdown` over a whole document: where every chunk comes from, and that no text is lost. */
module Documents {
  import opened Text
  import opened Sections
  import opened Chunking

  function ChunksOf(cfg: Config, sections: seq<Section>): seq<Chunk> {
    if sections == [] then [] else SectionChunks(cfg, sections[0]) + ChunksOf(cfg, sections[1..])
  }

  function Chunks(cfg: Config, content: string): seq<Chunk> {
    ChunksOf(cfg, SectionsOf(Split(content)))
  }

  /** The chunks numbered 0, 1, .. with their common total, as they are sent to the store. */
  function Entries(cfg: Config, content: string, path: string): (es: seq<Entry>)
    ensures var cs := Chunks(cfg, content);
            |es| == |cs| && forall i :: 0 <= i < |es| ==> es[i] == Entry(cs[i], path, i, |cs|)
  {
    var cs := Chunks(cfg, content);
    seq(|cs|, i requires 0 <= i < |cs| => Entry(cs[i], path, i, |cs|))
  }

  method ChunkMarkdown(cfg: Config, content: string, path: string) returns (entries: seq<Entry>)
    ensures entries == Entries(cfg, content, path)
  {
    hide SectionChunks, SectionsOf, Split;
    var sections := SplitByHeaders(content);
    var chunks: seq<Chunk> := [];
    assert sections[0..] == sections;
    for i := 0 to |sections|
      invariant chunks + ChunksOf(cfg, sections[i..]) == ChunksOf(cfg, sections)
    {
      var sectionChunks := ChunkSection(cfg, sections[i]);
      assert sections[i..][1..] == sections[i + 1..];
      chunks := chunks + sectionChunks;
    }
    entries := [];
    for i := 0 to |chunks|
      invariant |entries| == i
      invariant forall j :: 0 <= j < i ==> entries[j] == Entry(chunks[j], path, j, |chunks|)
    {
      entries := entries + [Entry(chunks[i], path, i, |chunks|)];
    }
  }

  // ----- where chunks come from -----

  /** Index of the header line that governs line i: the last header at or before it, or line 0. */
  function HeaderLine(lines: seq<string>, i: nat): (r: nat)
    requires i < |lines|
    ensures r <= i && (r > 0 ==> IsHeader(lines[r])) && (forall j :: r < j <= i ==> !IsHeader(lines[j]))
  {
    if i == 0 || IsHeader(lines[i]) then i else HeaderLine(lines, i - 1)
  }

  /** The first header after line i, or the end. */
  function SectionEnd(lines: seq<string>, i: nat): (r: nat)
    requires i < |lines|
    ensures i < r <= |lines| && (r < |lines| ==> IsHeader(lines[r])) && (forall j :: i < j < r ==> !IsHeader(lines[j]))
    decreases |lines| - i
  {
    if i + 1 == |lines| || IsHeader(lines[i + 1]) then i + 1 else SectionEnd(lines, i + 1)
  }

  /** The chunk is marked as a complete section exactly when the lines from its header to the next one are
      within the limit, and then it has them all. */
  ghost predicate KindIs(cfg: Config, lines: seq<string>, w: Window, c: Chunk)
    requires w.lo < |lines|
  {
    var (from, to) := (HeaderLine(lines, w.lo), SectionEnd(lines, w.lo));
    && (c.kind == CompleteSection <==> Size(lines[from..to]) <= cfg.chunkSize)
    && (c.kind == CompleteSection ==> w == Window(from, from, to))
  }

  /** The chunk is the stripped text of the lines lo..hi, its size is exact, it does not run across
      a header, it carries the header its first line is under, and its kind is right. */
  ghost predicate Renders(cfg: Config, lines: seq<string>, w: Window, c: Chunk) {
    && w.lo <= w.seen <= w.hi <= |lines| && w.lo < |lines|
    && c.content == Strip(Python, Join(lines[w.lo..w.hi]))
    && c.size == Size(lines[w.lo..w.hi])
    && (forall j :: w.lo < j < w.hi ==> !IsHeader(lines[j]))
    && c.header == HeaderText(lines[HeaderLine(lines, w.lo)])
    && c.level == HeaderLevel(lines[HeaderLine(lines, w.lo)])
    && KindIs(cfg, lines, w, c)
  }

  function SectionWindows(cfg: Config, section: Section): seq<Window> {
    var lines := Split(section.content);
    if section.size <= cfg.chunkSize then [Window(0, 0, |lines|)] else Windows(cfg, lines)
  }

  function Shift(w: Window, off: nat): Window {
    Window(off + w.lo, off + w.seen, off + w.hi)
  }

  function ShiftAll(ws: seq<Window>, off: nat): (r: seq<Window>)
    ensures |r| == |ws| && forall k :: 0 <= k < |ws| ==> r[k] == Shift(ws[k], off)
  {
    seq(|ws|, k requires 0 <= k < |ws| => Shift(ws[k], off))
  }

  /** The windows of all sections, in line numbers of the document. */
  function Spans(cfg: Config, sections: seq<Section>, offset: nat): seq<Window> {
    if sections == [] then []
    else ShiftAll(SectionWindows(cfg, sections[0]), offset)
         + Spans(cfg, sections[1..], offset + |Split(sections[0].content)|)
  }

  function DocumentSpans(cfg: Config, content: string): seq<Window> {
    Spans(cfg, SectionsOf(Split(content)), 0)
  }

  lemma SectionWindowsTile(cfg: Config, group: seq<string>)
    requires group != [] && AllOneLine(group)
    ensures var s := MakeSection(group);
            var ws, cs := SectionWindows(cfg, s), SectionChunks(cfg, s);
            && Tiles(ws, 0, |group|) && |ws| == |cs|
            && forall k :: 0 <= k < |ws| ==>
                             && ws[k].lo <= ws[k].seen <= ws[k].hi <= |group| && ws[k].lo < |group|
                             && cs[k].content == Strip(Python, Join(group[ws[k].lo..ws[k].hi]))
                             && cs[k].size == Size(group[ws[k].lo..ws[k].hi])
                             && cs[k].header == s.header && cs[k].level == s.level
                             && (cs[k].kind == CompleteSection <==> Size(group[0..|group|]) <= cfg.chunkSize)
                             && (cs[k].kind == CompleteSection ==> ws[k] == Window(0, 0, |group|))
  {
    hide Split, Join, Strip, Size, WindowsFrom, IsCut, HeaderText, HeaderLevel, NextStart, FenceCount;
    SplitJoin(group);
    WindowsTile(cfg, group);
    WindowsGreedy(cfg, group, 0, 0, 0);
    assert group[0..|group|] == group;
  }

  lemma TilesShift(ws: seq<Window>, from: nat, to: nat, off: nat)
    requires Tiles(ws, from, to)
    ensures Tiles(ShiftAll(ws, off), off + from, off + to)
  {
  }

  lemma TilesConcat(a: seq<Window>, b: seq<Window>, from: nat, mid: nat, to: nat)
    requires Tiles(a, from, mid) && Tiles(b, mid, to)
    ensures Tiles(a + b, from, to)
  {
  }

  lemma {:induction false} GovernedBy(lines: seq<string>, off: nat, i: nat)
    requires off <= i < |lines|
    requires off > 0 ==> IsHeader(lines[off])
    requires forall j :: off < j <= i ==> !IsHeader(lines[j])
    ensures HeaderLine(lines, i) == off
  {
    hide IsHeader;
  }

  lemma {:induction false} EndsBefore(lines: seq<string>, i: nat, end: nat)
    requires i < end <= |lines|
    requires end < |lines| ==> IsHeader(lines[end])
    requires forall j :: i < j < end ==> !IsHeader(lines[j])
    ensures SectionEnd(lines, i) == end
  {
    hide IsHeader;
  }

  /** Where a section stands in a document: the section's first line governs its lines, and it ends where
      the next one begins. */
  lemma SectionPlace(pre: seq<string>, group: seq<string>, rest: seq<string>, i: nat)
    requires group != [] && (pre != [] ==> IsHeader(group[0])) && (rest != [] ==> IsHeader(rest[0]))
    requires forall j :: 1 <= j < |group| ==> !IsHeader(group[j])
    requires i < |group|
    ensures var lines := pre + group + rest;
            HeaderLine(lines, |pre| + i) == |pre| && SectionEnd(lines, |pre| + i) == |pre| + |group|
  {
    hide IsHeader, HeaderLine, SectionEnd;
    var lines := pre + group + rest;
    BodyLines(pre, group, rest);
    assert lines[|pre|] == group[0] && (rest != [] ==> lines[|pre| + |group|] == rest[0]);
    GovernedBy(lines, |pre|, |pre| + i);
    EndsBefore(lines, |pre| + i, |pre| + |group|);
  }

  lemma BodyLines(pre: seq<string>, group: seq<string>, rest: seq<string>)
    requires forall j :: 1 <= j < |group| ==> !IsHeader(group[j])
    ensures forall j :: |pre| < j < |pre| + |group| ==> !IsHeader((pre + group + rest)[j])
  {
    hide IsHeader;
    forall j | |pre| < j < |pre| + |group| ensures !IsHeader((pre + group + rest)[j]) {
      assert (pre + group + rest)[j] == group[j - |pre|];
    }
  }

  lemma InnerText(pre: seq<string>, group: seq<string>, rest: seq<string>, a: nat, b: nat)
    requires a <= b <= |group|
    ensures var lines := pre + group + rest;
            && Join(lines[|pre| + a..|pre| + b]) == Join(group[a..b])
            && Size(lines[|pre| + a..|pre| + b]) == Size(group[a..b])
  {
    hide Join, Size;
    assert (pre + group + rest)[|pre| + a..|pre| + b] == group[a..b];
  }

  lemma RendersShifted(cfg: Config, pre: seq<string>, group: seq<string>, rest: seq<string>, w: Window, c: Chunk)
    requires group != [] && (pre != [] ==> IsHeader(group[0])) && (rest != [] ==> IsHeader(rest[0]))
    requires forall j :: 1 <= j < |group| ==> !IsHeader(group[j])
    requires w.lo <= w.seen <= w.hi <= |group| && w.lo < |group|
    requires c.content == Strip(Python, Join(group[w.lo..w.hi])) && c.size == Size(group[w.lo..w.hi])
    requires c.header == HeaderText(group[0]) && c.level == HeaderLevel(group[0])
    requires c.kind == CompleteSection <==> Size(group[0..|group|]) <= cfg.chunkSize
    requires c.kind == CompleteSection ==> w == Window(0, 0, |group|)
    ensures Renders(cfg, pre + group + rest, Shift(w, |pre|), c)
  {
    hide IsHeader, HeaderText, HeaderLevel, Strip, Join, Size, HeaderLine, SectionEnd, Renders;
    SectionPlace(pre, group, rest, w.lo);
    BodyLines(pre, group, rest);
    InnerText(pre, group, rest, w.lo, w.hi);
    InnerText(pre, group, rest, 0, |group|);
    assert (pre + group + rest)[|pre|] == group[0];
    RendersAt(cfg, pre + group + rest, |pre|, |pre| + |group|, Shift(w, |pre|), c);
  }

  lemma RendersAt(cfg: Config, lines: seq<string>, from: nat, to: nat, w: Window, c: Chunk)
    requires from <= w.lo <= w.seen <= w.hi <= to <= |lines| && w.lo < to
    requires HeaderLine(lines, w.lo) == from && SectionEnd(lines, w.lo) == to
    requires forall j :: from < j < to ==> !IsHeader(lines[j])
    requires c.content == Strip(Python, Join(lines[w.lo..w.hi])) && c.size == Size(lines[w.lo..w.hi])
    requires c.header == HeaderText(lines[from]) && c.level == HeaderLevel(lines[from])
    requires c.kind == CompleteSection <==> Size(lines[from..to]) <= cfg.chunkSize
    requires c.kind == CompleteSection ==> w == Window(from, from, to)
    ensures Renders(cfg, lines, w, c)
  {
    hide IsHeader, HeaderText, HeaderLevel, Strip, Join, Size, HeaderLine, SectionEnd;
  }

  ghost predicate AllRender(cfg: Config, lines: seq<string>, ws: seq<Window>, cs: seq<Chunk>) {
    |ws| == |cs| && forall k :: 0 <= k < |ws| ==> Renders(cfg, lines, ws[k], cs[k])
  }

  lemma {:induction false} AllRenderConcat(
    cfg: Config, lines: seq<string>, ws: seq<Window>, cs: seq<Chunk>, ws': seq<Window>, cs': seq<Chunk>)
    requires AllRender(cfg, lines, ws, cs) && AllRender(cfg, lines, ws', cs')
    ensures AllRender(cfg, lines, ws + ws', cs + cs')
  {
    hide Renders;
  }

  lemma {:induction false} AllRenderShifted(cfg: Config, pre: seq<string>, group: seq<string>, rest: seq<string>)
    requires group != [] && AllOneLine(group) && (pre != [] ==> IsHeader(group[0]))
    requires forall j :: 1 <= j < |group| ==> !IsHeader(group[j])
    requires rest != [] ==> IsHeader(rest[0])
    ensures var s := MakeSection(group);
            AllRender(cfg, pre + group + rest, ShiftAll(SectionWindows(cfg, s), |pre|), SectionChunks(cfg, s))
  {
    SectionWindowsTile(cfg, group);
    var s := MakeSection(group);
    hide Tiles, SectionWindows, SectionChunks, IsHeader, Renders, Strip, Join, Size;
    var ws, cs := SectionWindows(cfg, s), SectionChunks(cfg, s);
    forall k | 0 <= k < |ws| ensures Renders(cfg, pre + group + rest, Shift(ws[k], |pre|), cs[k]) {
      RendersShifted(cfg, pre, group, rest, ws[k], cs[k]);
    }
  }

  lemma {:induction false} SpansRender(cfg: Config, pre: seq<string>, lines: seq<string>)
    requires AllOneLine(lines)
    requires pre != [] && lines != [] ==> IsHeader(lines[0])
    ensures AllRender(cfg, pre + lines, Spans(cfg, SectionsOf(lines), |pre|), ChunksOf(cfg, SectionsOf(lines)))
    decreases |lines|
  {
    hide IsHeader, Split, SectionWindows, SectionChunks, MakeSection, AllRender, ShiftAll, SectionsOf;
    if lines == [] {
      NoSections();
      NothingRenders(cfg, pre + lines);
    } else {
      var group, rest := FirstGroup(lines);
      assert pre + lines == pre + group + rest == (pre + group) + rest;
      AllRenderShifted(cfg, pre, group, rest);
      SpansRender(cfg, pre + group, rest);
      var s, more := MakeSection(group), SectionsOf(rest);
      assert ([s] + more)[1..] == more;
      AllRenderConcat(cfg, pre + lines, ShiftAll(SectionWindows(cfg, s), |pre|), SectionChunks(cfg, s),
                      Spans(cfg, more, |pre| + |group|), ChunksOf(cfg, more));
    }
  }

  lemma NothingRenders(cfg: Config, lines: seq<string>)
    ensures AllRender(cfg, lines, [], [])
  {
  }

  lemma {:induction false} SpansTile(cfg: Config, off: nat, lines: seq<string>)
    requires AllOneLine(lines)
    ensures Tiles(Spans(cfg, SectionsOf(lines), off), off, off + |lines|)
    decreases |lines|
  {
    hide IsHeader, Split, SectionWindows, SectionChunks, MakeSection, Tiles, ShiftAll, SectionsOf, Join, Strip, Size;
    if lines == [] {
      NoSections();
      NoTiles(off);
    } else {
      var group, rest := FirstGroup(lines);
      SectionWindowsTile(cfg, group);
      var mid := off + |group|;
      SpansTile(cfg, mid, rest);
      var s, more := MakeSection(group), SectionsOf(rest);
      assert ([s] + more)[1..] == more;
      TilesShift(SectionWindows(cfg, s), 0, |group|, off);
      TilesConcat(ShiftAll(SectionWindows(cfg, s), off), Spans(cfg, more, mid), off, mid, off + |lines|);
    }
  }

  lemma NoTiles(at: nat)
    ensures Tiles([], at, at)
  {
  }

  /** Every chunk is the stripped text of a window of consecutive document lines that does not cross
      a header, with its exact size, its own header and its kind; the lines the windows add tile the document. */
  lemma ChunksAreWindows(cfg: Config, content: string)
    ensures var lines, cs, ws := Split(content), Chunks(cfg, content), DocumentSpans(cfg, content);
            Tiles(ws, 0, |lines|) && AllRender(cfg, lines, ws, cs)
  {
    SpansRender(cfg, [], Split(content));
    SpansTile(cfg, 0, Split(content));
    hide Renders, Tiles, Spans, ChunksOf, SectionsOf;
    assert [] + Split(content) == Split(content);
  }

  /** Every document, blank or not, has a chunk. */
  lemma ChunksNotEmpty(cfg: Config, content: string)
    ensures Chunks(cfg, content) != []
  {
    ChunksAreWindows(cfg, content);
    hide Chunks, DocumentSpans, Split, Renders;
  }

  /** A short document of one line is one chunk. */
  lemma OneLineDocument(cfg: Config, text: string)
    requires OneLine(text) && |text| + 1 <= cfg.chunkSize
    ensures |Chunks(cfg, text)| == 1 && Chunks(cfg, text)[0].content == Strip(Python, text)
  {
    hide Strip, IsHeader, HeaderText, HeaderLevel;
    JoinOne(text);
    SplitJoin([text]);
    LastSection([text]);
    hide SectionsOf, Split;
    var section := MakeSection([text]);
    assert [section][1..] == [] && [text][1..] == [];
    assert Size([text]) == |text| + 1 && section.size <= cfg.chunkSize;
    assert Chunks(cfg, text) == ChunksOf(cfg, [section]);
    assert ChunksOf(cfg, [section]) == SectionChunks(cfg, section) + ChunksOf(cfg, []);
  }

  // ----- conservation of text -----

  /** The text without its first n characters. */
  function Drop(s: string, n: nat): string {
    if n <= |s| then s[n..] else ""
  }

  /** What the chunks spell when the first copied[k] characters are dropped from chunk k. */
  function Spell(cs: seq<Chunk>, copied: seq<nat>): string
    requires |cs| == |copied|
  {
    if cs == [] then "" else Drop(NonSpace(cs[0].content), copied[0]) + Spell(cs[1..], copied[1..])
  }

  /** The non-whitespace characters of the lines a window repeats. */
  function Repeated(lines: seq<string>, w: Window): string {
    if w.lo <= w.seen <= |lines| then NonSpace(Join(lines[w.lo..w.seen])) else ""
  }

  function CopiedOf(lines: seq<string>, ws: seq<Window>): (r: seq<nat>)
    ensures |r| == |ws| && forall k :: 0 <= k < |ws| ==> r[k] == |Repeated(lines, ws[k])|
  {
    if ws == [] then [] else [|Repeated(lines, ws[0])|] + CopiedOf(lines, ws[1..])
  }

  lemma SplitWindow(lines: seq<string>, a: nat, b: nat, c: nat)
    requires a <= b <= c <= |lines|
    ensures NonSpace(Join(lines[a..c])) == NonSpace(Join(lines[a..b])) + NonSpace(Join(lines[b..c]))
  {
    hide NonSpace, Join;
    assert lines[a..c] == lines[a..b] + lines[b..c];
    NonSpaceJoinConcat(lines[a..b], lines[b..c]);
  }

  /** A chunk spells the lines it repeats and then the lines it adds. */
  lemma RenderedText(cfg: Config, lines: seq<string>, w: Window, c: Chunk)
    requires Renders(cfg, lines, w, c)
    ensures NonSpace(c.content) == Repeated(lines, w) + NonSpace(Join(lines[w.seen..w.hi]))
  {
    hide HeaderLine, SectionEnd, HeaderText, HeaderLevel, IsHeader, Strip, Size, Join, NonSpace;
    NonSpaceStrip(Join(lines[w.lo..w.hi]));
    SplitWindow(lines, w.lo, w.seen, w.hi);
  }

  /** The windows' added lines follow each other from one line to another. */
  ghost predicate Chained(ws: seq<Window>, from: nat, to: nat) {
    if ws == [] then from == to
    else ws[0].seen == from && from <= ws[0].hi && Chained(ws[1..], ws[0].hi, to)
  }

  lemma {:induction false} TilesChained(ws: seq<Window>, from: nat, to: nat)
    requires ws == [] ==> from == to
    requires ws != [] ==> ws[0].seen == from && ws[|ws| - 1].hi == to
    requires forall k :: 0 <= k < |ws| ==> ws[k].seen <= ws[k].hi
    requires forall j, k :: 0 <= j < k < |ws| && k == j + 1 ==> ws[k].seen == ws[j].hi
    ensures Chained(ws, from, to)
  {
    if ws != [] {
      var rest := ws[1..];
      forall j, k | 0 <= j < k < |rest| && k == j + 1
        ensures rest[k].seen == rest[j].hi
      {
        assert rest[j] == ws[j + 1] && rest[k] == ws[k + 1];
      }
      if rest != [] {
        assert rest[0] == ws[1] && rest[|rest| - 1] == ws[|ws| - 1];
        assert ws[1].seen == ws[0].hi;
      }
      TilesChained(rest, ws[0].hi, to);
    }
  }

  lemma {:induction false} SpellWindows(cfg: Config, lines: seq<string>, ws: seq<Window>, cs: seq<Chunk>, from: nat)
    requires AllRender(cfg, lines, ws, cs) && Chained(ws, from, |lines|)
    ensures from <= |lines|
    ensures Spell(cs, CopiedOf(lines, ws)) == NonSpace(Join(lines[from..]))
  {
    hide NonSpace, Join, Renders;
    if ws == [] {
      EmptyText();
      assert lines[from..] == [];
    } else {
      var w := ws[0];
      RenderedText(cfg, lines, w, cs[0]);
      SpellWindows(cfg, lines, ws[1..], cs[1..], w.hi);
      WindowInBounds(cfg, lines, w, cs[0]);
      SplitWindow(lines, from, w.hi, |lines|);
      assert lines[from..|lines|] == lines[from..] && lines[w.hi..|lines|] == lines[w.hi..];
    }
  }

  lemma WindowInBounds(cfg: Config, lines: seq<string>, w: Window, c: Chunk)
    requires Renders(cfg, lines, w, c)
    ensures w.lo <= w.seen <= w.hi <= |lines|
  {
  }

  lemma EmptyText()
    ensures NonSpace(Join([])) == ""
  {
  }

  predicate EndsWith(s: string, tail: string) {
    |tail| <= |s| && s[|s| - |tail|..] == tail
  }

  /** How many non-whitespace characters each chunk of the document copied from the one before. */
  function Copied(cfg: Config, content: string): seq<nat> {
    CopiedOf(Split(content), DocumentSpans(cfg, content))
  }

  /** Nothing is lost and nothing invented: what each chunk copied is the end of the chunk before
      it, and without the copies the chunks spell the document's non-whitespace characters (NonSpaceOne and
      NonSpaceConcat say which these are). */
  lemma TextConservation(cfg: Config, content: string)
    ensures var cs, copied := Chunks(cfg, content), Copied(cfg, content);
            && |copied| == |cs| && (cs != [] ==> copied[0] == 0)
            && (forall k :: 0 <= k < |cs| ==> copied[k] <= |NonSpace(cs[k].content)|)
            && (forall j, k :: 0 <= j < k < |cs| && k == j + 1 ==>
                                 EndsWith(NonSpace(cs[j].content), NonSpace(cs[k].content)[..copied[k]]))
            && Spell(cs, copied) == NonSpace(content)
  {
    ChunksAreWindows(cfg, content);
    JoinSplit(content);
    EmptyText();
    hide NonSpace, Join, Split, Chunks, DocumentSpans, Renders, Spell;
    var lines, cs, ws := Split(content), Chunks(cfg, content), DocumentSpans(cfg, content);
    TilesChained(ws, 0, |lines|);
    SpellWindows(cfg, lines, ws, cs, 0);
    assert lines[0..] == lines;
    assert cs != [] ==> lines[0..0] == [];
    forall k | 0 <= k < |cs| ensures |Repeated(lines, ws[k])| <= |NonSpace(cs[k].content)| {
      RenderedText(cfg, lines, ws[k], cs[k]);
    }
    forall j, k | 0 <= j < k < |cs| && k == j + 1
      ensures EndsWith(NonSpace(cs[j].content), NonSpace(cs[k].content)[..|Repeated(lines, ws[k])|])
    {
      CopyIsTail(cfg, lines, ws[j], cs[j], ws[k], cs[k]);
    }
  }

  lemma CopyIsTail(cfg: Config, lines: seq<string>, w: Window, c: Chunk, w': Window, c': Chunk)
    requires Renders(cfg, lines, w, c) && Renders(cfg, lines, w', c')
    requires w'.seen == w.hi && w.lo <= w'.lo
    ensures var n := |Repeated(lines, w')|;
            n <= |NonSpace(c'.content)| && EndsWith(NonSpace(c.content), NonSpace(c'.content)[..n])
  {
    hide NonSpace, Join, HeaderLine, SectionEnd, HeaderText, HeaderLevel, IsHeader, Strip, Size;
    NonSpaceStrip(Join(lines[w.lo..w.hi]));
    SplitWindow(lines, w.lo, w'.lo, w.hi);
    RenderedText(cfg, lines, w', c');
  }
}
