/** `_split_by_headers` and `_extract_title` of the document processor. */
module Sections {
  import opened Text
  import opened Wrappers

  // ----- the header pattern ^(#{1,6})\s+(.+) on a stripped line -----

  datatype Header = NoHeader | Header(level: nat, text: string)

  function Hashes(s: string): (k: nat)
    ensures k <= |s| && forall i :: 0 <= i < k ==> s[i] == '#'
    ensures k < |s| ==> s[k] != '#'
  {
    if s != "" && s[0] == '#' then 1 + Hashes(s[1..]) else 0
  }

  function HeaderOf(line: string): Header {
    var t := Strip(Python, line);
    var k := Hashes(t);
    if 1 <= k <= 6 && k < |t| && IsSpace(Python, t[k])
    then Header(k, Strip(Python, StripLeft(Python, t[k..])))
    else NoHeader
  }

  predicate IsHeader(line: string) {
    HeaderOf(line).Header?
  }

  /** The pattern matches `t` with k hashes and m whitespace characters before its last group. */
  ghost predicate MatchesAt(t: string, k: nat, m: nat) {
    && 1 <= k <= 6 && 1 <= m && k + m < |t|
    && (forall i :: 0 <= i < k ==> t[i] == '#')
    && AllSpace(Python, t[k..k + m])
    && OneLine(t[k + m..])
  }

  lemma HashesForced(t: string, k: nat, m: nat)
    requires MatchesAt(t, k, m)
    ensures k == Hashes(t) && IsSpace(Python, t[k])
  {
    assert t[k..k + m][0] == t[k];
    if k < Hashes(t) {
      assert false;
    }
  }

  lemma SplitSuffix(t: string, k: nat, a: string, b: string)
    requires k <= |t| && t[k..] == a + b
    ensures k + |a| <= |t| && t[k..k + |a|] == a && t[k + |a|..] == b
  {
  }

  /** After the hashes of a header, the longest run of whitespace and then the header text. */
  lemma HeaderTail(line: string) returns (m: nat)
    requires OneLine(line) && IsHeader(line)
    ensures var t, h := Strip(Python, line), HeaderOf(line);
            && MatchesAt(t, h.level, m) && !IsSpace(Python, t[h.level + m])
            && h.text == Strip(Python, t[h.level + m..])
  {
    hide IsSpace, Strip, StripLeft, StripRight, Hashes;
    var t := Strip(Python, line);
    var pre, post := StripShape(Python, line);
    var k := Hashes(t);
    var spaces := StripLeftShape(Python, t[k..]);
    var rest := StripLeft(Python, t[k..]);
    m := |spaces|;
    assert t[k..] == spaces + rest;
    SplitSuffix(t, k, spaces, rest);
    if m == 0 {
      assert false;
    }
    if rest == "" {
      assert false;
    }
    assert rest[0] == t[k + m];
    forall i | 0 <= i < |rest| ensures rest[i] != '\n' {
      assert rest[i] == line[|pre| + k + m + i];
    }
  }

  /** A header is exactly a match of the pattern; the hash count is forced, and the text is what
      follows the longest run of whitespace, which is what greedy matching captures. */
  lemma HeaderRegex(line: string)
    requires OneLine(line)
    ensures IsHeader(line) <==> exists k, m :: MatchesAt(Strip(Python, line), k, m)
    ensures forall k, m :: MatchesAt(Strip(Python, line), k, m) ==> IsHeader(line) && k == HeaderOf(line).level
    ensures IsHeader(line) ==>
              exists m :: var t, h := Strip(Python, line), HeaderOf(line);
                          && MatchesAt(t, h.level, m) && !IsSpace(Python, t[h.level + m])
                          && h.text == Strip(Python, t[h.level + m..])
  {
    hide IsSpace, Strip, StripLeft, StripRight, Hashes;
    forall k: nat, m: nat | MatchesAt(Strip(Python, line), k, m)
      ensures IsHeader(line) && k == HeaderOf(line).level
    {
      HashesForced(Strip(Python, line), k, m);
    }
    if IsHeader(line) {
      var m := HeaderTail(line);
    }
  }

  // ----- sections -----

  datatype Section = Section(content: string, header: string, level: nat, size: nat)

  /** Length of the run of lines that are not headers. */
  function BodyRun(lines: seq<string>): (n: nat)
    ensures n <= |lines| && (forall i :: 0 <= i < n ==> !IsHeader(lines[i]))
    ensures n < |lines| ==> IsHeader(lines[n])
  {
    if lines == [] || IsHeader(lines[0]) then 0 else 1 + BodyRun(lines[1..])
  }

  lemma {:induction false} BodyRunIs(lines: seq<string>, n: nat)
    requires n <= |lines| && (forall i :: 0 <= i < n ==> !IsHeader(lines[i]))
    requires n < |lines| ==> IsHeader(lines[n])
    ensures BodyRun(lines) == n
  {
    hide IsHeader;
  }

  function HeaderText(line: string): string {
    if IsHeader(line) then HeaderOf(line).text else ""
  }

  function HeaderLevel(line: string): nat {
    if IsHeader(line) then HeaderOf(line).level else 0
  }

  function MakeSection(group: seq<string>): Section
    requires group != []
  {
    Section(Join(group), HeaderText(group[0]), HeaderLevel(group[0]), Size(group))
  }

  /** A section is a line and all lines after it up to the next header. */
  function SectionsOf(lines: seq<string>): seq<Section> {
    if lines == [] then []
    else
      var n := 1 + BodyRun(lines[1..]);
      [MakeSection(lines[..n])] + SectionsOf(lines[n..])
  }

  lemma {:induction false} SectionsStep(group: seq<string>, rest: seq<string>)
    requires group != [] && (forall i :: 1 <= i < |group| ==> !IsHeader(group[i]))
    requires rest != [] ==> IsHeader(rest[0])
    ensures SectionsOf(group + rest) == [MakeSection(group)] + SectionsOf(rest)
  {
    hide IsHeader, HeaderText, HeaderLevel;
    var lines, n := group + rest, |group|;
    assert lines[1..] == group[1..] + rest;
    BodyRunIs(lines[1..], n - 1);
    assert lines[..n] == group && lines[n..] == rest;
  }

  lemma LastSection(group: seq<string>)
    requires group != [] && (forall i :: 1 <= i < |group| ==> !IsHeader(group[i]))
    ensures SectionsOf(group) == [MakeSection(group)]
  {
    hide IsHeader, HeaderText, HeaderLevel;
    SectionsStep(group, []);
    assert group + [] == group;
  }

  lemma HeaderFields(line: string)
    ensures HeaderText(line) == if HeaderOf(line).Header? then HeaderOf(line).text else ""
    ensures HeaderLevel(line) == if HeaderOf(line).Header? then HeaderOf(line).level else 0
  {
    hide HeaderOf;
  }

  method SplitByHeaders(content: string) returns (sections: seq<Section>)
    ensures sections == SectionsOf(Split(content))
  {
    hide HeaderOf, SectionsOf, Split, Join, Size, HeaderText, HeaderLevel;
    sections := [];
    var lines := Split(content);
    var currentSection: seq<string> := [];
    var currentHeader, currentLevel := "", 0;
    assert currentSection + lines[0..] == lines;
    for i := 0 to |lines|
      invariant currentSection == [] ==> i == 0 && currentHeader == "" && currentLevel == 0
      invariant currentSection != [] ==>
                  currentHeader == HeaderText(currentSection[0]) && currentLevel == HeaderLevel(currentSection[0])
      invariant forall j :: 1 <= j < |currentSection| ==> !IsHeader(currentSection[j])
      invariant sections + SectionsOf(currentSection + lines[i..]) == SectionsOf(lines)
    {
      var line := lines[i];
      var header := HeaderOf(line);
      HeaderFields(line);
      assert lines[i..] == [line] + lines[i + 1..];
      if header.Header? {
        if currentSection != [] {
          SectionsStep(currentSection, lines[i..]);
          sections := sections + [Section(Join(currentSection), currentHeader, currentLevel, Size(currentSection))];
        }
        assert currentSection == [] ==> currentSection + lines[i..] == lines[i..];
        currentLevel := header.level;
        currentHeader := header.text;
        currentSection := [line];
      } else {
        assert currentSection + lines[i..] == (currentSection + [line]) + lines[i + 1..];
        currentSection := currentSection + [line];
      }
    }
    if currentSection != [] {
      assert currentSection + lines[|lines|..] == currentSection;
      LastSection(currentSection);
      sections := sections + [Section(Join(currentSection), currentHeader, currentLevel, Size(currentSection))];
    }
  }

  // ----- what a header split is, stated on the sections alone -----

  function Contents(sections: seq<Section>): seq<string> {
    if sections == [] then [] else [sections[0].content] + Contents(sections[1..])
  }

  function TotalSize(sections: seq<Section>): nat {
    if sections == [] then 0 else sections[0].size + TotalSize(sections[1..])
  }

  ghost predicate WellFormedSection(s: Section) {
    var ls := Split(s.content);
    && (forall j :: 1 <= j < |ls| ==> !IsHeader(ls[j]))
    && s.header == HeaderText(ls[0]) && s.level == HeaderLevel(ls[0]) && s.size == Size(ls)
  }

  ghost predicate WellFormedSections(sections: seq<Section>) {
    && (forall k :: 0 <= k < |sections| ==> WellFormedSection(sections[k]))
    && (forall k :: 1 <= k < |sections| ==> IsHeader(Split(sections[k].content)[0]))
  }

  ghost predicate IsHeaderSplit(content: string, sections: seq<Section>) {
    sections != [] && Join(Contents(sections)) == content && WellFormedSections(sections)
  }

  lemma GroupWellFormed(group: seq<string>)
    requires group != [] && AllOneLine(group) && (forall j :: 1 <= j < |group| ==> !IsHeader(group[j]))
    ensures Split(MakeSection(group).content) == group && WellFormedSection(MakeSection(group))
  {
    hide HeaderOf;
    SplitJoin(group);
  }

  /** The first section of some lines and the lines after it. */
  lemma {:induction false} FirstGroup(lines: seq<string>) returns (group: seq<string>, rest: seq<string>)
    requires AllOneLine(lines) && lines != []
    ensures lines == group + rest && group != [] && AllOneLine(group) && AllOneLine(rest)
    ensures forall j :: 1 <= j < |group| ==> !IsHeader(group[j])
    ensures rest != [] ==> IsHeader(rest[0])
    ensures SectionsOf(lines) == [MakeSection(group)] + SectionsOf(rest)
    ensures Split(MakeSection(group).content) == group
  {
    hide IsHeader, Split, Join, MakeSection;
    var n := 1 + BodyRun(lines[1..]);
    group, rest := lines[..n], lines[n..];
    forall j | 1 <= j < |group| ensures !IsHeader(group[j]) { assert group[j] == lines[1..][j - 1]; }
    if rest != [] { assert rest[0] == lines[1..][n - 1]; }
    GroupWellFormed(group);
  }

  lemma NoSections()
    ensures SectionsOf([]) == []
  {
  }

  lemma WellFormedCons(first: Section, more: seq<Section>)
    requires WellFormedSection(first) && WellFormedSections(more)
    requires more != [] ==> IsHeader(Split(more[0].content)[0])
    ensures WellFormedSections([first] + more)
  {
    hide HeaderOf, WellFormedSection;
  }

  lemma {:induction false} SectionsOfWellFormed(lines: seq<string>)
    requires AllOneLine(lines)
    ensures WellFormedSections(SectionsOf(lines))
    ensures lines != [] ==> SectionsOf(lines) != [] && Split(SectionsOf(lines)[0].content)[0] == lines[0]
    decreases |lines|
  {
    hide HeaderOf, Split, Join, MakeSection, WellFormedSection, SectionsOf;
    NoSections();
    if lines != [] {
      var group, rest := FirstGroup(lines);
      SectionsOfWellFormed(rest);
      GroupWellFormed(group);
      WellFormedCons(MakeSection(group), SectionsOf(rest));
    }
  }

  lemma {:induction false} SectionsOfJoin(lines: seq<string>)
    requires lines != []
    ensures SectionsOf(lines) != [] && Contents(SectionsOf(lines)) != []
    ensures Join(Contents(SectionsOf(lines))) == Join(lines)
    ensures TotalSize(SectionsOf(lines)) == Size(lines)
  {
    hide HeaderOf;
    var n := 1 + BodyRun(lines[1..]);
    var group, rest := lines[..n], lines[n..];
    assert lines == group + rest;
    SizeConcat(group, rest);
    assert Contents(SectionsOf(lines))[1..] == Contents(SectionsOf(rest));
    if rest == [] {
      assert lines == group;
    } else {
      SectionsOfJoin(rest);
      JoinConcat(group, rest);
    }
  }

  /** Joining the contents gives back the document, the sizes sum to its length plus one, every
      section after the first starts with a header line and no other line is a header. */
  lemma {:induction false} HeaderSplitRoundTrip(content: string)
    ensures IsHeaderSplit(content, SectionsOf(Split(content)))
    ensures TotalSize(SectionsOf(Split(content))) == |content| + 1
  {
    SectionsOfWellFormed(Split(content));
    SectionsOfJoin(Split(content));
    JoinSplit(content);
    SizeIsJoinLength(Split(content));
  }

  lemma SplitFirstSection(first: Section, more: seq<Section>) returns (rest: seq<string>)
    ensures var all := Contents([first] + more);
            Split(Join(all)) == Split(first.content) + rest
    ensures rest == if more == [] then [] else Split(Join(Contents(more)))
  {
    hide Split, Join;
    assert ([first] + more)[1..] == more;
    JoinSplit(first.content);
    if more == [] {
      rest := [];
      assert Contents([first] + more) == [first.content];
      JoinOne(first.content);
    } else {
      rest := Split(Join(Contents(more)));
      JoinSplit(Join(Contents(more)));
      JoinConcat(Split(first.content), rest);
      JoinConcat([first.content], Contents(more));
      JoinOne(first.content);
      SplitJoin(Split(first.content) + rest);
    }
  }

  lemma {:induction false} SectionsOfJoined(sections: seq<Section>)
    requires sections != [] && WellFormedSections(sections)
    ensures SectionsOf(Split(Join(Contents(sections)))) == sections
    ensures Split(Join(Contents(sections)))[0] == Split(sections[0].content)[0]
  {
    hide HeaderOf, Split, Join, Contents;
    var group, more := Split(sections[0].content), sections[1..];
    assert sections == [sections[0]] + more;
    var rest := SplitFirstSection(sections[0], more);
    JoinSplit(sections[0].content);
    if more != [] {
      assert WellFormedSections(more);
      SectionsOfJoined(more);
      assert sections[1] == more[0];
    }
    SectionsStep(group, rest);
  }

  /** The header split of a document is the only one. */
  lemma HeaderSplitUnique(content: string, sections: seq<Section>)
    requires IsHeaderSplit(content, sections)
    ensures sections == SectionsOf(Split(content))
  {
    SectionsOfJoined(sections);
  }

  // ----- title -----

  predicate IsTitleLine(line: string) {
    "# " <= Strip(Python, line)
  }

  function TitleFrom(lines: seq<string>): Option<string> {
    if lines == [] then None
    else if IsTitleLine(lines[0]) then Some(Strip(Python, Strip(Python, lines[0])[2..]))
    else TitleFrom(lines[1..])
  }

  function Title(content: string, fallback: string): string {
    var t := TitleFrom(Split(content));
    if t.Some? then t.value else fallback
  }

  /** `fallback` is the prettified file stem. */
  method ExtractTitle(content: string, fallback: string) returns (title: string)
    ensures title == Title(content, fallback)
  {
    var lines := Split(content);
    assert lines[0..] == lines;
    for i := 0 to |lines|
      invariant TitleFrom(lines[i..]) == TitleFrom(lines)
    {
      var line := Strip(Python, lines[i]);
      if "# " <= line {
        return Strip(Python, line[2..]);
      }
    }
    return fallback;
  }

  lemma TitleLineIsHeader(line: string)
    requires IsTitleLine(line)
    ensures HeaderOf(line) == Header(1, Strip(Python, Strip(Python, line)[2..]))
  {
    var t := Strip(Python, line);
    assert t[0] == '#' && t[1] == ' ';
    assert t[1..][1..] == t[2..];
    var pre := StripLeftShape(Python, t[2..]);
    assert StripLeft(Python, t[1..]) == StripLeft(Python, t[2..]);
    var u := StripLeft(Python, t[2..]);
    assert StripLeft(Python, u) == u;
  }

  /** Line i is the first whose stripped form begins with "# ". */
  ghost predicate TitleAt(lines: seq<string>, i: int) {
    0 <= i < |lines| && "# " <= Strip(Python, lines[i]) && forall j :: 0 <= j < i ==> !("# " <= Strip(Python, lines[j]))
  }

  ghost predicate Untitled(lines: seq<string>) {
    forall i :: 0 <= i < |lines| ==> !("# " <= Strip(Python, lines[i]))
  }

  /** Written out: the title is what follows "# " in that line, and the fallback when there is none. */
  lemma {:induction false} TitleExact(content: string, fallback: string)
    ensures var lines, title := Split(content), Title(content, fallback);
            && (forall i :: TitleAt(lines, i) ==> title == Strip(Python, Strip(Python, lines[i])[2..]))
            && (Untitled(lines) ==> title == fallback)
  {
    FirstTitleLine(Split(content));
    hide Strip, Split, TitleFrom, Untitled;
  }

  lemma {:induction false} FirstTitleLine(lines: seq<string>)
    ensures forall i :: TitleAt(lines, i) ==> TitleFrom(lines) == Some(Strip(Python, Strip(Python, lines[i])[2..]))
    ensures Untitled(lines) ==> TitleFrom(lines) == None
  {
    hide Strip;
    if lines != [] {
      FirstTitleLine(lines[1..]);
      forall i | 1 <= i < |lines| ensures lines[i] == lines[1..][i - 1] {}
      forall i | TitleAt(lines, i) && i > 0 ensures TitleAt(lines[1..], i - 1) {}
    }
  }

  /** The first level-1 section whose stripped header line begins with "# ". */
  function FirstTitled(sections: seq<Section>): Option<Section> {
    if sections == [] then None
    else if sections[0].level == 1 && IsTitleLine(Split(sections[0].content)[0]) then Some(sections[0])
    else FirstTitled(sections[1..])
  }

  lemma {:induction false} TitleSkipsBody(group: seq<string>, rest: seq<string>)
    requires forall i :: 0 <= i < |group| ==> !IsHeader(group[i])
    ensures TitleFrom(group + rest) == TitleFrom(rest)
  {
    if group == [] {
      assert group + rest == rest;
    } else {
      if IsTitleLine(group[0]) { TitleLineIsHeader(group[0]); }
      assert (group + rest)[1..] == group[1..] + rest;
      TitleSkipsBody(group[1..], rest);
    }
  }

  lemma TitleOfGroup(group: seq<string>, rest: seq<string>)
    requires group != [] && (forall i :: 1 <= i < |group| ==> !IsHeader(group[i]))
    ensures IsTitleLine(group[0]) ==> HeaderLevel(group[0]) == 1
    ensures TitleFrom(group + rest) == if IsTitleLine(group[0]) then Some(HeaderText(group[0])) else TitleFrom(rest)
  {
    if IsTitleLine(group[0]) {
      TitleLineIsHeader(group[0]);
    }
    hide HeaderOf, IsTitleLine, Strip;
    assert (group + rest)[1..] == group[1..] + rest;
    TitleSkipsBody(group[1..], rest);
  }

  lemma {:induction false} TitleOfLines(lines: seq<string>)
    requires AllOneLine(lines)
    ensures var s := FirstTitled(SectionsOf(lines));
            TitleFrom(lines) == if s.Some? then Some(s.value.header) else None
    decreases |lines|
  {
    hide IsHeader, HeaderText, HeaderLevel, IsTitleLine, Split, Join, TitleFrom, SectionsOf;
    if lines == [] {
      NoSections();
      NoTitle();
    } else {
      var group, rest := FirstGroup(lines);
      TitleOfGroup(group, rest);
      TitleOfLines(rest);
      assert ([MakeSection(group)] + SectionsOf(rest))[1..] == SectionsOf(rest);
    }
  }

  lemma NoTitle()
    ensures TitleFrom([]) == None
  {
  }

  /** The title taken from the content is the header of the first level-1 section whose header
      line is written with "# "; when no section has one, the file name is used. */
  lemma TitleAgreement(content: string, fallback: string)
    ensures var s := FirstTitled(SectionsOf(Split(content)));
            Title(content, fallback) == if s.Some? then s.value.header else fallback
  {
    TitleOfLines(Split(content));
  }
}
