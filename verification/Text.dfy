/** Strings as the Python services and the Go client see them: whitespace, strip, lines, fences. */
module Text {

  /** The two runtimes disagree on U+001C..U+001F: Python's `str.strip` and `\s` call them
      whitespace, Go's `unicode.IsSpace` does not. */
  datatype Runtime = Python | Go

  const FENCE: string := "```"

  predicate IsSpace(rt: Runtime, c: char) {
    || '\t' <= c <= '\r'
    || c == ' '
    || c == '\U{85}'
    || c == '\U{A0}'
    || c == '\U{1680}'
    || '\U{2000}' <= c <= '\U{200A}'
    || c == '\U{2028}'
    || c == '\U{2029}'
    || c == '\U{202F}'
    || c == '\U{205F}'
    || c == '\U{3000}'
    || (rt == Python && '\U{1C}' <= c <= '\U{1F}')
  }

  /** The code points that `str.isspace` and `unicode.IsSpace` accept. */
  lemma SpaceTable(c: char)
    ensures IsSpace(Go, c) <==>
              c as int in {9, 10, 11, 12, 13, 32, 133, 160, 5760, 8192, 8193, 8194, 8195, 8196, 8197, 8198, 8199, 8200,
                           8201, 8202, 8232, 8233, 8239, 8287, 12288}
    ensures IsSpace(Python, c) <==> IsSpace(Go, c) || c as int in {28, 29, 30, 31}
  {
  }

  predicate AllSpace(rt: Runtime, s: string) {
    forall i :: 0 <= i < |s| ==> IsSpace(rt, s[i])
  }

  // ----- strip -----

  function StripLeft(rt: Runtime, s: string): (r: string)
    ensures |r| <= |s|
  {
    if s != "" && IsSpace(rt, s[0]) then StripLeft(rt, s[1..]) else s
  }

  function StripRight(rt: Runtime, s: string): string {
    if s != "" && IsSpace(rt, s[|s| - 1]) then StripRight(rt, s[..|s| - 1]) else s
  }

  function Strip(rt: Runtime, s: string): string {
    StripRight(rt, StripLeft(rt, s))
  }

  lemma {:induction false} StripLeftShape(rt: Runtime, s: string) returns (pre: string)
    ensures s == pre + StripLeft(rt, s) && AllSpace(rt, pre)
    ensures StripLeft(rt, s) != "" ==> !IsSpace(rt, StripLeft(rt, s)[0])
  {
    if s != "" && IsSpace(rt, s[0]) {
      var rest := StripLeftShape(rt, s[1..]);
      pre := [s[0]] + rest;
    } else {
      pre := "";
    }
  }

  lemma {:induction false} StripRightShape(rt: Runtime, s: string) returns (post: string)
    ensures s == StripRight(rt, s) + post && AllSpace(rt, post)
    ensures StripRight(rt, s) != "" ==> !IsSpace(rt, StripRight(rt, s)[|StripRight(rt, s)| - 1])
  {
    if s != "" && IsSpace(rt, s[|s| - 1]) {
      var rest := StripRightShape(rt, s[..|s| - 1]);
      post := rest + [s[|s| - 1]];
    } else {
      post := "";
    }
  }

  /** Stripping removes whitespace at the two ends and stops at the first character that is not. */
  lemma StripShape(rt: Runtime, s: string) returns (pre: string, post: string)
    ensures s == pre + Strip(rt, s) + post && AllSpace(rt, pre) && AllSpace(rt, post)
    ensures var r := Strip(rt, s); r != "" ==> !IsSpace(rt, r[0]) && !IsSpace(rt, r[|r| - 1])
  {
    pre := StripLeftShape(rt, s);
    post := StripRightShape(rt, StripLeft(rt, s));
  }

  /** A string is blank, in the sense of `not s.strip()`, exactly when it holds only whitespace. */
  lemma BlankIff(rt: Runtime, s: string)
    ensures Strip(rt, s) == "" <==> AllSpace(rt, s)
  {
    var pre, post := StripShape(rt, s);
    if Strip(rt, s) != "" {
      assert s[|pre|] == Strip(rt, s)[0];
    } else {
      assert s == pre + post;
    }
  }

  /** A string whose two end characters are not whitespace is its own strip. */
  lemma StripFixed(rt: Runtime, s: string)
    requires s != "" ==> !IsSpace(rt, s[0]) && !IsSpace(rt, s[|s| - 1])
    ensures Strip(rt, s) == s
  {
  }

  lemma {:induction false} StripLeftDropSpace(rt: Runtime, s: string, c: char)
    requires IsSpace(rt, c)
    ensures StripLeft(rt, s + [c]) == if AllSpace(rt, s) then "" else StripLeft(rt, s) + [c]
  {
    if s == "" {
      assert s + [c] == [c];
      assert [c][1..] == "";
    } else if IsSpace(rt, s[0]) {
      StripLeftDropSpace(rt, s[1..], c);
      assert (s + [c])[1..] == s[1..] + [c];
      assert AllSpace(rt, s) <==> AllSpace(rt, s[1..]);
    }
  }

  lemma StripDropRight(rt: Runtime, s: string, c: char)
    requires IsSpace(rt, c)
    ensures Strip(rt, s + [c]) == Strip(rt, s)
  {
    StripLeftDropSpace(rt, s, c);
    if AllSpace(rt, s) {
      BlankIff(rt, s);
    } else {
      var t := StripLeft(rt, s);
      assert (t + [c])[..|t|] == t;
    }
  }

  // ----- characters that are not whitespace -----

  function NonSpace(s: string): string {
    if s == "" then "" else (if IsSpace(Python, s[0]) then "" else [s[0]]) + NonSpace(s[1..])
  }

  /** With NonSpaceConcat: exactly the characters that are not whitespace are kept. */
  lemma NonSpaceOne(c: char)
    ensures NonSpace([c]) == if IsSpace(Python, c) then "" else [c]
  {
    assert [c][1..] == "";
  }

  lemma ConcatAssociates(a: string, b: string, c: string)
    ensures (a + b) + c == a + (b + c)
  {
  }

  lemma {:induction false} NonSpaceConcat(a: string, b: string)
    ensures NonSpace(a + b) == NonSpace(a) + NonSpace(b)
  {
    hide IsSpace;
    if a == "" {
      assert a + b == b;
    } else {
      NonSpaceConcat(a[1..], b);
      assert (a + b)[1..] == a[1..] + b;
      var first := if IsSpace(Python, a[0]) then "" else [a[0]];
      ConcatAssociates(first, NonSpace(a[1..]), NonSpace(b));
    }
  }

  lemma {:induction false} NonSpaceOfSpaces(s: string)
    requires AllSpace(Python, s)
    ensures NonSpace(s) == ""
  {
    if s != "" {
      NonSpaceOfSpaces(s[1..]);
    }
  }

  lemma NonSpaceStrip(s: string)
    ensures NonSpace(Strip(Python, s)) == NonSpace(s)
  {
    var pre, post := StripShape(Python, s);
    NonSpaceConcat(pre + Strip(Python, s), post);
    NonSpaceConcat(pre, Strip(Python, s));
    NonSpaceOfSpaces(pre);
    NonSpaceOfSpaces(post);
  }

  // ----- lines -----

  predicate OneLine(s: string) {
    '\n' !in s
  }

  predicate AllOneLine(lines: seq<string>) {
    forall i :: 0 <= i < |lines| ==> OneLine(lines[i])
  }

  /** `s.split('\n')` and `strings.Split(s, "\n")`. */
  function Split(s: string): (lines: seq<string>)
    ensures |lines| >= 1 && AllOneLine(lines)
  {
    if s == "" then [""]
    else
      var rest := Split(s[1..]);
      if s[0] == '\n' then [""] + rest else [[s[0]] + rest[0]] + rest[1..]
  }

  /** `'\n'.join(lines)` and `strings.Join(lines, "\n")`. */
  function Join(lines: seq<string>): string {
    if |lines| == 0 then "" else if |lines| == 1 then lines[0] else lines[0] + "\n" + Join(lines[1..])
  }

  lemma JoinFirst(c: char, lines: seq<string>)
    requires lines != []
    ensures Join([[c] + lines[0]] + lines[1..]) == [c] + Join(lines)
  {
  }

  lemma {:induction false} JoinSplit(s: string)
    ensures Join(Split(s)) == s
  {
    if s != "" {
      JoinSplit(s[1..]);
      var rest := Split(s[1..]);
      assert s == [s[0]] + s[1..];
      if s[0] == '\n' {
        assert ([""] + rest)[1..] == rest;
        assert "" + "\n" + s[1..] == s;
      } else {
        JoinFirst(s[0], rest);
      }
    }
  }

  lemma {:induction false} SplitPrefix(l: string, s: string)
    requires OneLine(l)
    ensures Split(l + s) == [l + Split(s)[0]] + Split(s)[1..]
  {
    if l == "" {
      assert l + s == s;
      assert "" + Split(s)[0] == Split(s)[0];
    } else {
      assert OneLine(l[1..]);
      SplitPrefix(l[1..], s);
      assert (l + s)[1..] == l[1..] + s;
      assert [l[0]] + (l[1..] + Split(s)[0]) == l + Split(s)[0];
    }
  }

  lemma {:induction false} SplitJoin(lines: seq<string>)
    requires |lines| >= 1 && AllOneLine(lines)
    ensures Split(Join(lines)) == lines
  {
    if |lines| == 1 {
      SplitPrefix(lines[0], "");
      assert lines[0] + "" == lines[0];
    } else {
      assert AllOneLine(lines[1..]);
      SplitJoin(lines[1..]);
      var tail := "\n" + Join(lines[1..]);
      assert tail[1..] == Join(lines[1..]);
      SplitPrefix(lines[0], tail);
      assert Join(lines) == lines[0] + tail;
      assert Split(tail) == [""] + lines[1..];
      assert lines[0] + "" == lines[0];
    }
  }

  lemma {:induction false} JoinConcat(a: seq<string>, b: seq<string>)
    requires |a| >= 1 && |b| >= 1
    ensures Join(a + b) == Join(a) + "\n" + Join(b)
  {
    assert (a + b)[1..] == a[1..] + b;
    if |a| == 1 {
      assert a[1..] + b == b;
    } else {
      JoinConcat(a[1..], b);
      assert (a + b)[0] == a[0];
    }
  }

  lemma JoinOne(s: string)
    ensures Join([s]) == s
  {
  }

  /** `sum(len(l) + 1 for l in lines)`. */
  function Size(lines: seq<string>): nat {
    if lines == [] then 0 else |lines[0]| + 1 + Size(lines[1..])
  }

  lemma {:induction false} SizeConcat(a: seq<string>, b: seq<string>)
    ensures Size(a + b) == Size(a) + Size(b)
  {
    if a == [] {
      assert a + b == b;
    } else {
      SizeConcat(a[1..], b);
      assert (a + b)[1..] == a[1..] + b;
    }
  }

  lemma {:induction false} SizeIsJoinLength(lines: seq<string>)
    requires |lines| >= 1
    ensures Size(lines) == |Join(lines)| + 1
  {
    if |lines| > 1 {
      SizeIsJoinLength(lines[1..]);
    }
  }

  lemma {:induction false} NonSpaceJoinConcat(a: seq<string>, b: seq<string>)
    ensures NonSpace(Join(a + b)) == NonSpace(Join(a)) + NonSpace(Join(b))
  {
    if a == [] {
      assert a + b == b;
    } else if b == [] {
      assert a + b == a;
    } else {
      JoinConcat(a, b);
      NonSpaceConcat(Join(a) + "\n", Join(b));
      NonSpaceConcat(Join(a), "\n");
    }
  }

  // ----- code fences -----

  /** A line toggles the code-block flag when its stripped form starts with three backquotes. */
  predicate IsFence(rt: Runtime, line: string) {
    FENCE <= Strip(rt, line)
  }

  function FenceCount(rt: Runtime, lines: seq<string>): nat {
    if lines == [] then 0 else (if IsFence(rt, lines[0]) then 1 else 0) + FenceCount(rt, lines[1..])
  }

  /** Written out: after some whitespace the line goes on with three backquotes. */
  lemma FenceMeaning(rt: Runtime, line: string)
    ensures IsFence(rt, line) <==>
              exists n :: 0 <= n && n + 3 <= |line| && AllSpace(rt, line[..n]) && line[n..n + 3] == "```"
  {
    var pre, post := StripShape(rt, line);
    var t := Strip(rt, line);
    assert !IsSpace(rt, '`');
    hide IsSpace, Strip;
    if IsFence(rt, line) {
      assert line[..|pre|] == pre && line[|pre|..|pre| + 3] == t[..3] == "```";
    }
    if n :| 0 <= n && n + 3 <= |line| && AllSpace(rt, line[..n]) && line[n..n + 3] == "```" {
      BackquotesInside(rt, line, pre, t, post, n);
    }
  }

  lemma SpaceBefore(rt: Runtime, line: string, n: nat, i: nat)
    requires i < n <= |line| && AllSpace(rt, line[..n])
    ensures IsSpace(rt, line[i])
  {
    assert line[..n][i] == line[i];
  }

  lemma BackquotesInside(rt: Runtime, line: string, pre: string, t: string, post: string, n: nat)
    requires line == pre + t + post && AllSpace(rt, pre) && AllSpace(rt, post)
    requires t != "" ==> !IsSpace(rt, t[0])
    requires n + 3 <= |line| && AllSpace(rt, line[..n]) && line[n..n + 3] == "```"
    ensures "```" <= t
  {
    assert !IsSpace(rt, '`');
    hide IsSpace;
    forall i | n <= i < n + 3 ensures line[i] == '`' { assert line[n..n + 3][i - n] == '`'; }
    forall i | 0 <= i < |pre| ensures IsSpace(rt, line[i]) { assert line[i] == pre[i]; }
    forall i | |pre| + |t| <= i < |line| ensures IsSpace(rt, line[i]) { assert line[i] == post[i - |pre| - |t|]; }
    assert !IsSpace(rt, line[n]) && !IsSpace(rt, line[n + 2]);
    assert |pre| <= n && n + 3 <= |pre| + |t|;
    if |pre| < n {
      SpaceBefore(rt, line, n, |pre|);
      assert false;
    }
    assert t[..3] == "```";
  }

  /** The positions of the fence lines. */
  function FenceLines(rt: Runtime, lines: seq<string>): set<nat> {
    set i: nat | i < |lines| && IsFence(rt, lines[i])
  }

  lemma {:induction false} FenceCountIs(rt: Runtime, lines: seq<string>)
    ensures FenceCount(rt, lines) == |FenceLines(rt, lines)|
  {
    hide IsFence;
    if lines != [] {
      var n := |lines| - 1;
      var front := lines[..n];
      FenceCountIs(rt, front);
      FenceConcat(rt, front, [lines[n]]);
      assert lines == front + [lines[n]];
      assert FenceLines(rt, lines) == FenceLines(rt, front) + if IsFence(rt, lines[n]) then {n} else {};
    }
  }

  lemma {:induction false} FenceConcat(rt: Runtime, a: seq<string>, b: seq<string>)
    ensures FenceCount(rt, a + b) == FenceCount(rt, a) + FenceCount(rt, b)
  {
    if a == [] {
      assert a + b == b;
    } else {
      FenceConcat(rt, a[1..], b);
      assert (a + b)[1..] == a[1..] + b;
    }
  }

  lemma {:induction false} FenceStripLeft(rt: Runtime, s: string)
    ensures FenceCount(rt, Split(StripLeft(rt, s))) == FenceCount(rt, Split(s))
  {
    if s != "" && IsSpace(rt, s[0]) {
      FenceStripLeft(rt, s[1..]);
      var rest := Split(s[1..]);
      if s[0] == '\n' {
        assert ([""] + rest)[1..] == rest;
      } else {
        var l := [s[0]] + rest[0];
        assert l[1..] == rest[0];
        assert StripLeft(rt, l) == StripLeft(rt, rest[0]);
        assert Split(s)[1..] == rest[1..];
      }
    }
  }

  /** The lines of a text after one more character. */
  function Appended(ls: seq<string>, c: char): (r: seq<string>)
    requires ls != []
  {
    if c == '\n' then ls + [""] else ls[..|ls| - 1] + [ls[|ls| - 1] + [c]]
  }

  lemma {:induction false} JoinAppended(ls: seq<string>, c: char)
    requires ls != []
    ensures Join(Appended(ls, c)) == Join(ls) + [c]
  {
    if |ls| == 1 {
      assert Join([ls[0], ""]) == ls[0] + "\n" + Join([""]);
    } else {
      JoinAppended(ls[1..], c);
      var r := Appended(ls, c);
      assert r[0] == ls[0] && r[1..] == Appended(ls[1..], c);
      assert ls[0] + "\n" + (Join(ls[1..]) + [c]) == (ls[0] + "\n" + Join(ls[1..])) + [c];
    }
  }

  lemma {:induction false} SplitAppend(s: string, c: char)
    ensures Split(s + [c]) == Appended(Split(s), c)
  {
    hide Split, Join;
    JoinSplit(s);
    JoinAppended(Split(s), c);
    SplitJoin(Appended(Split(s), c));
  }

  lemma FenceLineDropRight(rt: Runtime, line: string, c: char)
    requires IsSpace(rt, c)
    ensures IsFence(rt, line + [c]) <==> IsFence(rt, line)
  {
    StripDropRight(rt, line, c);
    hide IsSpace, Strip;
  }

  lemma {:induction false} FenceDropRight(rt: Runtime, ls: seq<string>, c: char)
    requires ls != [] && IsSpace(rt, c)
    ensures FenceCount(rt, ls[..|ls| - 1] + [ls[|ls| - 1] + [c]]) == FenceCount(rt, ls)
  {
    hide IsSpace, IsFence;
    var changed := ls[..|ls| - 1] + [ls[|ls| - 1] + [c]];
    if |ls| == 1 {
      FenceLineDropRight(rt, ls[0], c);
    } else {
      FenceDropRight(rt, ls[1..], c);
      assert changed[0] == ls[0];
      assert changed[1..] == ls[1..][..|ls| - 2] + [ls[|ls| - 1] + [c]];
    }
  }

  lemma {:induction false} FenceStripRight(rt: Runtime, s: string)
    ensures FenceCount(rt, Split(StripRight(rt, s))) == FenceCount(rt, Split(s))
  {
    hide IsSpace, Split;
    if s != "" && IsSpace(rt, s[|s| - 1]) {
      var t, c := s[..|s| - 1], s[|s| - 1];
      FenceStripRight(rt, t);
      assert s == t + [c];
      SplitAppend(t, c);
      if c == '\n' {
        FenceConcat(rt, Split(t), [""]);
      } else {
        FenceDropRight(rt, Split(t), c);
      }
    }
  }

  /** Stripping a text neither adds nor removes a fence line. */
  lemma FenceStrip(rt: Runtime, s: string)
    ensures FenceCount(rt, Split(Strip(rt, s))) == FenceCount(rt, Split(s))
  {
    FenceStripLeft(rt, s);
    FenceStripRight(rt, StripLeft(rt, s));
  }
}
