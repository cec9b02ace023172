/** `_clean_text_for_embedding`: whitespace is collapsed and long texts are cut. */
module Cleaning {
  import opened Text

  const MAX_CHARS: nat := 8000

  /** `re.sub(r'\s+', ' ', s)`. */
  function Collapse(s: string): string
    decreases |s|
  {
    if s == "" then ""
    else (if IsSpace(Python, s[0]) then " " else [s[0]]) + Collapse(Rest(s))
  }

  /** What follows the first match of `\s+`, or the first character when it is not whitespace. */
  function Rest(s: string): (r: string)
    requires s != ""
    ensures |r| < |s|
  {
    if IsSpace(Python, s[0]) then StripLeft(Python, s[1..]) else s[1..]
  }

  lemma RestShape(s: string)
    requires s != ""
    ensures var r := Rest(s);
            && (r != "" ==> r[|r| - 1] == s[|s| - 1])
            && (r == "" && |s| > 1 ==> IsSpace(Python, s[|s| - 1]))
            && (r != "" && IsSpace(Python, s[0]) ==> !IsSpace(Python, r[0]))
  {
    hide IsSpace, StripLeft;
    if IsSpace(Python, s[0]) {
      var spaces := StripLeftShape(Python, s[1..]);
      if |s| > 1 {
        assert s[|s| - 1] == s[1..][|s| - 2];
      }
    }
  }

  function Clean(text: string): string {
    var t := Collapse(Strip(Python, text));
    if |t| > MAX_CHARS then t[..MAX_CHARS] + "..." else t
  }

  /** The only whitespace is single blanks between other characters. */
  ghost predicate Tidy(s: string) {
    && (s != "" ==> !IsSpace(Python, s[0]) && !IsSpace(Python, s[|s| - 1]))
    && Single(s)
  }

  ghost predicate Single(s: string) {
    && (forall i :: 0 <= i < |s| && IsSpace(Python, s[i]) ==> s[i] == ' ')
    && (forall i, j :: 0 <= i < j < |s| && j == i + 1 && s[i] == ' ' ==> s[j] != ' ')
  }

  lemma SingleCons(c: char, s: string)
    requires Single(s)
    requires IsSpace(Python, c) ==> c == ' ' && (s != "" ==> s[0] != ' ')
    ensures Single([c] + s)
  {
    hide IsSpace;
    var t := [c] + s;
    forall i, j | 0 <= i < j < |t| && j == i + 1 && t[i] == ' ' ensures t[j] != ' ' {
      assert t[j] == s[j - 1];
      if i > 0 { assert t[i] == s[i - 1]; }
      assert ' ' == ' ' ==> IsSpace(Python, ' ') by { BlankIsSpace(); }
    }
  }

  lemma BlankIsSpace()
    ensures IsSpace(Python, ' ') && !IsSpace(Python, '.')
  {
  }

  /** Collapsing leaves single blanks and keeps whether the text begins and ends with whitespace. */
  lemma {:induction false} CollapseSingle(s: string)
    ensures var r := Collapse(s);
            && Single(r) && (r == "" <==> s == "")
            && (s != "" ==> (IsSpace(Python, r[0]) <==> IsSpace(Python, s[0])))
            && (s != "" && !IsSpace(Python, s[|s| - 1]) ==> !IsSpace(Python, r[|r| - 1]))
    decreases |s|
  {
    hide IsSpace, Rest, Single;
    BlankIsSpace();
    if s == "" {
      NothingSingle();
    } else {
      RestShape(s);
      CollapseSingle(Rest(s));
      var first := if IsSpace(Python, s[0]) then ' ' else s[0];
      var more := Collapse(Rest(s));
      SingleCons(first, more);
      assert Collapse(s) == [first] + more;
    }
  }

  lemma NothingSingle()
    ensures Single("")
  {
  }

  lemma {:induction false} CollapseFixed(s: string)
    requires Single(s)
    ensures Collapse(s) == s
  {
    hide IsSpace;
    if s != "" {
      assert s == [s[0]] + s[1..];
      forall i, j | 0 <= i < j < |s[1..]| && j == i + 1 && s[1..][i] == ' ' ensures s[1..][j] != ' ' {
        assert s[i + 1] == ' ' && s[j + 1] == s[1..][j];
      }
      CollapseFixed(s[1..]);
      if IsSpace(Python, s[0]) && |s| > 1 {
        assert s[1..][0] == s[1] != ' ';
        assert StripLeft(Python, s[1..]) == s[1..] == Rest(s);
      }
    }
  }

  lemma TidyTruncated(t: string)
    requires Tidy(t) && |t| > MAX_CHARS
    ensures Tidy(t[..MAX_CHARS] + "...")
  {
    BlankIsSpace();
    hide IsSpace;
    var r := t[..MAX_CHARS] + "...";
    forall i | 0 <= i < |r| ensures r[i] == if i < MAX_CHARS then t[i] else '.' {}
  }

  lemma TidyFixed(t: string)
    requires Tidy(t) && |t| <= MAX_CHARS
    ensures Clean(t) == t
  {
    StripFixed(Python, t);
    CollapseFixed(t);
  }

  lemma TidyCollapsed(text: string)
    ensures Tidy(Collapse(Strip(Python, text)))
  {
    var pre, post := StripShape(Python, text);
    hide IsSpace, Strip;
    CollapseSingle(Strip(Python, text));
  }

  /** A cleaned text is tidy, at most 8003 characters long, and cleaning it again changes nothing,
      whether or not it was cut. */
  lemma CleanContract(text: string)
    ensures var r := Clean(text);
            Tidy(r) && |r| <= 8003 && Clean(r) == r
  {
    var t := Collapse(Strip(Python, text));
    var r := Clean(text);
    TidyCollapsed(text);
    hide IsSpace, Strip, Collapse;
    if |t| > MAX_CHARS {
      TidyTruncated(t);
      TidyIsOwnCollapse(r);
      assert r[..MAX_CHARS] == t[..MAX_CHARS];
    } else {
      TidyFixed(t);
    }
  }

  lemma TidyIsOwnCollapse(t: string)
    requires Tidy(t)
    ensures Collapse(Strip(Python, t)) == t
  {
    StripFixed(Python, t);
    CollapseFixed(t);
  }

  // ----- the words of the text -----

  /** `s.split()`: the maximal runs of characters that are not whitespace. */
  function Words(s: string): seq<string>
    decreases |s|
  {
    if s == "" then []
    else if IsSpace(Python, s[0]) then Words(s[1..])
    else var n := WordLength(s); [s[..n]] + Words(s[n..])
  }

  function WordLength(s: string): (n: nat)
    ensures n <= |s| && (s != "" && !IsSpace(Python, s[0]) ==> n > 0)
    ensures forall i :: 0 <= i < n ==> !IsSpace(Python, s[i])
    ensures n < |s| ==> IsSpace(Python, s[n])
  {
    if s == "" || IsSpace(Python, s[0]) then 0 else 1 + WordLength(s[1..])
  }

  /** `' '.join(words)`. */
  function Spaced(words: seq<string>): string {
    if |words| == 0 then "" else if |words| == 1 then words[0] else words[0] + " " + Spaced(words[1..])
  }

  lemma {:induction false} WordsStripLeft(s: string)
    ensures Words(StripLeft(Python, s)) == Words(s)
  {
    hide IsSpace;
    if s != "" && IsSpace(Python, s[0]) {
      WordsStripLeft(s[1..]);
    }
  }

  lemma {:induction false} WordLengthAppend(s: string, c: char)
    requires IsSpace(Python, c)
    ensures WordLength(s + [c]) == WordLength(s)
  {
    hide IsSpace;
    if s == "" {
      assert s + [c] == [c];
    } else {
      assert (s + [c])[1..] == s[1..] + [c];
      if !IsSpace(Python, s[0]) { WordLengthAppend(s[1..], c); }
    }
  }

  lemma {:induction false} WordsAppend(s: string, c: char)
    requires IsSpace(Python, c)
    ensures Words(s + [c]) == Words(s)
    decreases |s|
  {
    hide IsSpace, WordLength;
    if s == "" {
      assert s + [c] == [c];
      assert [c][1..] == "";
    } else if IsSpace(Python, s[0]) {
      assert (s + [c])[1..] == s[1..] + [c];
      WordsAppend(s[1..], c);
    } else {
      var n := WordLength(s);
      WordLengthAppend(s, c);
      assert (s + [c])[..n] == s[..n] && (s + [c])[n..] == s[n..] + [c];
      WordsAppend(s[n..], c);
    }
  }

  lemma {:induction false} WordsStripRight(s: string)
    ensures Words(StripRight(Python, s)) == Words(s)
  {
    hide IsSpace, Words;
    if s != "" && IsSpace(Python, s[|s| - 1]) {
      WordsStripRight(s[..|s| - 1]);
      WordsAppend(s[..|s| - 1], s[|s| - 1]);
      assert s == s[..|s| - 1] + [s[|s| - 1]];
    }
  }

  lemma {:induction false} CollapseWord(s: string, n: nat)
    requires n <= |s| && forall i :: 0 <= i < n ==> !IsSpace(Python, s[i])
    ensures Collapse(s) == s[..n] + Collapse(s[n..])
  {
    hide IsSpace;
    if n == 0 {
      assert s[0..] == s;
    } else {
      CollapseWord(s[1..], n - 1);
      assert s[1..][n - 1..] == s[n..];
      assert [s[0]] + s[1..][..n - 1] == s[..n];
      ConcatAssociates([s[0]], s[1..][..n - 1], Collapse(s[n..]));
    }
  }

  lemma {:induction false} CollapseIsSpaced(s: string)
    requires s != "" ==> !IsSpace(Python, s[0]) && !IsSpace(Python, s[|s| - 1])
    ensures Collapse(s) == Spaced(Words(s))
    decreases |s|
  {
    hide IsSpace, WordLength, Rest;
    if s != "" {
      var n := WordLength(s);
      CollapseWord(s, n);
      var rest := s[n..];
      if rest == "" {
        assert s[..n] == s;
      } else {
        var next := Rest(rest);
        RestShape(rest);
        assert rest[|rest| - 1] == s[|s| - 1];
        CollapseIsSpaced(next);
        WordsRest(rest);
        SpacedCons(s[..n], Words(next));
        assert s[..n] + (" " + Collapse(next)) == s[..n] + " " + Collapse(next);
      }
    }
  }

  lemma WordsRest(s: string)
    requires s != "" && IsSpace(Python, s[0])
    ensures Words(s) == Words(Rest(s)) && (Rest(s) != "" ==> Words(Rest(s)) != [])
  {
    RestShape(s);
    WordsStripLeft(s[1..]);
    hide IsSpace, StripLeft;
  }

  lemma SpacedCons(word: string, words: seq<string>)
    requires words != []
    ensures Spaced([word] + words) == word + " " + Spaced(words)
  {
  }

  /** Before it is cut at 8000 characters, the cleaned text is the words of the input joined by single blanks; so no
      word is lost, split, merged or moved. */
  lemma CleanKeepsWords(text: string)
    ensures var t := Spaced(Words(text));
            Clean(text) == if |t| > 8000 then t[..8000] + "..." else t
  {
    var pre, post := StripShape(Python, text);
    hide IsSpace;
    CollapseIsSpaced(Strip(Python, text));
    WordsStripRight(StripLeft(Python, text));
    WordsStripLeft(text);
  }
}
