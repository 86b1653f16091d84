/** JavaScript's whitespace: `trim`, splitting into words, and collapsing runs of blanks. */
module Whitespace {

  predicate IsBlank(c: char) {
    c in {' ', '\t', '\n', '\r', '\U{0b}', '\U{0c}', '\U{a0}', '\U{1680}', '\U{2028}', '\U{2029}',
          '\U{202f}', '\U{205f}', '\U{3000}', '\U{feff}'}
    || '\U{2000}' <= c <= '\U{200a}'
  }

  /** The blanks by code point: ECMAScript's white space and line terminators. */
  lemma BlankTable(c: char)
    ensures IsBlank(c) <==>
      || 9 <= c as int <= 13 || c as int == 32 || c as int == 160 || c as int == 0x1680
      || 0x2000 <= c as int <= 0x200a || c as int == 0x2028 || c as int == 0x2029
      || c as int == 0x202f || c as int == 0x205f || c as int == 0x3000 || c as int == 0xfeff
  {
  }

  predicate AllBlank(s: string) {
    forall i :: 0 <= i < |s| ==> IsBlank(s[i])
  }

  function TrimStart(s: string): string {
    if s != [] && IsBlank(s[0]) then TrimStart(s[1..]) else s
  }

  function TrimEnd(s: string): string {
    if s != [] && IsBlank(s[|s| - 1]) then TrimEnd(s[..|s| - 1]) else s
  }

  function Trim(s: string): string {
    TrimEnd(TrimStart(s))
  }

  /** `replace(/\s+/g, " ")`. */
  function Collapse(s: string): string
    decreases |s|
  {
    if s == [] then []
    else if IsBlank(s[0]) then
      TrimStartShorter(s);
      " " + Collapse(TrimStart(s))
    else [s[0]] + Collapse(s[1..])
  }

  lemma {:induction false} TrimStartShorter(s: string)
    ensures |TrimStart(s)| <= |s|
    ensures s != [] && IsBlank(s[0]) ==> |TrimStart(s)| < |s|
    ensures TrimStart(s) != [] ==> !IsBlank(TrimStart(s)[0])
    ensures TrimStart(s) == s[|s| - |TrimStart(s)|..]
  {
    if s != [] && IsBlank(s[0]) {
      TrimStartShorter(s[1..]);
    }
  }

  lemma {:induction false} TrimEndShorter(s: string)
    ensures |TrimEnd(s)| <= |s| && TrimEnd(s) == s[..|TrimEnd(s)|]
    ensures TrimEnd(s) != [] ==> !IsBlank(TrimEnd(s)[|TrimEnd(s)| - 1])
  {
    if s != [] && IsBlank(s[|s| - 1]) {
      TrimEndShorter(s[..|s| - 1]);
    }
  }

  /** Every character of the trimmed text is in the text. */
  lemma TrimKeepsChars(s: string, c: char)
    requires c in Trim(s)
    ensures c in s
  {
    TrimStartShorter(s);
    TrimEndShorter(TrimStart(s));
  }

  lemma TrimSolid(s: string)
    requires s == [] || (!IsBlank(s[0]) && !IsBlank(s[|s| - 1]))
    ensures Trim(s) == s
  {
  }

  /** Trimming leaves nothing exactly of blank text. */
  lemma TrimBlankIff(s: string)
    ensures Trim(s) == "" <==> AllBlank(s)
  {
    TrimStartBlankIff(s);
    TrimStartShorter(s);
    if TrimStart(s) != "" {
      TrimEndSome(TrimStart(s));
    }
  }

  lemma {:induction false} TrimStartBlankIff(s: string)
    ensures TrimStart(s) == "" <==> AllBlank(s)
  {
    if s != [] {
      TrimStartBlankIff(s[1..]);
      assert s == [s[0]] + s[1..];
    }
  }

  lemma {:induction false} TrimEndSome(s: string)
    requires s != "" && !IsBlank(s[0])
    ensures TrimEnd(s) != ""
  {
    if IsBlank(s[|s| - 1]) {
      TrimEndSome(s[..|s| - 1]);
    }
  }

  /** Trimming takes blanks off both ends, and all of them. */
  lemma TrimIs(s: string) returns (before: string, after: string)
    ensures AllBlank(before) && AllBlank(after) && s == before + Trim(s) + after
    ensures Trim(s) != "" ==> !IsBlank(Trim(s)[0]) && !IsBlank(Trim(s)[|Trim(s)| - 1])
  {
    var t := TrimStart(s);
    before := TrimStartTakes(s);
    after := TrimEndTakes(t);
    TrimStartShorter(s);
    TrimEndShorter(t);
    if Trim(s) != "" {
      assert Trim(s)[0] == t[0];
    }
    assert before + (Trim(s) + after) == before + Trim(s) + after;
  }

  lemma {:induction false} TrimStartTakes(s: string) returns (before: string)
    ensures AllBlank(before) && s == before + TrimStart(s)
  {
    before := "";
    if s != [] && IsBlank(s[0]) {
      before := TrimStartTakes(s[1..]);
      before := [s[0]] + before;
      assert s == [s[0]] + s[1..];
    }
  }

  lemma {:induction false} TrimEndTakes(s: string) returns (after: string)
    ensures AllBlank(after) && s == TrimEnd(s) + after
  {
    after := "";
    if s != [] && IsBlank(s[|s| - 1]) {
      after := TrimEndTakes(s[..|s| - 1]);
      after := after + [s[|s| - 1]];
      assert s == s[..|s| - 1] + [s[|s| - 1]];
    }
  }

  /** The maximal run of non-blank characters at the start. */
  function FirstWord(s: string): (w: string)
    ensures w <= s
    ensures forall i :: 0 <= i < |w| ==> !IsBlank(w[i])
    ensures |w| < |s| ==> IsBlank(s[|w|])
  {
    if s == [] || IsBlank(s[0]) then [] else [s[0]] + FirstWord(s[1..])
  }

  /** The words of a text, in order. */
  function Words(s: string): seq<string>
    decreases |s|
  {
    if s == [] then []
    else if IsBlank(s[0]) then Words(s[1..])
    else [FirstWord(s)] + Words(s[|FirstWord(s)|..])
  }

  function Join(parts: seq<string>): string {
    if parts == [] then ""
    else if |parts| == 1 then parts[0]
    else parts[0] + " " + Join(parts[1..])
  }

  lemma {:induction false} WordsTrimStart(s: string)
    ensures Words(TrimStart(s)) == Words(s)
  {
    if s != [] && IsBlank(s[0]) {
      WordsTrimStart(s[1..]);
    }
  }

  lemma {:induction false} FirstWordPrefix(a: string, b: string)
    requires a != [] && !IsBlank(a[0]) && b != [] && IsBlank(b[0])
    ensures FirstWord(a + b) == FirstWord(a)
  {
    if |a| > 1 && !IsBlank(a[1]) {
      FirstWordPrefix(a[1..], b);
      assert (a + b)[1..] == a[1..] + b;
    } else {
      assert |a| > 1 ==> (a + b)[1..][0] == a[1];
      assert |a| == 1 ==> (a + b)[1..] == b;
    }
  }

  /** A blank separates words. */
  lemma {:induction false} WordsAcrossBlank(a: string, b: string)
    requires b != [] && IsBlank(b[0])
    ensures Words(a + b) == Words(a) + Words(b)
    decreases |a|
  {
    if a == [] {
      assert a + b == b;
    } else if IsBlank(a[0]) {
      assert (a + b)[1..] == a[1..] + b;
      WordsAcrossBlank(a[1..], b);
    } else {
      FirstWordPrefix(a, b);
      var n := |FirstWord(a)|;
      assert (a + b)[n..] == a[n..] + b;
      WordsAcrossBlank(a[n..], b);
    }
  }

  lemma {:induction false} WordsTrimEnd(s: string)
    ensures Words(TrimEnd(s)) == Words(s)
  {
    if s != [] && IsBlank(s[|s| - 1]) {
      var n := |s| - 1;
      WordsTrimEnd(s[..n]);
      assert s == s[..n] + [s[n]];
      WordsAcrossBlank(s[..n], [s[n]]);
    }
  }

  lemma WordsTrim(s: string)
    ensures Words(Trim(s)) == Words(s)
  {
    WordsTrimStart(s);
    WordsTrimEnd(TrimStart(s));
  }

  lemma {:induction false} CollapseWord(s: string)
    ensures Collapse(s) == FirstWord(s) + Collapse(s[|FirstWord(s)|..])
  {
    if s != [] && !IsBlank(s[0]) {
      CollapseWord(s[1..]);
      assert s[|FirstWord(s)|..] == s[1..][|FirstWord(s[1..])|..];
    }
  }

  lemma {:induction false} TrimEndKeeps(a: string, b: string)
    requires b != [] && !IsBlank(b[0])
    ensures TrimEnd(a + b) == a + TrimEnd(b)
    decreases |b|
  {
    var n := |b| - 1;
    assert (a + b)[..|a + b| - 1] == a + b[..n];
    if IsBlank(b[n]) {
      TrimEndKeeps(a, b[..n]);
    }
  }

  lemma {:induction false} NoWordsAllBlank(s: string)
    ensures Words(s) == [] <==> TrimStart(s) == []
  {
    if s != [] && IsBlank(s[0]) {
      NoWordsAllBlank(s[1..]);
    }
  }

  /** A word, a run of blanks, and the rest. */
  lemma SplitWord(s: string, w: string, more: string)
    requires s != [] && !IsBlank(s[0]) && w == FirstWord(s) && |w| < |s| && more == TrimStart(s[|w|..])
    ensures |more| < |s| && (more != [] ==> !IsBlank(more[0]))
    ensures Words(s) == [w] + Words(more)
    ensures Collapse(s) == (w + " ") + Collapse(more)
  {
    hide IsBlank, Collapse, TrimStart, Words;
    var rest := s[|w|..];
    CollapseWord(s);
    TrimStartShorter(rest);
    WordsTrimStart(rest);
    CollapseBlank(rest);
    WordsUnfold(s);
  }

  lemma CollapseBlank(s: string)
    requires s != [] && IsBlank(s[0])
    ensures Collapse(s) == " " + Collapse(TrimStart(s))
  {
  }

  lemma WordsUnfold(s: string)
    requires s != [] && !IsBlank(s[0])
    ensures Words(s) == [FirstWord(s)] + Words(s[|FirstWord(s)|..])
  {
  }

  lemma WholeWord(s: string)
    requires s != [] && FirstWord(s) == s
    ensures Collapse(s) == s && Words(s) == [s] && TrimEnd(s) == s
  {
    CollapseWord(s);
    assert s[|s|..] == [];
  }

  /** Collapsing text that starts with a word, and trimming its end, leaves its words
      joined by single spaces. */
  lemma {:induction false} CollapseFromWord(s: string)
    requires s != [] && !IsBlank(s[0])
    ensures TrimEnd(Collapse(s)) == Join(Words(s)) && Collapse(s) != [] && Collapse(s)[0] == s[0]
    decreases |s|
  {
    var w := FirstWord(s);
    if |w| == |s| {
      WholeWord(s);
    } else {
      var more := TrimStart(s[|w|..]);
      SplitWord(s, w, more);
      hide IsBlank, Collapse, FirstWord;
      if more == [] {
        assert Collapse(more) == [] && Words(more) == [] by { CollapseNothing(); }
        assert Collapse(s) == w + " ";
        TrimOneBlank(w);
      } else {
        CollapseFromWord(more);
        TrimEndKeeps(w + " ", Collapse(more));
        assert Words(s)[1..] == Words(more) && Words(more) != [] by { SomeWords(more); }
      }
    }
  }

  lemma CollapseNothing()
    ensures Collapse([]) == [] && Words([]) == []
  {
  }

  lemma SomeWords(s: string)
    requires s != [] && !IsBlank(s[0])
    ensures Words(s) != []
  {
  }

  lemma TrimOneBlank(w: string)
    requires w != [] && !IsBlank(w[|w| - 1])
    ensures TrimEnd(w + " ") == w
  {
    assert (w + " ")[..|w|] == w;
  }

  /** Collapsing and trimming leaves the words of the text joined by single spaces. */
  lemma CollapsedIsWords(s: string)
    ensures Trim(Collapse(s)) == Join(Words(s))
  {
    TrimStartShorter(s);
    WordsTrimStart(s);
    NoWordsAllBlank(s);
    var t := TrimStart(s);
    if t != [] {
      CollapseFromWord(t);
      if s[0] == t[0] && s == t {
      } else {
        assert Collapse(s) == " " + Collapse(t);
        assert TrimStart(" " + Collapse(t)) == TrimStart(Collapse(t)) by {
          assert (" " + Collapse(t))[1..] == Collapse(t);
        }
      }
    } else if s != [] {
      assert Collapse(s) == " ";
    }
  }

  ghost predicate IsWord(w: string) {
    w != [] && forall i :: 0 <= i < |w| ==> !IsBlank(w[i])
  }

  lemma {:induction false} WordsAreWords(s: string)
    ensures forall i :: 0 <= i < |Words(s)| ==> IsWord(Words(s)[i])
    decreases |s|
  {
    if s != [] {
      if IsBlank(s[0]) {
        WordsAreWords(s[1..]);
      } else {
        WordsAreWords(s[|FirstWord(s)|..]);
      }
    }
  }

  lemma {:induction false} FirstWordOf(w: string)
    requires forall i :: 0 <= i < |w| ==> !IsBlank(w[i])
    ensures FirstWord(w) == w
  {
    if w != [] {
      FirstWordOf(w[1..]);
    }
  }

  lemma WordsOfWord(w: string)
    requires IsWord(w)
    ensures Words(w) == [w]
  {
    FirstWordOf(w);
    assert w[|w|..] == [];
  }

  /** Joined words split into the same words. */
  lemma {:induction false} WordsOfJoin(ws: seq<string>)
    requires forall i :: 0 <= i < |ws| ==> IsWord(ws[i])
    ensures Words(Join(ws)) == ws
  {
    if |ws| == 1 {
      WordsOfWord(ws[0]);
    } else if |ws| > 1 {
      WordsOfWord(ws[0]);
      WordsOfJoin(ws[1..]);
      var rest := " " + Join(ws[1..]);
      assert Join(ws) == ws[0] + rest;
      WordsAcrossBlank(ws[0], rest);
      assert rest[1..] == Join(ws[1..]);
      assert ws == [ws[0]] + ws[1..];
    }
  }

  function AllWords(lines: seq<string>): seq<string> {
    if lines == [] then [] else Words(lines[0]) + AllWords(lines[1..])
  }

  /** The words of joined lines are the words of the lines. */
  lemma {:induction false} WordsOfLines(lines: seq<string>)
    ensures Words(Join(lines)) == AllWords(lines)
  {
    if |lines| == 1 {
      assert AllWords(lines[1..]) == [];
    } else if |lines| > 1 {
      WordsOfLines(lines[1..]);
      var rest := " " + Join(lines[1..]);
      assert Join(lines) == lines[0] + rest;
      WordsAcrossBlank(lines[0], rest);
      assert rest[1..] == Join(lines[1..]);
    }
  }

  /** Joined words start and end with a non-blank and contain no line break. */
  lemma {:induction false} JoinSolid(ws: seq<string>)
    requires forall i :: 0 <= i < |ws| ==> IsWord(ws[i])
    ensures ws != [] ==> Join(ws) != [] && !IsBlank(Join(ws)[0]) && !IsBlank(Join(ws)[|Join(ws)| - 1])
    ensures '\n' !in Join(ws)
  {
    if |ws| > 1 {
      JoinSolid(ws[1..]);
    }
  }
}
