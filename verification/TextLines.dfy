/**
 * The string and file operations of Python that utils/check-style-clang-format.py relies on: reading a text
 * file as lines with universal newlines, writing lines back, stripping and tab expansion.
 */
module TextLines {

  const TAB_SIZE := 4

  /** str.isspace for a single character. */
  predicate IsSpace(c: char) {
    || c == ' ' || '\t' <= c <= '\r' || '\U{1C}' <= c <= '\U{1F}' || c == '\U{85}' || c == '\U{A0}'
    || c == '\U{1680}' || '\U{2000}' <= c <= '\U{200A}' || c == '\U{2028}' || c == '\U{2029}'
    || c == '\U{202F}' || c == '\U{205F}' || c == '\U{3000}'
  }

  /** The code points of whitespace. */
  lemma SpaceIs(c: char)
    ensures IsSpace(c) <==>
            || c as int in {9, 10, 11, 12, 13, 28, 29, 30, 31, 32, 133, 160, 5760, 8232, 8233, 8239, 8287, 12288}
            || 8192 <= c as int <= 8202
  {
  }

  predicate AllSpace(s: string) {
    forall i :: 0 <= i < |s| ==> IsSpace(s[i])
  }

  function RStrip(s: string): string {
    if s != "" && IsSpace(s[|s| - 1]) then RStrip(s[..|s| - 1]) else s
  }

  function LStrip(s: string): string {
    if s != "" && IsSpace(s[0]) then LStrip(s[1..]) else s
  }

  function Strip(s: string): string {
    LStrip(RStrip(s))
  }

  function Blanks(n: nat): string {
    if n == 0 then "" else " " + Blanks(n - 1)
  }

  /** The column after one character; a tab goes on to the next multiple of TAB_SIZE. */
  function NextColumn(c: char, column: nat): nat {
    if c == '\t' then column + (TAB_SIZE - column % TAB_SIZE) else if c == '\n' || c == '\r' then 0 else column + 1
  }

  function ExpandChar(c: char, column: nat): string {
    if c == '\t' then Blanks(TAB_SIZE - column % TAB_SIZE) else [c]
  }

  /** str.expandtabs(TAB_SIZE) of a text that starts in column `column`. */
  function ExpandFrom(s: string, column: nat): string {
    if s == "" then "" else ExpandChar(s[0], column) + ExpandFrom(s[1..], NextColumn(s[0], column))
  }

  function Expand(s: string): string {
    ExpandFrom(s, 0)
  }

  // ----- files as lines -----

  /** What reading in text mode does to line endings. */
  function Universal(content: string): string {
    if content == "" then ""
    else if content[0] == '\r' then
      "\n" + Universal(if |content| > 1 && content[1] == '\n' then content[2..] else content[1..])
    else [content[0]] + Universal(content[1..])
  }

  function SplitLines(text: string): seq<string> {
    if text == "" then []
    else
      var rest := SplitLines(text[1..]);
      if text[0] == '\n' || rest == [] then [[text[0]]] + rest else [[text[0]] + rest[0]] + rest[1..]
  }

  function ReadLines(content: string): seq<string> {
    SplitLines(Universal(content))
  }

  function WriteLines(lines: seq<string>): string {
    if lines == [] then "" else lines[0] + WriteLines(lines[1..])
  }

  /** A line as read: not empty, no carriage return, and a newline only at its end. */
  predicate IsLine(line: string) {
    line != "" && '\r' !in line && '\n' !in line[..|line| - 1]
  }

  predicate EndsLine(line: string) {
    line != "" && line[|line| - 1] == '\n'
  }

  /** Lines as read from a file: only the last may lack its newline. */
  predicate AreLines(lines: seq<string>) {
    && (forall i :: 0 <= i < |lines| ==> IsLine(lines[i]))
    && (forall i :: 0 <= i < |lines| - 1 ==> EndsLine(lines[i]))
  }

  lemma {:induction false} UniversalHasNoReturn(content: string)
    ensures '\r' !in Universal(content)
    decreases |content|
  {
    if content != "" {
      UniversalHasNoReturn(content[1..]);
      if |content| > 1 {
        UniversalHasNoReturn(content[2..]);
      }
    }
  }

  lemma {:induction false} UniversalIdentity(content: string)
    requires '\r' !in content
    ensures Universal(content) == content
  {
    if content != "" {
      UniversalIdentity(content[1..]);
    }
  }

  lemma LongerLine(c: char, line: string)
    requires IsLine(line) && c != '\n' && c != '\r'
    ensures IsLine([c] + line) && (EndsLine(line) ==> EndsLine([c] + line))
  {
    assert ([c] + line)[..|line|] == [c] + line[..|line| - 1];
  }

  lemma {:induction false} SplitAreLines(text: string)
    requires '\r' !in text
    ensures AreLines(SplitLines(text))
  {
    if text != "" {
      SplitAreLines(text[1..]);
      var rest := SplitLines(text[1..]);
      if text[0] != '\n' && rest != [] {
        LongerLine(text[0], rest[0]);
      }
    }
  }

  lemma ReadAreLines(content: string)
    ensures AreLines(ReadLines(content))
  {
    UniversalHasNoReturn(content);
    SplitAreLines(Universal(content));
  }

  lemma {:induction false} SplitFirst(line: string, rest: string)
    requires IsLine(line) && (EndsLine(line) || rest == "")
    ensures SplitLines(line + rest) == [line] + SplitLines(rest)
  {
    var text := line + rest;
    if |line| == 1 {
      assert text[1..] == rest;
      assert [text[0]] == line;
    } else {
      var tail := line[1..];
      assert tail[..|tail| - 1] == line[..|line| - 1][1..];
      assert text[1..] == tail + rest;
      assert line[0] == line[..|line| - 1][0];
      SplitFirst(tail, rest);
      assert [line[0]] + tail == line;
    }
  }

  lemma {:induction false} WrittenHasNoReturn(lines: seq<string>)
    requires forall i :: 0 <= i < |lines| ==> '\r' !in lines[i]
    ensures '\r' !in WriteLines(lines)
  {
    if lines != [] {
      WrittenHasNoReturn(lines[1..]);
    }
  }

  lemma {:induction false} SplitWritten(lines: seq<string>)
    requires AreLines(lines)
    ensures SplitLines(WriteLines(lines)) == lines
  {
    if lines != [] {
      SplitWritten(lines[1..]);
      SplitFirst(lines[0], WriteLines(lines[1..]));
    }
  }

  lemma UniversalPair(rest: string)
    ensures Universal(['\r', '\n'] + rest) == ['\n'] + Universal(rest)
  {
    assert (['\r', '\n'] + rest)[2..] == rest;
  }

  lemma UniversalOne(c: char, rest: string)
    requires c == '\r' ==> rest == "" || rest[0] != '\n'
    ensures Universal([c] + rest) == [if c == '\r' then '\n' else c] + Universal(rest)
  {
    assert ([c] + rest)[1..] == rest;
  }

  lemma AppendPair(rest: string, b: string)
    requires Universal(rest + b) == Universal(rest) + Universal(b)
    ensures Universal(['\r', '\n'] + rest + b) == Universal(['\r', '\n'] + rest) + Universal(b)
  {
    UniversalPair(rest);
    UniversalPair(rest + b);
    Associate(['\r', '\n'], rest, b);
    Associate(['\n'], Universal(rest), Universal(b));
  }

  lemma AppendOne(c: char, rest: string, b: string)
    requires c == '\r' ==> (rest == "" || rest[0] != '\n') && (rest + b == "" || (rest + b)[0] != '\n')
    requires Universal(rest + b) == Universal(rest) + Universal(b)
    ensures Universal([c] + rest + b) == Universal([c] + rest) + Universal(b)
  {
    var first := if c == '\r' then '\n' else c;
    UniversalOne(c, rest);
    UniversalOne(c, rest + b);
    Associate([c], rest, b);
    Associate([first], Universal(rest), Universal(b));
  }

  lemma Associate<T>(a: seq<T>, b: seq<T>, c: seq<T>)
    ensures a + b + c == a + (b + c)
  {
  }

  /** Text is translated piece by piece, unless a line ending of two characters is torn apart. */
  lemma {:induction false} UniversalAppend(a: string, b: string)
    requires a != "" && a[|a| - 1] == '\r' ==> b == "" || b[0] != '\n'
    ensures Universal(a + b) == Universal(a) + Universal(b)
    decreases |a|
  {
    if a == "" {
      assert a + b == b;
    } else if a[0] == '\r' && |a| > 1 && a[1] == '\n' {
      var rest := a[2..];
      UniversalAppend(rest, b);
      AppendPair(rest, b);
      assert a == ['\r', '\n'] + rest;
    } else {
      var rest := a[1..];
      UniversalAppend(rest, b);
      AppendOne(a[0], rest, b);
      assert a == [a[0]] + rest;
    }
  }

  /** Every kind of line ending is read as a newline, and every other character as itself. */
  lemma UniversalEndings(c: char)
    ensures Universal("\r\n") == Universal("\r") == Universal("\n") == "\n"
    ensures c != '\r' ==> Universal([c]) == [c]
  {
    assert Universal("") == "";
    assert "\r\n"[2..] == "" && "\r"[1..] == "" && "\n"[1..] == "" && [c][1..] == "";
  }

  lemma {:induction false} SplitJoins(text: string)
    ensures WriteLines(SplitLines(text)) == text
  {
    if text != "" {
      SplitJoins(text[1..]);
      var rest := SplitLines(text[1..]);
      if text[0] == '\n' || rest == [] {
        assert ([[text[0]]] + rest)[1..] == rest;
      } else {
        assert ([[text[0]] + rest[0]] + rest[1..])[1..] == rest[1..];
      }
    }
  }

  /** The lines of a file are all of its text, apart from the kind of line ending. */
  lemma ReadKeepsText(content: string)
    ensures WriteLines(ReadLines(content)) == Universal(content) && AreLines(ReadLines(content))
  {
    SplitJoins(Universal(content));
    ReadAreLines(content);
  }

  /** Lines written to a file are read back unchanged. */
  lemma ReadWritten(lines: seq<string>)
    requires AreLines(lines)
    ensures ReadLines(WriteLines(lines)) == lines
  {
    WrittenHasNoReturn(lines);
    UniversalIdentity(WriteLines(lines));
    SplitWritten(lines);
  }

  // ----- stripping -----

  lemma {:induction false} RStripSplits(s: string)
    ensures RStrip(s) <= s && AllSpace(s[|RStrip(s)|..])
    ensures RStrip(s) != "" ==> !IsSpace(RStrip(s)[|RStrip(s)| - 1])
  {
    if s != "" && IsSpace(s[|s| - 1]) {
      var init := s[..|s| - 1];
      RStripSplits(init);
      assert s[|RStrip(s)|..] == init[|RStrip(s)|..] + [s[|s| - 1]];
    }
  }

  lemma {:induction false} RStripOf(core: string, spaces: string)
    requires AllSpace(spaces) && (core != "" ==> !IsSpace(core[|core| - 1]))
    ensures RStrip(core + spaces) == core
  {
    if spaces == "" {
      assert core + spaces == core;
    } else {
      var init := spaces[..|spaces| - 1];
      assert (core + spaces)[..|core + spaces| - 1] == core + init;
      RStripOf(core, init);
    }
  }

  /** How many characters are stripped from the front. */
  lemma {:induction false} LStripSplits(s: string) returns (n: nat)
    ensures n <= |s| && LStrip(s) == s[n..] && AllSpace(s[..n])
    ensures n < |s| ==> !IsSpace(s[n])
  {
    if s != "" && IsSpace(s[0]) {
      var m := LStripSplits(s[1..]);
      n := m + 1;
      MoreSpace(s, n);
      assert s[1..][m..] == s[n..];
    } else {
      n := 0;
    }
  }

  lemma MoreSpace(s: string, n: nat)
    requires 0 < n <= |s| && IsSpace(s[0]) && AllSpace(s[1..][..n - 1])
    ensures AllSpace(s[..n])
  {
    assert s[..n] == [s[0]] + s[1..][..n - 1];
  }

  lemma {:induction false} LStripOf(spaces: string, core: string)
    requires AllSpace(spaces) && (core != "" ==> !IsSpace(core[0]))
    ensures LStrip(spaces + core) == core
  {
    if spaces == "" {
      assert spaces + core == core;
    } else {
      assert (spaces + core)[1..] == spaces[1..] + core;
      LStripOf(spaces[1..], core);
    }
  }

  /** A text is its stripped text between two runs of whitespace. */
  lemma StripSplits(s: string) returns (before: string, after: string)
    ensures s == before + Strip(s) + after && AllSpace(before) && AllSpace(after)
  {
    RStripSplits(s);
    var n := LStripSplits(RStrip(s));
    before := RStrip(s)[..n];
    after := s[|RStrip(s)|..];
  }

  lemma StripOf(before: string, core: string, after: string)
    requires AllSpace(before) && AllSpace(after)
    requires core != "" && !IsSpace(core[0]) && !IsSpace(core[|core| - 1])
    ensures Strip(before + core + after) == core
  {
    assert before + core + after == (before + core) + after;
    RStripOf(before + core, after);
    LStripOf(before, core);
  }

  // ----- tab expansion -----

  /** The column reached after `s`, starting in `column`. */
  function ColumnAfter(s: string, column: nat): nat {
    if s == "" then column else ColumnAfter(s[1..], NextColumn(s[0], column))
  }

  lemma {:induction false} ExpandAppend(s: string, t: string, column: nat)
    ensures ExpandFrom(s + t, column) == ExpandFrom(s, column) + ExpandFrom(t, ColumnAfter(s, column))
    decreases |s|
  {
    if s == "" {
      assert s + t == t;
    } else {
      assert (s + t)[1..] == s[1..] + t;
      ExpandAppend(s[1..], t, NextColumn(s[0], column));
    }
  }

  lemma {:induction false} ExpandWithoutTabs(s: string, column: nat)
    requires '\t' !in s
    ensures ExpandFrom(s, column) == s
    decreases |s|
  {
    if s != "" {
      ExpandWithoutTabs(s[1..], NextColumn(s[0], column));
    }
  }

  lemma {:induction false} BlanksAre(n: nat)
    ensures |Blanks(n)| == n && forall i :: 0 <= i < n ==> Blanks(n)[i] == ' '
  {
    if n > 0 {
      BlanksAre(n - 1);
    }
  }

  lemma ExpandCharIs(c: char, column: nat)
    ensures |ExpandChar(c, column)| >= 1 && '\t' !in ExpandChar(c, column)
    ensures forall x :: x in ExpandChar(c, column) ==> x == ' ' || x == c
    ensures c != '\n' && c != '\r' ==> |ExpandChar(c, column)| == NextColumn(c, column) - column
  {
    if c == '\t' {
      BlanksAre(TAB_SIZE - column % TAB_SIZE);
    }
  }

  /** The result has no tabs, and only characters of the text and spaces. */
  lemma {:induction false} ExpandCharacters(s: string, column: nat)
    ensures '\t' !in ExpandFrom(s, column) && |ExpandFrom(s, column)| >= |s|
    ensures forall c :: c in ExpandFrom(s, column) ==> c == ' ' || c in s
    decreases |s|
  {
    if s != "" {
      ExpandCharIs(s[0], column);
      ExpandCharacters(s[1..], NextColumn(s[0], column));
    }
  }

  lemma ExpandSpaces(s: string, column: nat)
    requires AllSpace(s)
    ensures AllSpace(ExpandFrom(s, column))
  {
    ExpandCharacters(s, column);
    forall i | 0 <= i < |ExpandFrom(s, column)|
      ensures IsSpace(ExpandFrom(s, column)[i])
    {
      var c := ExpandFrom(s, column)[i];
      assert c in ExpandFrom(s, column);
      if c != ' ' {
        var k :| 0 <= k < |s| && s[k] == c;
      }
    }
  }

  /** Expansion keeps the last character of a text that does not end in a tab. */
  lemma ExpandLast(s: string, c: char)
    requires c != '\t'
    ensures Expand(s + [c]) == Expand(s) + [c]
  {
    ExpandAppend(s, [c], 0);
    ExpandWithoutTabs([c], ColumnAfter(s, 0));
  }

  /** A tab goes on to the next column that is a multiple of four, and is replaced by spaces. */
  lemma ExpandTab(s: string)
    requires '\n' !in s && '\r' !in s
    ensures var before, after := Expand(s), Expand(s + "\t");
            && |before| < |after| <= |before| + 4 && |after| % 4 == 0 && after[..|before|] == before
            && forall i :: |before| <= i < |after| ==> after[i] == ' '
  {
    var column := ColumnAfter(s, 0);
    ExpandAppend(s, "\t", 0);
    ExpandWidth(s, 0);
    BlanksAre(TAB_SIZE - column % TAB_SIZE);
    var tail := "\t";
    assert tail[1..] == "";
    assert ExpandFrom(tail, column) == Blanks(TAB_SIZE - column % TAB_SIZE);
  }

  /** After the end of a line the columns start again. */
  lemma ExpandAfterBreak(s: string, c: char, t: string)
    requires c == '\n' || c == '\r'
    ensures Expand(s + [c] + t) == Expand(s) + [c] + Expand(t)
  {
    ExpandAppend(s + [c], t, 0);
    ExpandLast(s, c);
    ColumnAfterBreak(s, c, 0);
  }

  lemma {:induction false} ColumnAfterBreak(s: string, c: char, column: nat)
    requires c == '\n' || c == '\r'
    ensures ColumnAfter(s + [c], column) == 0
    decreases |s|
  {
    if s == "" {
      assert (s + [c])[1..] == "";
    } else {
      assert (s + [c])[1..] == s[1..] + [c];
      ColumnAfterBreak(s[1..], c, NextColumn(s[0], column));
    }
  }

  lemma {:induction false} ExpandWidth(s: string, column: nat)
    requires '\n' !in s && '\r' !in s
    ensures |ExpandFrom(s, column)| == ColumnAfter(s, column) - column
    decreases |s|
  {
    if s != "" {
      ExpandCharIs(s[0], column);
      ExpandWidth(s[1..], NextColumn(s[0], column));
    }
  }

  /** Expansion moves nothing on the screen: a character stands at the column where it was displayed. */
  lemma ExpandKeepsColumn(s: string, k: nat)
    requires k < |s| && s[k] != '\t' && '\n' !in s[..k] && '\r' !in s[..k]
    ensures ColumnAfter(s[..k], 0) < |Expand(s)| && Expand(s)[ColumnAfter(s[..k], 0)] == s[k]
  {
    assert s == s[..k] + s[k..];
    ExpandAppend(s[..k], s[k..], 0);
    ExpandWidth(s[..k], 0);
    assert ExpandFrom(s[k..], ColumnAfter(s[..k], 0))[0] == s[k];
  }

  /** The characters that are neither spaces nor tabs. */
  function Ink(s: string): string {
    if s == "" then "" else (if s[0] == ' ' || s[0] == '\t' then "" else [s[0]]) + Ink(s[1..])
  }

  lemma {:induction false} InkAppend(s: string, t: string)
    ensures Ink(s + t) == Ink(s) + Ink(t)
  {
    if s == "" {
      assert s + t == t;
    } else {
      assert (s + t)[1..] == s[1..] + t;
      InkAppend(s[1..], t);
    }
  }

  lemma {:induction false} InkOfBlanks(n: nat)
    ensures Ink(Blanks(n)) == ""
  {
    if n > 0 {
      InkOfBlanks(n - 1);
    }
  }

  lemma InkOfExpanded(c: char, column: nat)
    ensures Ink(ExpandChar(c, column)) == Ink([c])
  {
    if c == '\t' {
      InkOfBlanks(TAB_SIZE - column % TAB_SIZE);
    }
  }

  /** Expansion neither adds, drops nor reorders anything but blanks. */
  lemma {:induction false} ExpandKeepsInk(s: string, column: nat)
    ensures Ink(ExpandFrom(s, column)) == Ink(s)
    decreases |s|
  {
    if s != "" {
      var next := NextColumn(s[0], column);
      ExpandKeepsInk(s[1..], next);
      InkOfExpanded(s[0], column);
      InkAppend(ExpandChar(s[0], column), ExpandFrom(s[1..], next));
      InkAppend([s[0]], s[1..]);
      assert s == [s[0]] + s[1..];
    }
  }

  // ----- the visible text -----

  /** The characters that are not whitespace. */
  function Solid(s: string): string {
    if s == "" then "" else (if IsSpace(s[0]) then "" else [s[0]]) + Solid(s[1..])
  }

  lemma {:induction false} SolidAppend(s: string, t: string)
    ensures Solid(s + t) == Solid(s) + Solid(t)
  {
    if s == "" {
      assert s + t == t;
    } else {
      assert (s + t)[1..] == s[1..] + t;
      SolidAppend(s[1..], t);
    }
  }

  lemma {:induction false} SolidOfSpaces(s: string)
    requires AllSpace(s)
    ensures Solid(s) == ""
  {
    if s != "" {
      SolidOfSpaces(s[1..]);
    }
  }

  lemma {:induction false} SolidOfInk(s: string)
    ensures Solid(Ink(s)) == Solid(s)
  {
    if s != "" {
      SolidOfInk(s[1..]);
      var first := if s[0] == ' ' || s[0] == '\t' then "" else [s[0]];
      SolidAppend(first, Ink(s[1..]));
      FirstSolid(s[0], first);
    }
  }

  lemma FirstSolid(c: char, first: string)
    requires first == if c == ' ' || c == '\t' then "" else [c]
    ensures Solid(first) == if IsSpace(c) then "" else [c]
  {
    assert [c][1..] == "";
  }

  lemma ExpandKeepsSolid(s: string)
    ensures Solid(Expand(s)) == Solid(s)
  {
    ExpandKeepsInk(s, 0);
    SolidOfInk(Expand(s));
    SolidOfInk(s);
  }
}
