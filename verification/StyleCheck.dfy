/**
 * The tab and trailing-whitespace passes of utils/check-style-clang-format.py, in check mode and in fix mode,
 * over files on disk. Formatting by clang-format itself is not modelled (the --no-formatting runs).
 */
module StyleCheck {
  import opened TextLines

  const GUARD_ON := "// clang-format on"
  const GUARD_OFF := "// clang-format off"

  datatype Guard = On | Off | NoGuard

  function GuardOf(line: string): Guard {
    var stripped := Strip(line);
    if stripped == GUARD_ON then On else if stripped == GUARD_OFF then Off else NoGuard
  }

  function Guards(lines: seq<string>): (guards: seq<Guard>)
    ensures |guards| == |lines|
  {
    if lines == [] then [] else [GuardOf(lines[0])] + Guards(lines[1..])
  }

  lemma {:induction false} GuardsAt(lines: seq<string>, i: nat)
    requires i < |lines|
    ensures Guards(lines)[i] == GuardOf(lines[i])
  {
    if i > 0 {
      GuardsAt(lines[1..], i - 1);
    }
  }

  /** Whether formatting is enabled once the first `n` lines have been seen. */
  function EnabledAfter(guards: seq<Guard>, n: nat): bool
    requires n <= |guards|
  {
    if n == 0 then true
    else match guards[n - 1]
      case On => true
      case Off => false
      case NoGuard => EnabledAfter(guards, n - 1)
  }

  /** Line `i` is examined for tabs: formatting is enabled there, or it is a guard itself. */
  predicate Examined(guards: seq<Guard>, i: nat)
    requires i < |guards|
  {
    EnabledAfter(guards, i + 1) || guards[i] != NoGuard
  }

  /** Line `i` is reported, and in fix mode expanded. */
  predicate Flagged(lines: seq<string>, i: nat)
    requires i < |lines|
  {
    Examined(Guards(lines), i) && '\t' in lines[i]
  }

  predicate HasTabs(lines: seq<string>) {
    exists i :: 0 <= i < |lines| && Flagged(lines, i)
  }

  /** What a fix run makes of line `i`. */
  function NewLine(lines: seq<string>, i: nat): string
    requires i < |lines|
  {
    if Flagged(lines, i) then Expand(lines[i]) else lines[i]
  }

  /** The first `n` lines after a fix run. */
  function FixedUpTo(lines: seq<string>, n: nat): (fixed: seq<string>)
    requires n <= |lines|
    ensures |fixed| == n
  {
    if n == 0 then [] else FixedUpTo(lines, n - 1) + [NewLine(lines, n - 1)]
  }

  function FixTabs(lines: seq<string>): (fixed: seq<string>)
    ensures |fixed| == |lines|
  {
    FixedUpTo(lines, |lines|)
  }

  lemma {:induction false} FixedAt(lines: seq<string>, n: nat, k: nat)
    requires k < n <= |lines|
    ensures FixedUpTo(lines, n)[k] == NewLine(lines, k)
  {
    if k < n - 1 {
      FixedAt(lines, n - 1, k);
    }
  }

  predicate TabsUpTo(lines: seq<string>, n: nat)
    requires n <= |lines|
  {
    n > 0 && (Flagged(lines, n - 1) || TabsUpTo(lines, n - 1))
  }

  lemma {:induction false} TabsUpToIff(lines: seq<string>, n: nat)
    requires n <= |lines|
    ensures TabsUpTo(lines, n) <==> exists k :: 0 <= k < n && Flagged(lines, k)
  {
    if n > 0 {
      TabsUpToIff(lines, n - 1);
    }
  }

  function FixLine(line: string): string {
    RStrip(line) + "\n"
  }

  predicate HasTrailing(lines: seq<string>) {
    exists i :: 0 <= i < |lines| && FixLine(lines[i]) != lines[i]
  }

  function FixTrailing(lines: seq<string>): seq<string> {
    seq(|lines|, i requires 0 <= i < |lines| => FixLine(lines[i]))
  }

  // ----- what the passes look for -----

  /** A guard is its comment between any whitespace. */
  lemma GuardIs(before: string, after: string)
    requires AllSpace(before) && AllSpace(after)
    ensures GuardOf(before + "// clang-format on" + after) == On
    ensures GuardOf(before + "// clang-format off" + after) == Off
  {
    StripOf(before, GUARD_ON, after);
    StripOf(before, GUARD_OFF, after);
  }

  lemma GuardFrom(line: string) returns (before: string, after: string)
    ensures AllSpace(before) && AllSpace(after)
    ensures GuardOf(line) == On ==> line == before + "// clang-format on" + after
    ensures GuardOf(line) == Off ==> line == before + "// clang-format off" + after
  {
    before, after := StripSplits(line);
  }

  /** Formatting is enabled after `n` lines if each guard that disables it has one that enables it after it. */
  ghost predicate Reenabled(lines: seq<string>, n: nat)
    requires n <= |lines|
  {
    forall j :: 0 <= j < n && GuardOf(lines[j]) == Off ==> OnAfter(lines, j, n)
  }

  ghost predicate OnAfter(lines: seq<string>, j: nat, n: nat)
    requires n <= |lines|
  {
    exists k :: j < k < n && GuardOf(lines[k]) == On
  }

  lemma StillIff(lines: seq<string>, i: nat)
    requires i < |lines| && (EnabledAfter(Guards(lines), i) <==> Reenabled(lines, i))
    ensures EnabledAfter(Guards(lines), i + 1) <==> Reenabled(lines, i + 1)
  {
    EnabledNext(lines, i);
    ReenabledNext(lines, i);
  }

  lemma {:induction false} EnabledIff(lines: seq<string>, n: nat)
    requires n <= |lines|
    ensures EnabledAfter(Guards(lines), n) <==> Reenabled(lines, n)
  {
    if n > 0 {
      EnabledIff(lines, n - 1);
      StillIff(lines, n - 1);
    }
  }

  lemma EnabledNext(lines: seq<string>, i: nat)
    requires i < |lines|
    ensures EnabledAfter(Guards(lines), i + 1) <==>
            GuardOf(lines[i]) == On || (GuardOf(lines[i]) == NoGuard && EnabledAfter(Guards(lines), i))
  {
    GuardsAt(lines, i);
  }

  lemma ReenabledNext(lines: seq<string>, i: nat)
    requires i < |lines|
    ensures Reenabled(lines, i + 1) <==>
            GuardOf(lines[i]) == On || (GuardOf(lines[i]) == NoGuard && Reenabled(lines, i))
  {
    if GuardOf(lines[i]) == On {
      forall j | 0 <= j < i && GuardOf(lines[j]) == Off
        ensures OnAfter(lines, j, i + 1)
      {
      }
    } else {
      assert !OnAfter(lines, i, i + 1);
      forall j | 0 <= j < i
        ensures OnAfter(lines, j, i + 1) <==> OnAfter(lines, j, i)
      {
      }
    }
  }

  /** A line is reported exactly if it has a tab and is itself a guard or lies where formatting is enabled. */
  lemma FlaggedIff(lines: seq<string>, i: nat)
    requires i < |lines|
    ensures Flagged(lines, i) <==> '\t' in lines[i] && (GuardOf(lines[i]) != NoGuard || Reenabled(lines, i))
  {
    GuardsAt(lines, i);
    EnabledIff(lines, i);
  }

  /** A fix run expands the reported lines and keeps the others. */
  lemma FixedLine(lines: seq<string>, i: nat)
    requires i < |lines|
    ensures FixTabs(lines)[i] == if Flagged(lines, i) then Expand(lines[i]) else lines[i]
  {
    FixedAt(lines, |lines|, i);
  }

  /** Trimming keeps a line up to its last character that is not whitespace, and ends it with a newline. */
  lemma TrimmedLine(lines: seq<string>, i: nat, core: string, spaces: string)
    requires i < |lines| && lines[i] == core + spaces && AllSpace(spaces)
    requires core != "" ==> !IsSpace(core[|core| - 1])
    ensures |FixTrailing(lines)| == |lines| && FixTrailing(lines)[i] == core + "\n"
  {
    RStripOf(core, spaces);
  }

  lemma LineSplits(line: string) returns (core: string, spaces: string)
    ensures line == core + spaces && AllSpace(spaces) && (core != "" ==> !IsSpace(core[|core| - 1]))
  {
    RStripSplits(line);
    core, spaces := RStrip(line), line[|RStrip(line)|..];
  }

  /** A line that ends in a newline with no whitespace before it. */
  predicate EndsClean(line: string) {
    line != "" && line[|line| - 1] == '\n' && (|line| > 1 ==> !IsSpace(line[|line| - 2]))
  }

  lemma UnchangedIff(line: string)
    ensures FixLine(line) == line <==> EndsClean(line)
  {
    RStripSplits(line);
    if EndsClean(line) {
      var core := line[..|line| - 1];
      assert line == core + "\n";
      RStripOf(core, "\n");
    }
  }

  /** Trailing whitespace is reported exactly if some line does not end cleanly. */
  lemma HasTrailingIff(lines: seq<string>)
    ensures HasTrailing(lines) <==> exists i :: 0 <= i < |lines| && !EndsClean(lines[i])
  {
    forall i | 0 <= i < |lines|
      ensures FixLine(lines[i]) == lines[i] <==> EndsClean(lines[i])
    {
      UnchangedIff(lines[i]);
    }
  }

  // ----- a second tab pass finds nothing -----

  /** Expansion changes only the blanks around a text without tabs. */
  lemma ExpandAround(before: string, core: string, after: string) returns (before': string, after': string)
    requires AllSpace(before) && AllSpace(after) && '\t' !in core
    ensures Expand(before + core + after) == before' + core + after' && AllSpace(before') && AllSpace(after')
  {
    ExpandAppend(before + core, after, 0);
    ExpandAppend(before, core, 0);
    ExpandWithoutTabs(core, ColumnAfter(before, 0));
    before' := ExpandFrom(before, 0);
    after' := ExpandFrom(after, ColumnAfter(before + core, 0));
    ExpandSpaces(before, 0);
    ExpandSpaces(after, ColumnAfter(before + core, 0));
  }

  /** A guard line with tabs around it is the same guard after expansion. */
  lemma GuardSurvives(line: string)
    requires GuardOf(line) != NoGuard
    ensures GuardOf(Expand(line)) == GuardOf(line)
  {
    var guard := Strip(line);
    var before, after := StripSplits(line);
    var before', after' := ExpandAround(before, guard, after);
    StripOf(before', guard, after');
  }

  /** If guards stay and new ones appear only on examined lines, nothing becomes enabled that was not before. */
  lemma {:induction false} FewerEnabled(guards: seq<Guard>, guards': seq<Guard>, n: nat)
    requires n <= |guards| == |guards'|
    requires forall i :: 0 <= i < n && (guards[i] != NoGuard || !Examined(guards, i)) ==> guards'[i] == guards[i]
    ensures EnabledAfter(guards', n) ==> EnabledAfter(guards, n)
  {
    if n > 0 {
      FewerEnabled(guards, guards', n - 1);
    }
  }

  /**
   * Expansion may turn an ordinary line into a guard, so the two passes can disagree on where formatting is
   * enabled; but wherever the second pass has it enabled, so had the first.
   */
  lemma SecondPassSeesLess(lines: seq<string>, n: nat)
    requires n <= |lines|
    ensures EnabledAfter(Guards(FixTabs(lines)), n) ==> EnabledAfter(Guards(lines), n)
  {
    var guards, guards' := Guards(lines), Guards(FixTabs(lines));
    forall i | 0 <= i < n && (guards[i] != NoGuard || !Examined(guards, i))
      ensures guards'[i] == guards[i]
    {
      GuardKept(lines, i);
    }
    FewerEnabled(guards, guards', n);
  }

  lemma ExaminedLess(guards: seq<Guard>, guards': seq<Guard>, i: nat)
    requires i < |guards| == |guards'| && (EnabledAfter(guards', i + 1) ==> EnabledAfter(guards, i + 1))
    requires guards[i] != NoGuard || !Examined(guards, i) ==> guards'[i] == guards[i]
    ensures Examined(guards', i) ==> Examined(guards, i)
  {
  }

  lemma GuardKept(lines: seq<string>, i: nat)
    requires i < |lines|
    ensures Guards(lines)[i] != NoGuard || !Examined(Guards(lines), i) ==> Guards(FixTabs(lines))[i] == Guards(lines)[i]
  {
    GuardsAt(lines, i);
    GuardsAt(FixTabs(lines), i);
    FixedAt(lines, |lines|, i);
    if GuardOf(lines[i]) != NoGuard {
      GuardSurvives(lines[i]);
    }
  }

  lemma FixedLineNotFlagged(lines: seq<string>, i: nat)
    requires i < |lines|
    ensures !Flagged(FixTabs(lines), i)
  {
    SecondPassSeesLess(lines, i + 1);
    GuardKept(lines, i);
    ExaminedLess(Guards(lines), Guards(FixTabs(lines)), i);
    FixedAt(lines, |lines|, i);
    ExpandCharacters(lines[i], 0);
  }

  lemma FixTabsLeavesNoTabs(lines: seq<string>)
    ensures !HasTabs(FixTabs(lines))
  {
    forall i | 0 <= i < |lines|
      ensures !Flagged(FixTabs(lines), i)
    {
      FixedLineNotFlagged(lines, i);
    }
  }

  lemma NoTabsNoChange(lines: seq<string>)
    requires !HasTabs(lines)
    ensures FixTabs(lines) == lines
  {
    forall i | 0 <= i < |lines|
      ensures FixTabs(lines)[i] == lines[i]
    {
      FixedAt(lines, |lines|, i);
      assert !Flagged(lines, i);
    }
  }

  /** Fixing twice is fixing once, and the second run reports nothing. */
  lemma FixTabsIdempotent(lines: seq<string>)
    ensures !HasTabs(FixTabs(lines)) && FixTabs(FixTabs(lines)) == FixTabs(lines)
  {
    FixTabsLeavesNoTabs(lines);
    NoTabsNoChange(FixTabs(lines));
  }

  /** A tab in a column that is 3 modulo TAB_SIZE becomes a single space. */
  lemma TabToOneSpace(stem: string, tail: string)
    requires '\t' !in stem && '\n' !in stem && '\r' !in stem && |stem| % TAB_SIZE == 3
    requires '\t' !in tail
    ensures Expand(stem + ("\t" + tail)) == stem + (" " + tail)
  {
    ExpandAppend(stem, "\t" + tail, 0);
    ExpandWithoutTabs(stem, 0);
    ColumnOfPlain(stem, 0);
    ExpandAppend("\t", tail, |stem|);
    ExpandWithoutTabs(tail, |stem| + 1);
    assert ExpandFrom("\t", |stem|) == " ";
  }

  /** The two passes really can disagree: this line is no guard, and expansion makes it one. */
  lemma ExpansionCanMakeAGuard(line: string)
    requires line == "// clang-format" + ("\t" + "off\n")
    ensures GuardOf(line) == NoGuard && GuardOf(Expand(line)) == Off
    ensures EnabledAfter(Guards([line]), 1) && !EnabledAfter(Guards(FixTabs([line])), 1)
  {
    TabbedLine(line);
    OneLine(line);
  }

  lemma TabbedLine(line: string)
    requires line == "// clang-format" + ("\t" + "off\n")
    ensures '\t' in line && GuardOf(line) == NoGuard && GuardOf(Expand(line)) == Off
  {
    assert line[15] == '\t';
    TabToOneSpace("// clang-format", "off\n");
    StripOf("", GUARD_OFF, "\n");
    assert Expand(line) == "" + GUARD_OFF + "\n";
    NoGuardWithTab(line);
  }

  lemma NoGuardWithTab(line: string)
    requires line == "// clang-format" + ("\t" + "off\n")
    ensures GuardOf(line) == NoGuard
  {
    var core := "// clang-format\toff";
    assert line == "" + core + "\n";
    StripOf("", core, "\n");
    assert core[15] == '\t' && GUARD_ON[15] == ' ' && GUARD_OFF[15] == ' ';
  }

  /** A file of one line with a tab that is no guard and becomes one. */
  lemma OneLine(line: string)
    requires '\t' in line && GuardOf(line) == NoGuard && GuardOf(Expand(line)) == Off
    ensures EnabledAfter(Guards([line]), 1) && !EnabledAfter(Guards(FixTabs([line])), 1)
  {
    GuardsAt([line], 0);
    assert Flagged([line], 0);
    FixedAt([line], 1, 0);
    GuardsAt(FixTabs([line]), 0);
  }

  /** Line `i` is examined, has a tab, is no guard, and becomes one that disables formatting. */
  ghost predicate BecomesOff(lines: seq<string>, i: nat)
    requires i < |lines|
  {
    && EnabledAfter(Guards(lines), i) && GuardOf(lines[i]) == NoGuard && '\t' in lines[i]
    && GuardOf(Expand(lines[i])) == Off
  }

  ghost predicate SameRegion(lines: seq<string>) {
    forall n :: 0 <= n <= |lines| ==> EnabledAfter(Guards(FixTabs(lines)), n) == EnabledAfter(Guards(lines), n)
  }

  /** The guard of a line after the fix. */
  lemma GuardAfter(lines: seq<string>, i: nat)
    requires i < |lines|
    ensures Guards(lines)[i] == GuardOf(lines[i])
    ensures Guards(FixTabs(lines))[i] == if Flagged(lines, i) then GuardOf(Expand(lines[i])) else GuardOf(lines[i])
    ensures GuardOf(lines[i]) != NoGuard ==> Guards(FixTabs(lines))[i] == GuardOf(lines[i])
  {
    GuardsAt(lines, i);
    GuardsAt(FixTabs(lines), i);
    FixedAt(lines, |lines|, i);
    GuardKept(lines, i);
  }

  lemma {:induction false} SameUpTo(lines: seq<string>, n: nat)
    requires n <= |lines| && forall i :: 0 <= i < n ==> !BecomesOff(lines, i)
    ensures EnabledAfter(Guards(FixTabs(lines)), n) == EnabledAfter(Guards(lines), n)
  {
    if n > 0 {
      SameUpTo(lines, n - 1);
      SameAfter(lines, n - 1);
    }
  }

  lemma SameAfter(lines: seq<string>, i: nat)
    requires i < |lines| && !BecomesOff(lines, i)
    requires EnabledAfter(Guards(FixTabs(lines)), i) == EnabledAfter(Guards(lines), i)
    ensures EnabledAfter(Guards(FixTabs(lines)), i + 1) == EnabledAfter(Guards(lines), i + 1)
  {
    GuardAfter(lines, i);
  }

  /**
   * Before and after a fix the same lines are formatted if and only if no examined line with a tab that is no
   * guard expands to the guard that disables formatting.
   */
  lemma SameRegionIff(lines: seq<string>)
    ensures SameRegion(lines) <==> forall i :: 0 <= i < |lines| ==> !BecomesOff(lines, i)
  {
    if forall i :: 0 <= i < |lines| ==> !BecomesOff(lines, i) {
      forall n | 0 <= n <= |lines|
        ensures EnabledAfter(Guards(FixTabs(lines)), n) == EnabledAfter(Guards(lines), n)
      {
        SameUpTo(lines, n);
      }
    }
    if i :| 0 <= i < |lines| && BecomesOff(lines, i) {
      GuardAfter(lines, i);
      assert EnabledAfter(Guards(lines), i + 1) && !EnabledAfter(Guards(FixTabs(lines)), i + 1);
    }
  }

  lemma RegionCanDiffer()
    ensures !SameRegion(["// clang-format\toff\n"])
  {
    var line := "// clang-format" + ("\t" + "off\n");
    ExpansionCanMakeAGuard(line);
    assert line == "// clang-format\toff\n";
  }

  lemma {:induction false} ColumnOfPlain(s: string, column: nat)
    requires '\t' !in s && '\n' !in s && '\r' !in s
    ensures ColumnAfter(s, column) == column + |s|
    decreases |s|
  {
    if s != "" {
      ColumnOfPlain(s[1..], column + 1);
    }
  }

  // ----- trimming -----

  lemma FixLineClean(line: string)
    ensures FixLine(FixLine(line)) == FixLine(line)
  {
    RStripSplits(line);
    RStripOf(RStrip(line), "\n");
  }

  lemma FixTrailingLeavesNone(lines: seq<string>)
    ensures !HasTrailing(FixTrailing(lines))
  {
    forall i | 0 <= i < |lines|
      ensures FixLine(FixTrailing(lines)[i]) == FixTrailing(lines)[i]
    {
      FixLineClean(lines[i]);
    }
  }

  lemma ExpandKeepsClean(line: string)
    requires FixLine(line) == line
    ensures FixLine(Expand(line)) == Expand(line)
  {
    var text := RStrip(line);
    RStripSplits(line);
    ExpandLast(text, '\n');
    if text == "" {
      RStripOf("", "\n");
    } else {
      var c := text[|text| - 1];
      assert text == text[..|text| - 1] + [c];
      ExpandLast(text[..|text| - 1], c);
      RStripOf(Expand(text), "\n");
    }
  }

  /** Fixing tabs brings no trailing whitespace back. */
  lemma FixTabsKeepsTrimmed(lines: seq<string>)
    requires !HasTrailing(lines)
    ensures !HasTrailing(FixTabs(lines))
  {
    forall i | 0 <= i < |lines|
      ensures FixLine(FixTabs(lines)[i]) == FixTabs(lines)[i]
    {
      assert FixLine(lines[i]) == lines[i];
      FixedAt(lines, |lines|, i);
      ExpandKeepsClean(lines[i]);
    }
  }

  // ----- fixed lines are lines -----

  lemma ExpandedIsLine(line: string)
    requires IsLine(line)
    ensures IsLine(Expand(line)) && (EndsLine(line) ==> EndsLine(Expand(line)))
  {
    var n := |line| - 1;
    var c := line[n];
    assert line == line[..n] + [c];
    ExpandCharacters(line, 0);
    ExpandCharacters(line[..n], 0);
    if c == '\t' {
      assert '\n' !in line;
      assert '\n' !in Expand(line);
    } else {
      ExpandLast(line[..n], c);
      assert '\n' !in Expand(line[..n]);
    }
  }

  lemma FixTabsAreLines(lines: seq<string>)
    requires AreLines(lines)
    ensures AreLines(FixTabs(lines))
  {
    forall i | 0 <= i < |lines|
      ensures IsLine(FixTabs(lines)[i]) && (EndsLine(lines[i]) ==> EndsLine(FixTabs(lines)[i]))
    {
      FixedAt(lines, |lines|, i);
      ExpandedIsLine(lines[i]);
    }
  }

  lemma FixedIsLine(line: string)
    requires IsLine(line)
    ensures IsLine(FixLine(line)) && EndsLine(FixLine(line))
  {
    RStripSplits(line);
    var text := RStrip(line);
    assert FixLine(line)[..|text|] == text;
  }

  lemma FixTrailingAreLines(lines: seq<string>)
    requires AreLines(lines)
    ensures AreLines(FixTrailing(lines))
  {
    forall i | 0 <= i < |lines|
      ensures IsLine(FixTrailing(lines)[i]) && EndsLine(FixTrailing(lines)[i])
    {
      FixedIsLine(lines[i]);
    }
  }

  // ----- files -----

  type Disk = map<string, string>

  /** What one trailing-whitespace fix leaves in a file. */
  function TrimmedContent(content: string): string {
    if HasTrailing(ReadLines(content)) then WriteLines(FixTrailing(ReadLines(content))) else content
  }

  function UntabbedContent(content: string): string {
    if HasTabs(ReadLines(content)) then WriteLines(FixTabs(ReadLines(content))) else content
  }

  function Trimmed(disk: Disk, names: seq<string>): Disk {
    map f | f in disk :: if f in names then TrimmedContent(disk[f]) else disk[f]
  }

  function Untabbed(disk: Disk, names: seq<string>): Disk {
    map f | f in disk :: if f in names then UntabbedContent(disk[f]) else disk[f]
  }

  lemma TrimmedReads(content: string)
    ensures ReadLines(TrimmedContent(content)) == FixTrailing(ReadLines(content))
    ensures !HasTrailing(ReadLines(TrimmedContent(content)))
    ensures TrimmedContent(TrimmedContent(content)) == TrimmedContent(content)
  {
    var lines := ReadLines(content);
    ReadAreLines(content);
    FixTrailingAreLines(lines);
    ReadWritten(FixTrailing(lines));
    FixTrailingLeavesNone(lines);
    if !HasTrailing(lines) {
      assert forall i :: 0 <= i < |lines| ==> FixLine(lines[i]) == lines[i];
      assert FixTrailing(lines) == lines;
    }
  }

  lemma UntabbedReads(content: string)
    ensures ReadLines(UntabbedContent(content)) == FixTabs(ReadLines(content))
    ensures !HasTabs(ReadLines(UntabbedContent(content)))
    ensures UntabbedContent(UntabbedContent(content)) == UntabbedContent(content)
  {
    var lines := ReadLines(content);
    ReadAreLines(content);
    FixTabsAreLines(lines);
    ReadWritten(FixTabs(lines));
    FixTabsLeavesNoTabs(lines);
    if !HasTabs(lines) {
      NoTabsNoChange(lines);
    }
  }

  lemma TrimmedNext(disk: Disk, names: seq<string>, i: nat)
    requires i < |names| && names[i] in disk
    ensures var before := Trimmed(disk, names[..i]);
            && names[i] in before
            && before[names[i] := TrimmedContent(before[names[i]])] == Trimmed(disk, names[..i + 1])
  {
    TrimmedReads(disk[names[i]]);
    assert names[..i + 1] == names[..i] + [names[i]];
  }

  lemma UntabbedNext(disk: Disk, names: seq<string>, i: nat)
    requires i < |names| && names[i] in disk
    ensures var before := Untabbed(disk, names[..i]);
            && names[i] in before
            && before[names[i] := UntabbedContent(before[names[i]])] == Untabbed(disk, names[..i + 1])
  {
    UntabbedReads(disk[names[i]]);
    assert names[..i + 1] == names[..i] + [names[i]];
  }

  /** Which kinds of check a run of the script does, and on which files. */
  datatype Options = Options(whitespace: bool, tabs: bool, whitespaceFiles: seq<string>, tabFiles: seq<string>)

  ghost predicate Listed(disk: Disk, o: Options) {
    (forall f :: f in o.whitespaceFiles ==> f in disk) && (forall f :: f in o.tabFiles ==> f in disk)
  }

  function Fixed(disk: Disk, o: Options): Disk {
    var trimmed := if o.whitespace then Trimmed(disk, o.whitespaceFiles) else disk;
    if o.tabs then Untabbed(trimmed, o.tabFiles) else trimmed
  }

  ghost predicate Passes(disk: Disk, o: Options)
    requires Listed(disk, o)
  {
    && (o.whitespace ==> forall f :: f in o.whitespaceFiles ==> !HasTrailing(ReadLines(disk[f])))
    && (o.tabs ==> forall f :: f in o.tabFiles ==> !HasTabs(ReadLines(disk[f])))
  }

  /** What a fix run leaves in one file that is on the list for trimming, for tabs, or both. */
  function FixedContent(content: string, trim: bool, untab: bool): string {
    var trimmed := if trim then TrimmedContent(content) else content;
    if untab then UntabbedContent(trimmed) else trimmed
  }

  lemma FixedContentIsClean(content: string, trim: bool, untab: bool)
    ensures trim ==> !HasTrailing(ReadLines(FixedContent(content, trim, untab)))
    ensures untab ==> !HasTabs(ReadLines(FixedContent(content, trim, untab)))
  {
    var trimmed := if trim then TrimmedContent(content) else content;
    TrimmedReads(content);
    UntabbedReads(trimmed);
    if trim {
      FixTabsKeepsTrimmed(ReadLines(trimmed));
    }
  }

  lemma FixedFile(disk: Disk, o: Options, f: string)
    requires f in disk
    ensures f in Fixed(disk, o)
    ensures Fixed(disk, o)[f] ==
            FixedContent(disk[f], o.whitespace && f in o.whitespaceFiles, o.tabs && f in o.tabFiles)
  {
  }

  /** A fix run followed by a check run with the same options succeeds, and other files are not touched. */
  lemma FixThenCheckPasses(disk: Disk, o: Options)
    requires Listed(disk, o)
    ensures Listed(Fixed(disk, o), o) && Passes(Fixed(disk, o), o)
    ensures forall f :: f in disk && f !in o.whitespaceFiles && f !in o.tabFiles ==> Fixed(disk, o)[f] == disk[f]
  {
    forall f | f in disk
      ensures o.whitespace && f in o.whitespaceFiles ==> !HasTrailing(ReadLines(Fixed(disk, o)[f]))
      ensures o.tabs && f in o.tabFiles ==> !HasTabs(ReadLines(Fixed(disk, o)[f]))
    {
      FixedFile(disk, o, f);
      FixedContentIsClean(disk[f], o.whitespace && f in o.whitespaceFiles, o.tabs && f in o.tabFiles);
    }
  }

  /** A check run passes exactly when a fix run would leave every file as it is. */
  lemma PassesIffFixed(disk: Disk, o: Options)
    requires Listed(disk, o)
    ensures Passes(disk, o) <==> Fixed(disk, o) == disk
  {
    if Fixed(disk, o) == disk {
      FixThenCheckPasses(disk, o);
    }
    if Passes(disk, o) {
      forall f | f in disk
        ensures Fixed(disk, o)[f] == disk[f]
      {
        FixedFile(disk, o, f);
      }
    }
  }

  lemma FixLineKeepsSolid(line: string)
    ensures Solid(FixLine(line)) == Solid(line)
  {
    var core, spaces := LineSplits(line);
    RStripOf(core, spaces);
    SolidAppend(core, spaces);
    SolidAppend(core, "\n");
    SolidOfSpaces(spaces);
    SolidOfSpaces("\n");
  }

  /** The same number of lines, with the same characters that are not whitespace in each. */
  ghost predicate SameText(lines: seq<string>, lines': seq<string>) {
    |lines'| == |lines| && forall i :: 0 <= i < |lines| ==> Solid(lines'[i]) == Solid(lines[i])
  }

  lemma TrimKeepsText(content: string)
    ensures SameText(ReadLines(content), ReadLines(TrimmedContent(content)))
  {
    TrimmedReads(content);
    var lines := ReadLines(content);
    forall i | 0 <= i < |lines|
      ensures Solid(FixTrailing(lines)[i]) == Solid(lines[i])
    {
      FixLineKeepsSolid(lines[i]);
    }
  }

  lemma UntabKeepsText(content: string)
    ensures SameText(ReadLines(content), ReadLines(UntabbedContent(content)))
  {
    UntabbedReads(content);
    var lines := ReadLines(content);
    forall i | 0 <= i < |lines|
      ensures Solid(FixTabs(lines)[i]) == Solid(lines[i])
    {
      FixedLine(lines, i);
      ExpandKeepsSolid(lines[i]);
    }
  }

  /** A fix run changes nothing but whitespace: every line of every file keeps its text. */
  lemma FixKeepsText(disk: Disk, o: Options, f: string)
    requires f in disk
    ensures f in Fixed(disk, o) && SameText(ReadLines(disk[f]), ReadLines(Fixed(disk, o)[f]))
  {
    var trimmed := if o.whitespace then Trimmed(disk, o.whitespaceFiles) else disk;
    TrimKeepsText(disk[f]);
    UntabKeepsText(trimmed[f]);
  }

  /** A second fix run changes nothing. */
  lemma FixIsIdempotent(disk: Disk, o: Options)
    requires Listed(disk, o)
    ensures Fixed(Fixed(disk, o), o) == Fixed(disk, o)
  {
    FixThenCheckPasses(disk, o);
    PassesIffFixed(Fixed(disk, o), o);
  }

  /** Replacing the first of the remaining elements moves it to those that are done. */
  lemma ReplaceNext<T>(done: seq<T>, xs: seq<T>, x: T)
    requires |done| < |xs|
    ensures (done + xs[|done|..])[|done| := x] == (done + [x]) + xs[|done| + 1..]
    ensures done + xs[|done|..] == (done + [xs[|done|]]) + xs[|done| + 1..]
  {
  }

  /** The lines of a file when the first `n` have been fixed. */
  function PartlyFixed(lines: seq<string>, n: nat): seq<string>
    requires n <= |lines|
  {
    FixedUpTo(lines, n) + lines[n..]
  }

  lemma FixNext(lines: seq<string>, i: nat)
    requires i < |lines|
    ensures |PartlyFixed(lines, i)| == |lines|
    ensures PartlyFixed(lines, i)[i := NewLine(lines, i)] == PartlyFixed(lines, i + 1)
    ensures NewLine(lines, i) == lines[i] ==> PartlyFixed(lines, i) == PartlyFixed(lines, i + 1)
  {
    ReplaceNext(FixedUpTo(lines, i), lines, NewLine(lines, i));
  }

  class Checker {
    var files: Disk

    constructor (files: Disk)
      ensures this.files == files
    {
      this.files := files;
    }

    /** The loop over the lines of a file; in check mode it stops at the first line with trailing whitespace. */
    static method ScanTrailing(lines: seq<string>, fix: bool) returns (hasTrailing: bool, fileLines: seq<string>)
      ensures hasTrailing <==> HasTrailing(lines)
      ensures fix ==> fileLines == FixTrailing(lines)
    {
      hasTrailing := false;
      fileLines := lines;
      var i := 0;
      while i < |lines|
        invariant i <= |lines| == |fileLines|
        invariant hasTrailing <==> exists k :: 0 <= k < i && FixLine(lines[k]) != lines[k]
        invariant !fix ==> !hasTrailing
        invariant forall k :: 0 <= k < i ==> fileLines[k] == FixLine(lines[k])
        invariant forall k :: i <= k < |lines| ==> fileLines[k] == lines[k]
      {
        var fixedLine := FixLine(lines[i]);
        if fixedLine != lines[i] {
          hasTrailing := true;
          if !fix {
            return;
          }
          fileLines := fileLines[i := fixedLine];
        }
        i := i + 1;
      }
    }

    method CheckTrailingWhitespaceFile(filename: string, fix: bool) returns (hasTrailing: bool)
      requires filename in files
      modifies this
      ensures hasTrailing <==> HasTrailing(ReadLines(old(files)[filename]))
      ensures var lines := ReadLines(old(files)[filename]);
              hasTrailing <==> exists i :: 0 <= i < |lines| && !EndsClean(lines[i])
      ensures files == if fix then old(files)[filename := TrimmedContent(old(files)[filename])] else old(files)
    {
      HasTrailingIff(ReadLines(files[filename]));
      var fileLines;
      hasTrailing, fileLines := ScanTrailing(ReadLines(files[filename]), fix);
      if fix && hasTrailing {
        files := files[filename := WriteLines(fileLines)];
      }
    }

    /** One line of the loop: the guard handling, whether the line has a tab that counts, and its replacement. */
    static method ScanLine(lines: seq<string>, i: nat, before: bool)
        returns (enabled: bool, flagged: bool, newLine: string)
      requires i < |lines| && before == EnabledAfter(Guards(lines), i)
      ensures enabled == EnabledAfter(Guards(lines), i + 1) && newLine == NewLine(lines, i)
      ensures TabsUpTo(lines, i + 1) <==> flagged || TabsUpTo(lines, i)
      ensures !flagged ==> newLine == lines[i]
    {
      GuardsAt(lines, i);
      enabled, flagged, newLine := before, false, lines[i];
      var guard := GuardOf(lines[i]);
      if guard == On {
        enabled := true;
      } else if guard == Off {
        enabled := false;
      }
      if !enabled && guard == NoGuard {
        return;
      }
      if '\t' in lines[i] {
        flagged := true;
        newLine := Expand(lines[i]);
      }
    }

    /** The loop over the lines of a file; in check mode it stops at the first line with a tab. */
    static method ScanTabs(lines: seq<string>, fix: bool) returns (hasTabs: bool, fileLines: seq<string>)
      ensures hasTabs <==> HasTabs(lines)
      ensures fix ==> fileLines == FixTabs(lines)
    {
      hasTabs := false;
      fileLines := lines;
      var enabled := true;
      var i := 0;
      while i < |lines|
        invariant i <= |lines| && enabled == EnabledAfter(Guards(lines), i) && hasTabs == TabsUpTo(lines, i)
        invariant !fix ==> !hasTabs
        invariant fix ==> fileLines == PartlyFixed(lines, i)
      {
        var flagged, newLine;
        enabled, flagged, newLine := ScanLine(lines, i, enabled);
        FixNext(lines, i);
        if flagged {
          hasTabs := true;
          if !fix {
            TabsUpToIff(lines, i + 1);
            return;
          }
          fileLines := fileLines[i := newLine];
        }
        i := i + 1;
      }
      TabsUpToIff(lines, |lines|);
    }

    method CheckTabsFile(filename: string, fix: bool) returns (hasTabs: bool)
      requires filename in files
      modifies this
      ensures hasTabs <==> HasTabs(ReadLines(old(files)[filename]))
      ensures files == if fix then old(files)[filename := UntabbedContent(old(files)[filename])] else old(files)
    {
      var fileLines;
      hasTabs, fileLines := ScanTabs(ReadLines(files[filename]), fix);
      if fix && hasTabs {
        files := files[filename := WriteLines(fileLines)];
      }
    }

    method CheckTrailingWhitespace(filenames: seq<string>, fix: bool) returns (ok: bool)
      requires forall f :: f in filenames ==> f in files
      modifies this
      ensures files == if fix then Trimmed(old(files), filenames) else old(files)
      ensures ok <==> fix || forall f :: f in filenames ==> !HasTrailing(ReadLines(old(files)[f]))
    {
      var withWhitespace: seq<string> := [];
      for i := 0 to |filenames|
        invariant files == if fix then Trimmed(old(files), filenames[..i]) else old(files)
        invariant !fix ==>
                    (withWhitespace == [] <==> forall k :: 0 <= k < i ==> !HasTrailing(ReadLines(files[filenames[k]])))
      {
        TrimmedNext(old(files), filenames, i);
        var hasTrailing := CheckTrailingWhitespaceFile(filenames[i], fix);
        if hasTrailing {
          withWhitespace := withWhitespace + [filenames[i]];
        }
      }
      assert filenames[..|filenames|] == filenames;
      ok := withWhitespace == [] || fix;
    }

    method CheckTabs(filenames: seq<string>, fix: bool) returns (ok: bool)
      requires forall f :: f in filenames ==> f in files
      modifies this
      ensures files == if fix then Untabbed(old(files), filenames) else old(files)
      ensures ok <==> fix || forall f :: f in filenames ==> !HasTabs(ReadLines(old(files)[f]))
    {
      var withTabs: seq<string> := [];
      for i := 0 to |filenames|
        invariant files == if fix then Untabbed(old(files), filenames[..i]) else old(files)
        invariant !fix ==>
                    (withTabs == [] <==> forall k :: 0 <= k < i ==> !HasTabs(ReadLines(files[filenames[k]])))
      {
        UntabbedNext(old(files), filenames, i);
        var hasTabs := CheckTabsFile(filenames[i], fix);
        if hasTabs {
          withTabs := withTabs + [filenames[i]];
        }
      }
      assert filenames[..|filenames|] == filenames;
      ok := withTabs == [] || fix;
    }

    /** One run of the script without formatting; returns its exit code. */
    method CheckStyle(o: Options, fix: bool) returns (exit: int)
      requires Listed(files, o)
      modifies this
      ensures files == if fix then Fixed(old(files), o) else old(files)
      ensures exit == if fix || Passes(old(files), o) then 0 else 1
    {
      var whitespaceOk, tabsOk := true, true;
      if o.whitespace {
        whitespaceOk := CheckTrailingWhitespace(o.whitespaceFiles, fix);
      }
      if o.tabs {
        tabsOk := CheckTabs(o.tabFiles, fix);
      }
      exit := if whitespaceOk && tabsOk then 0 else 1;
    }

    /** A fix run, then a check run: the check run exits with 0. */
    method FixThenCheck(o: Options) returns (exit: int)
      requires Listed(files, o)
      modifies this
      ensures exit == 0 && files == Fixed(old(files), o)
    {
      FixThenCheckPasses(files, o);
      var fixed := CheckStyle(o, true);
      exit := CheckStyle(o, false);
    }
  }
}
