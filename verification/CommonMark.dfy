/**
 * Fence lines as section 4.5 of the CommonMark Spec defines them, beside those that
 * extension/media/streamingMarkdown.js goes by: where the two differ, and exactly when they
 * do not. Lines are what lies between newlines; a carriage return at the end of one belongs
 * to its line ending.
 */
module CommonMark {
  import opened Common
  import opened StreamingMarkdown

  // ---------- the spec's fence lines ---------------------------------------------------

  function Spaces(line: string): (n: nat)
    ensures n <= |line| && (n < |line| ==> line[n] != ' ')
    ensures forall k | 0 <= k < n :: line[k] == ' '
  {
    if line == "" || line[0] != ' ' then 0 else 1 + Spaces(line[1..])
  }

  /** Without the carriage return of its line ending. */
  function Content(s: string): string {
    if s != "" && s[|s| - 1] == '\r' then s[..|s| - 1] else s
  }

  predicate SpacesOrTabs(s: string) {
    forall i | 0 <= i < |s| :: s[i] == ' ' || s[i] == '\t'
  }

  /** A code fence: indented by no more than three spaces, at least three equal marks. */
  function SpecFence(line: string): Option<Marker> {
    var at := Spaces(line);
    if at > 3 || at == |line| || (line[at] != '`' && line[at] != '~') then None else
      var n := RunLength(line, at, line[at]);
      if n < 3 then None else Some(Marker(line[at], n, Content(line[at + n..])))
  }

  /** An opening fence: an info string after backticks has no backtick in it. */
  function SpecOpener(line: string): Option<Marker> {
    var m := SpecFence(line);
    if m.Some? && m.value.mark == '`' && '`' in m.value.rest then None else m
  }

  /** A closing fence: the opener's mark, at least as many, and after it only spaces or tabs. */
  predicate SpecCloses(open: Fence, line: string) {
    var m := SpecFence(line);
    m.Some? && m.value.mark == open.mark && m.value.len >= open.len && SpacesOrTabs(m.value.rest)
  }

  function SpecAfterLine(open: Option<Fence>, pos: nat, line: string): Option<Fence> {
    if open.Some? then (if SpecCloses(open.value, line) then None else open)
    else
      var m := SpecOpener(line);
      if m.None? then None else Some(Fence(pos, m.value.mark, m.value.len))
  }

  // ---------- line by line ---------------------------------------------------------------

  /** Nothing but spaces before the mark. */
  predicate IsIndentedBySpaces(line: string) {
    forall k | 0 <= k < Indent(line) :: line[k] == ' '
  }

  /** The code's fence line is one of the spec's exactly when it is indented by spaces. */
  lemma FenceIsSpecFence(line: string)
    ensures SpecFence(line).Some? <==> FenceOf(line).Some? && IsIndentedBySpaces(line)
    ensures SpecFence(line).Some? ==>
              SpecFence(line).value == FenceOf(line).value.(rest := Content(FenceOf(line).value.rest))
  {
    if SpecFence(line).Some? || (FenceOf(line).Some? && IsIndentedBySpaces(line)) {
      assert Spaces(line) == Indent(line);
    }
  }

  /** The line opens what it should, if it opens anything. */
  predicate OpensRightly(line: string) {
    var m := FenceOf(line);
    m.Some? ==> IsIndentedBySpaces(line) && (m.value.mark == '`' ==> '`' !in m.value.rest)
  }

  /** The line closes the fence rightly, if it closes it. */
  predicate ClosesRightly(open: Fence, line: string) {
    var m := FenceOf(line);
    m.Some? && Closes(open, m.value) ==> IsIndentedBySpaces(line) && SpacesOrTabs(Content(m.value.rest))
  }

  lemma ContentKeeps(s: string)
    ensures '`' in Content(s) <==> '`' in s
    ensures SpacesOrTabs(Content(s)) ==> IsBlank(s)
  {
    assert s == Content(s) || s == Content(s) + ['\r'];
  }

  /**
   * Whatever fence is open, code and spec read a line alike exactly when: with none open, a
   * fence line is indented by spaces only and, if of backticks, has no backtick after them;
   * with one open, a line that closes it is indented by spaces only and ends in spaces or tabs.
   */
  lemma ReadAlikeExactlyWhen(open: Option<Fence>, pos: nat, line: string)
    ensures AfterLine(open, pos, line) == SpecAfterLine(open, pos, line)
       <==> if open.None? then OpensRightly(line) else ClosesRightly(open.value, line)
  {
    FenceIsSpecFence(line);
    if FenceOf(line).Some? {
      ContentKeeps(FenceOf(line).value.rest);
    }
    hide FenceOf, SpecFence, IsIndentedBySpaces, Content, IsBlank, SpacesOrTabs;
  }

  // ---------- whole texts -------------------------------------------------------------------

  /** The fence left open by the lines from `pos` on, as the spec has it. */
  function SpecScan(text: string, pos: nat, open: Option<Fence>): Option<Fence>
    requires pos <= |text|
    decreases |text| - pos
  {
    var end := LineEnd(text, pos);
    var next := SpecAfterLine(open, pos, text[pos..end]);
    if end == |text| then next else SpecScan(text, end + 1, next)
  }

  /** Every line reads alike for the fence open before it. */
  predicate AllReadAlike(text: string, pos: nat, open: Option<Fence>)
    requires pos <= |text|
    decreases |text| - pos
  {
    var end := LineEnd(text, pos);
    var line := text[pos..end];
    && (if open.None? then OpensRightly(line) else ClosesRightly(open.value, line))
    && (end < |text| ==> AllReadAlike(text, end + 1, AfterLine(open, pos, line)))
  }

  lemma {:induction false} ScansAgree(text: string, pos: nat, open: Option<Fence>)
    requires pos <= |text| && AllReadAlike(text, pos, open)
    ensures SpecScan(text, pos, open) == Scan(text, pos, open)
    decreases |text| - pos
  {
    hide AfterLine, SpecAfterLine, OpensRightly, ClosesRightly, LineEnd;
    var end := LineEnd(text, pos);
    ReadAlikeExactlyWhen(open, pos, text[pos..end]);
    if end == |text| {
    } else {
      ScansAgree(text, end + 1, AfterLine(open, pos, text[pos..end]));
    }
  }

  /** The settled part never ends inside a fence of the spec's, if its lines read alike. */
  lemma StableIsClosedInSpec(text: string)
    requires AllReadAlike(text[..StableLength(text)], 0, None)
    ensures SpecScan(text[..StableLength(text)], 0, None) == None
  {
    StableIsClosed(text);
    ScansAgree(text[..StableLength(text)], 0, None);
    hide StableLength, Scan, SpecScan;
  }

  // ---------- where they differ ---------------------------------------------------------------

  /** A fence indented by a tab, which the spec counts as four columns: not a fence at all. */
  lemma TabIndented(rest: string)
    requires rest != "" ==> rest[0] != '`'
    ensures FenceOf("\t```" + rest) == Some(Marker('`', 3, rest))
    ensures SpecFence("\t```" + rest) == None
  {
    var line := "\t```" + rest;
    assert line[0] == '\t' && line[1] == '`' && line[2] == '`' && line[3] == '`';
    assert Indent(line) == 1;
    RunOfThree(line, 1, '`');
    assert line[4..] == rest;
  }

  lemma RunOfThree(line: string, at: nat, c: char)
    requires at + 3 <= |line| && line[at] == line[at + 1] == line[at + 2] == c
    requires at + 3 < |line| ==> line[at + 3] != c
    ensures RunLength(line, at, c) == 3
  {
    assert RunLength(line, at + 3, c) == 0;
    assert RunLength(line, at + 2, c) == 1;
    assert RunLength(line, at + 1, c) == 2;
  }

  /** Three backticks at the start of the line are a fence to both. */
  lemma NotIndented(rest: string)
    requires rest != "" ==> rest[0] != '`'
    ensures FenceOf("```" + rest) == Some(Marker('`', 3, rest))
    ensures SpecFence("```" + rest) == Some(Marker('`', 3, Content(rest)))
  {
    var line := "```" + rest;
    assert line[0] == '`' && line[1] == '`' && line[2] == '`' && line[3..] == rest;
    RunOfThree(line, 0, '`');
    assert Indent(line) == 0 && Spaces(line) == 0;
    hide RunLength, Content;
  }

  /** Backticks with a backtick in what follows: the spec sees inline code, not a fence. */
  lemma BacktickInInfo()
    ensures FenceOf("```" + " `") == Some(Marker('`', 3, " `")) && SpecOpener("```" + " `") == None
  {
    NotIndented(" `");
    assert " `"[1] == '`' && Content(" `") == " `";
    hide FenceOf, SpecFence;
  }

  /** A no-break space after the marks: the code closes the fence, the spec does not. */
  lemma NoBreakSpaceAfter(open: Fence)
    requires open.mark == '`' && open.len == 3
    ensures var line := "```" + "\U{00A0}";
            FenceOf(line).Some? && Closes(open, FenceOf(line).value) && !SpecCloses(open, line)
  {
    NotIndented("\U{00A0}");
    assert Content("\U{00A0}")[0] == '\U{00A0}';
    hide FenceOf, SpecFence;
  }

  lemma LineEndIs(text: string, pos: nat, end: nat)
    requires pos <= end <= |text| && (end < |text| ==> text[end] == '\n')
    requires forall k | pos <= k < end :: text[k] != '\n'
    ensures LineEnd(text, pos) == end
  {
  }

  lemma ScanLine(text: string, pos: nat, end: nat, open: Option<Fence>)
    requires pos <= end < |text| && text[end] == '\n' && forall k | pos <= k < end :: text[k] != '\n'
    ensures Scan(text, pos, open) == Scan(text, end + 1, AfterLine(open, pos, text[pos..end]))
    ensures SpecScan(text, pos, open) == SpecScan(text, end + 1, SpecAfterLine(open, pos, text[pos..end]))
  {
    LineEndIs(text, pos, end);
    hide AfterLine, SpecAfterLine, LineEnd;
  }

  lemma LastLineEmpty(text: string, open: Option<Fence>)
    ensures Scan(text, |text|, open) == open == SpecScan(text, |text|, open)
  {
    LineEndIs(text, |text|, |text|);
    assert FenceOf("") == None && SpecFence("") == None;
    hide LineEnd;
  }

  /** Two lines, the second of which closes the first's fence for the code only, and a blank one. */
  predicate IsExample(text: string) {
    && |text| == 10 && text[3] == text[8] == text[9] == '\n'
    && text[0..3] == "```" && text[4..8] == "\t```"
  }

  lemma ExampleLines(text: string)
    requires IsExample(text)
    ensures forall k | 0 <= k < 3 || 4 <= k < 8 :: text[k] != '\n'
    ensures text[9..9] == ""
  {
    assert forall k | 0 <= k < 3 :: text[k] == text[0..3][k];
    assert forall k | 4 <= k < 8 :: text[k] == text[4..8][k - 4];
  }

  lemma ExampleScan(text: string)
    requires IsExample(text)
    ensures Scan(text, 0, None) == None
  {
    var open := Fence(0, '`', 3);
    FirstAndSecond(open);
    ExampleLines(text);
    hide AfterLine, SpecAfterLine, Scan, SpecScan;
    ScanLine(text, 0, 3, None);
    ScanLine(text, 4, 8, Some(open));
    ScanLine(text, 9, 9, None);
    LastLineEmpty(text, None);
  }

  lemma ExampleSpecScan(text: string)
    requires IsExample(text)
    ensures SpecScan(text, 0, None) == Some(Fence(0, '`', 3))
  {
    var open := Fence(0, '`', 3);
    FirstAndSecond(open);
    ExampleLines(text);
    hide AfterLine, SpecAfterLine, Scan, SpecScan;
    ScanLine(text, 0, 3, None);
    ScanLine(text, 4, 8, Some(open));
    ScanLine(text, 9, 9, Some(open));
    LastLineEmpty(text, Some(open));
  }

  lemma ExampleIsSettled(text: string)
    requires IsExample(text) && Scan(text, 0, None) == None
    ensures StableLength(text) == |text|
  {
    hide Scan;
    assert BreakEndsAt(text, 10);
    assert LastBreak(text) == 10 && text[..10] == text;
    hide LastBreak;
  }

  /** So a text can be settled to its end while a fence of the spec's is open. */
  lemma SettledInsideSpecFence() returns (text: string)
    ensures text == "```\n\t```\n\n"
    ensures StableLength(text) == |text| && SpecScan(text, 0, None) == Some(Fence(0, '`', 3))
  {
    text := "```\n\t```\n\n";
    assert IsExample(text);
    hide Scan, SpecScan, StableLength;
    ExampleScan(text);
    ExampleSpecScan(text);
    ExampleIsSettled(text);
  }

  lemma FirstAndSecond(open: Fence)
    requires open == Fence(0, '`', 3)
    ensures AfterLine(None, 0, "```") == Some(open) == SpecAfterLine(None, 0, "```")
    ensures AfterLine(Some(open), 4, "\t```") == None && SpecAfterLine(Some(open), 4, "\t```") == Some(open)
    ensures forall f: Option<Fence> :: AfterLine(f, 9, "") == f == SpecAfterLine(f, 9, "")
  {
    NotIndented("");
    TabIndented("");
    assert "```" + "" == "```" && "\t```" + "" == "\t```";
    assert FenceOf("") == None && SpecFence("") == None;
    hide FenceOf, SpecFence;
  }
}
