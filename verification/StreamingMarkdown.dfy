/**
 * Splitting a half-received message into settled markdown and the text still arriving
 * (extension/media/streamingMarkdown.js). The renderer redraws the settled part only when
 * its length changes (extension/media/chat.js:1040), so that part may only ever grow.
 */
module StreamingMarkdown {
  import opened Common

  // ---------- lines -----------------------------------------------------------

  /** `text.indexOf('\n', pos)`, with the length standing for "none". */
  function LineEnd(text: string, pos: nat): (end: nat)
    requires pos <= |text|
    ensures pos <= end <= |text|
    ensures end < |text| ==> text[end] == '\n'
    ensures forall k :: pos <= k < end ==> text[k] != '\n'
    decreases |text| - pos
  {
    if pos == |text| || text[pos] == '\n' then pos else LineEnd(text, pos + 1)
  }

  // ---------- fence lines -------------------------------------------------------

  /** How many white-space characters, at most three, the line begins with. */
  function Indent(line: string): (n: nat)
    ensures n <= 3 && n <= |line|
  {
    if |line| == 0 || !IsWhitespace(line[0]) then 0
    else if |line| == 1 || !IsWhitespace(line[1]) then 1
    else if |line| == 2 || !IsWhitespace(line[2]) then 2
    else 3
  }

  /** How many times `c` is repeated from `from` on. */
  function RunLength(line: string, from: nat, c: char): (n: nat)
    requires from <= |line|
    ensures from + n <= |line|
    ensures forall k :: from <= k < from + n ==> line[k] == c
    ensures from + n < |line| ==> line[from + n] != c
    decreases |line| - from
  {
    if from < |line| && line[from] == c then 1 + RunLength(line, from + 1, c) else 0
  }

  /** A fence marker: its character, its length, and what stands after it on the line. */
  datatype Marker = Marker(mark: char, len: nat, rest: string)

  predicate IsFenceMark(c: char) {
    c == '`' || c == '~'
  }

  /** Three or more backticks or tildes after at most three white-space characters. */
  function FenceOf(line: string): (m: Option<Marker>)
    ensures m.Some? ==> line != "" && m.value.len >= 3 && IsFenceMark(m.value.mark)
  {
    var at := Indent(line);
    if at == |line| || !IsFenceMark(line[at]) then None else
      var n := RunLength(line, at, line[at]);
      if n < 3 then None else Some(Marker(line[at], n, line[at + n..]))
  }

  /** An open fence: where its line starts, its character, its length. */
  datatype Fence = Fence(start: nat, mark: char, len: nat)

  /** A fence closes on its own character, at least as long, with nothing after it. */
  predicate Closes(open: Fence, m: Marker) {
    m.mark == open.mark && m.len >= open.len && IsBlank(m.rest)
  }

  /** What the line that starts at `pos` does to the fence. */
  function AfterLine(open: Option<Fence>, pos: nat, line: string): Option<Fence> {
    var m := FenceOf(line);
    if m.None? then open
    else if open.None? then Some(Fence(pos, m.value.mark, m.value.len))
    else if Closes(open.value, m.value) then None
    else open
  }

  /** The fence left open by the lines from `pos` on. */
  function Scan(text: string, pos: nat, open: Option<Fence>): Option<Fence>
    requires pos <= |text|
    decreases |text| - pos
  {
    var end := LineEnd(text, pos);
    var next := AfterLine(open, pos, text[pos..end]);
    if end == |text| then next else Scan(text, end + 1, next)
  }

  /** The offset where the unclosed fence begins, or -1. */
  method OpenFenceStart(text: string) returns (start: int)
    ensures start == FenceStart(text)
  {
    hide FenceOf, LineEnd, IsBlank;
    var open: Option<Fence> := None;
    var pos := 0;
    while true
      invariant 0 <= pos <= |text|
      invariant Scan(text, pos, open) == Scan(text, 0, None)
      decreases |text| - pos
    {
      var end := LineEnd(text, pos);
      var line := text[pos..end];
      var m := FenceOf(line);
      if m.Some? {
        if open.None? {
          open := Some(Fence(pos, m.value.mark, m.value.len));
        } else if m.value.mark == open.value.mark && m.value.len >= open.value.len && IsBlank(m.value.rest) {
          open := None;
        }
      }
      if end == |text| {
        break;
      }
      pos := end + 1;
    }
    return if open.Some? then open.value.start else -1;
  }

  function FenceStart(text: string): int {
    var open := Scan(text, 0, None);
    if open.Some? then open.value.start else -1
  }

  // ---------- the split ---------------------------------------------------------

  /** `"\n\n"` ends at `k`. */
  predicate BreakEndsAt(text: string, k: int) {
    2 <= k <= |text| && text[k - 2] == '\n' && text[k - 1] == '\n'
  }

  /** Where the last blank line ends (`lastIndexOf('\n\n') + 2`), or 0 when there is none. */
  function LastBreak(text: string): (n: nat)
    ensures n <= |text|
    ensures n > 0 ==> BreakEndsAt(text, n)
    ensures forall k | BreakEndsAt(text, k) :: k <= n
  {
    if |text| < 2 then 0
    else if BreakEndsAt(text, |text|) then |text|
    else
      assert forall k | BreakEndsAt(text, k) :: BreakEndsAt(text[..|text| - 1], k); LastBreak(text[..|text| - 1])
  }

  /** How much of the text is settled. */
  function StableLength(text: string): (length: nat)
    ensures length <= LastBreak(text) && length <= |text|
  {
    var n := LastBreak(text);
    OpenedWhere(text[..n], 0, None);
    var start := FenceStart(text[..n]);
    if start >= 0 then start else n
  }

  method SplitStreamingMarkdown(text: Option<string>) returns (stable: string, tail: string)
    ensures var src := if text.None? then "" else text.value;
            && stable + tail == src
            && stable == src[..StableLength(src)]
  {
    hide FenceOf, LineEnd, LastBreak, Scan;
    var src := if text.None? then "" else text.value;
    var boundary := LastBreak(src);
    assert StableLength(src) <= |src|;
    if boundary == 0 {
      return "", src;
    }
    var fenceStart := OpenFenceStart(src[..boundary]);
    if fenceStart >= 0 {
      boundary := fenceStart;
    }
    if boundary <= 0 {
      return "", src;
    }
    return src[..boundary], src[boundary..];
  }

  ghost predicate IsLineStart(text: string, at: nat) {
    at <= |text| && (at == 0 || text[at - 1] == '\n')
  }

  /** A fence open at the end was either open before, or opened on a later line, when none was. */
  lemma {:induction false} OpenedWhere(text: string, pos: nat, open: Option<Fence>)
    requires IsLineStart(text, pos)
    ensures var f := Scan(text, pos, open);
            f.Some? && f != open ==>
              && pos <= f.value.start < |text|
              && IsLineStart(text, f.value.start)
              && (f.value.start == pos ==> open.None?)
    decreases |text| - pos
  {
    hide FenceOf, LineEnd, Closes;
    var end := LineEnd(text, pos);
    if end == |text| {
    } else {
      OpenedWhere(text, end + 1, AfterLine(open, pos, text[pos..end]));
    }
  }

  // ---------- the settled part only grows -----------------------------------------

  lemma {:induction false} LineEndOfPrefix(text: string, at: nat, pos: nat)
    requires IsLineStart(text, at) && pos < at
    ensures LineEnd(text[..at], pos) == LineEnd(text, pos) < at
    decreases at - pos
  {
    if text[pos] != '\n' {
      LineEndOfPrefix(text, at, pos + 1);
    }
  }

  lemma SliceOfPrefix(text: string, at: nat, from: nat, to: nat)
    requires from <= to <= at <= |text|
    ensures text[..at][from..to] == text[from..to]
  {
  }

  lemma EmptyLineKeeps(text: string, at: nat, open: Option<Fence>)
    requires at <= |text|
    ensures Scan(text[..at], at, open) == open
  {
  }

  /** Scanning can pause at the start of any line and go on from what it found so far. */
  lemma {:induction false} ScanInTwo(text: string, at: nat, pos: nat, open: Option<Fence>)
    requires IsLineStart(text, at) && pos <= at
    ensures Scan(text, pos, open) == Scan(text, at, Scan(text[..at], pos, open))
    decreases at - pos
  {
    hide FenceOf, LineEnd, AfterLine;
    var head := text[..at];
    if pos == at {
      EmptyLineKeeps(text, at, open);
    } else {
      LineEndOfPrefix(text, at, pos);
      var end := LineEnd(text, pos);
      SliceOfPrefix(text, at, pos, end);
      ScanInTwo(text, at, end + 1, AfterLine(open, pos, text[pos..end]));
    }
  }

  /** Before the line that opened a fence, none was open. */
  lemma ClosedBeforeOpener(text: string)
    requires Scan(text, 0, None).Some?
    ensures var start := Scan(text, 0, None).value.start;
            start < |text| && IsLineStart(text, start) && Scan(text[..start], 0, None) == None
  {
    hide FenceOf, LineEnd, AfterLine, Scan;
    OpenedWhere(text, 0, None);
    var start := Scan(text, 0, None).value.start;
    var before := Scan(text[..start], 0, None);
    OpenedWhere(text[..start], 0, None);
    ScanInTwo(text, start, 0, None);
    OpenedWhere(text, start, before);
  }

  /** The settled part never ends inside an open fence, and always ends at the end of a line. */
  lemma StableIsClosed(text: string)
    ensures FenceStart(text[..StableLength(text)]) == -1
    ensures IsLineStart(text, StableLength(text))
  {
    hide FenceOf, LineEnd, AfterLine, Scan, LastBreak;
    var head := text[..LastBreak(text)];
    if Scan(head, 0, None).Some? {
      ClosedBeforeOpener(head);
      assert head[..StableLength(text)] == text[..StableLength(text)];
    }
  }

  /** The settled part is as long as it can be: no later line start up to the last blank line is outside a fence. */
  lemma StableIsMaximal(text: string, at: nat)
    requires IsLineStart(text, at) && at <= LastBreak(text) && FenceStart(text[..at]) == -1
    ensures at <= StableLength(text)
  {
    hide FenceOf, LineEnd, AfterLine, Scan, LastBreak;
    var head := text[..LastBreak(text)];
    assert head[..at] == text[..at];
    ScanInTwo(head, at, 0, None);
    OpenedWhere(head, at, None);
  }

  /** As more text arrives, the settled part only grows. */
  lemma StableOnlyGrows(text: string, more: string)
    ensures StableLength(text) <= StableLength(text + more)
    ensures text[..StableLength(text)] <= (text + more)[..StableLength(text + more)]
  {
    hide FenceOf, LineEnd, AfterLine, Scan, LastBreak;
    var whole := text + more;
    var n, m := LastBreak(text), LastBreak(whole);
    assert BreakEndsAt(text, n) ==> BreakEndsAt(whole, n);
    assert n <= m && IsLineStart(whole, n);
    var head := whole[..m];
    assert head[..n] == text[..n];
    var open := Scan(text[..n], 0, None);
    ScanInTwo(head, n, 0, None);
    OpenedWhere(text[..n], 0, None);
    OpenedWhere(head, n, open);
    assert StableLength(text) <= StableLength(whole);
    assert whole[..StableLength(text)] == text[..StableLength(text)];
  }

  /**
   * What the renderer relies on: while the length stays the same, so does the settled text.
   */
  lemma EqualLengthEqualText(text: string, more: string)
    requires StableLength(text) == StableLength(text + more)
    ensures text[..StableLength(text)] == (text + more)[..StableLength(text + more)]
  {
    hide StableLength;
    StableOnlyGrows(text, more);
  }

  // ---------- what the scan means ---------------------------------------------------

  function LineAt(text: string, at: nat): string
    requires at <= |text|
  {
    text[at..LineEnd(text, at)]
  }

  predicate ClosesAt(text: string, at: nat, open: Fence)
    requires at <= |text|
  {
    var m := FenceOf(LineAt(text, at));
    m.Some? && Closes(open, m.value)
  }

  /** The first line, from the one at `from` on, that closes the fence. */
  function FirstCloser(text: string, from: nat, open: Fence): (c: Option<nat>)
    requires from <= |text|
    ensures c.Some? ==> from <= c.value <= |text| && ClosesAt(text, c.value, open)
    decreases |text| - from
  {
    if ClosesAt(text, from, open) then Some(from)
    else if LineEnd(text, from) == |text| then None
    else FirstCloser(text, LineEnd(text, from) + 1, open)
  }

  /**
   * Fenced blocks as the CommonMark Spec has them (section 4.5): a block runs from its
   * opening line to its first closing line, whatever lies between is its content, and a
   * block without one runs to the end. The result is where such an endless block begins.
   */
  function EndlessBlock(text: string, from: nat): Option<nat>
    requires from <= |text|
    decreases |text| - from
  {
    var end := LineEnd(text, from);
    var m := FenceOf(LineAt(text, from));
    if m.None? then (if end == |text| then None else EndlessBlock(text, end + 1))
    else if end == |text| then Some(from)
    else
      var closer := FirstCloser(text, end + 1, Fence(from, m.value.mark, m.value.len));
      if closer.None? then Some(from)
      else if LineEnd(text, closer.value) == |text| then None
      else EndlessBlock(text, LineEnd(text, closer.value) + 1)
  }

  lemma ScanStep(text: string, pos: nat, open: Option<Fence>)
    requires pos <= |text|
    ensures var end := LineEnd(text, pos);
            var next := AfterLine(open, pos, LineAt(text, pos));
            Scan(text, pos, open) == if end == |text| then next else Scan(text, end + 1, next)
  {
  }

  /** What a scan finds after the closing line of a block. */
  function AfterBlock(text: string, closer: nat): Option<Fence>
    requires closer <= |text|
  {
    if LineEnd(text, closer) == |text| then None else Scan(text, LineEnd(text, closer) + 1, None)
  }

  /** While a fence is open, the scan goes straight to its first closing line. */
  lemma {:induction false} ScanToCloser(text: string, pos: nat, open: Fence)
    requires pos <= |text|
    ensures var c := FirstCloser(text, pos, open);
            Scan(text, pos, Some(open)) == if c.None? then Some(open) else AfterBlock(text, c.value)
    decreases |text| - pos
  {
    ScanStep(text, pos, Some(open));
    hide FenceOf, LineEnd, Closes, Scan, LineAt, AfterBlock;
    var end := LineEnd(text, pos);
    if ClosesAt(text, pos, open) {
      AfterBlockIs(text, pos);
    } else if end < |text| {
      ScanToCloser(text, end + 1, open);
    }
  }

  lemma AfterBlockIs(text: string, closer: nat)
    requires closer <= |text|
    ensures AfterBlock(text, closer)
         == if LineEnd(text, closer) == |text| then None else Scan(text, LineEnd(text, closer) + 1, None)
  {
  }

  function Start(open: Option<Fence>): Option<nat> {
    if open.None? then None else Some(open.value.start)
  }

  /** A fence line opens a block; it is endless, or the scan goes on after its closing line. */
  lemma ScanFromOpener(text: string, pos: nat)
    requires pos <= |text| && FenceOf(LineAt(text, pos)).Some? && LineEnd(text, pos) < |text|
    ensures var m := FenceOf(LineAt(text, pos)).value;
            var open := Fence(pos, m.mark, m.len);
            var c := FirstCloser(text, LineEnd(text, pos) + 1, open);
            Scan(text, pos, None) == if c.None? then Some(open) else AfterBlock(text, c.value)
  {
    ScanStep(text, pos, None);
    hide FenceOf, LineEnd, Closes, ClosesAt, FirstCloser, Scan, LineAt, AfterBlock;
    var m := FenceOf(LineAt(text, pos)).value;
    ScanToCloser(text, LineEnd(text, pos) + 1, Fence(pos, m.mark, m.len));
  }

  lemma EndlessFromOpener(text: string, pos: nat)
    requires pos <= |text| && FenceOf(LineAt(text, pos)).Some? && LineEnd(text, pos) < |text|
    ensures var m := FenceOf(LineAt(text, pos)).value;
            var c := FirstCloser(text, LineEnd(text, pos) + 1, Fence(pos, m.mark, m.len));
            EndlessBlock(text, pos) == if c.None? then Some(pos) else EndlessAfter(text, c.value)
  {
    hide FenceOf, LineEnd, Closes, ClosesAt, FirstCloser, LineAt;
  }

  function EndlessAfter(text: string, closer: nat): Option<nat>
    requires closer <= |text|
  {
    if LineEnd(text, closer) == |text| then None else EndlessBlock(text, LineEnd(text, closer) + 1)
  }

  /** The closing line of the block that the line at `pos` opens, when it opens one that is closed. */
  function BlockEnd(text: string, pos: nat): (c: Option<nat>)
    requires pos <= |text|
    ensures c.Some? ==> pos < c.value <= |text|
  {
    var m := FenceOf(LineAt(text, pos));
    if m.None? || LineEnd(text, pos) == |text| then None
    else FirstCloser(text, LineEnd(text, pos) + 1, Fence(pos, m.value.mark, m.value.len))
  }

  /** The one-pass scan finds exactly the endless block. */
  lemma {:induction false} ScanFindsEndlessBlock(text: string, pos: nat)
    requires pos <= |text|
    ensures EndlessBlock(text, pos) == Start(Scan(text, pos, None))
    decreases |text| - pos
  {
    var end := LineEnd(text, pos);
    if FenceOf(LineAt(text, pos)).None? || end == |text| {
      ScanStep(text, pos, None);
      hide FenceOf, LineEnd, FirstCloser, Scan, LineAt;
      if end < |text| {
        ScanFindsEndlessBlock(text, end + 1);
      }
    } else {
      ScanFromOpener(text, pos);
      EndlessFromOpener(text, pos);
      var c := BlockEnd(text, pos);
      if c.Some? {
        AfterFindsEndless(text, c.value);
      }
    }
  }

  lemma {:induction false} AfterFindsEndless(text: string, closer: nat)
    requires closer <= |text|
    ensures EndlessAfter(text, closer) == Start(AfterBlock(text, closer))
    decreases |text| - closer
  {
    hide Scan, EndlessBlock, LineEnd;
    if LineEnd(text, closer) < |text| {
      ScanFindsEndlessBlock(text, LineEnd(text, closer) + 1);
    }
  }
}
