/**
 * Reading a file line by line in chunks (daemon/src/logStore.ts, readLinesSync).
 *
 * The specification splits the whole content at its newlines. The reader sees it
 * only in pieces, carrying an unfinished line from one to the next.
 */
module LineReader {
  import opened Common

  predicate OneLine(s: string) {
    forall i :: 0 <= i < |s| ==> s[i] != '\n'
  }

  predicate OneLineEach(lines: seq<string>) {
    forall i :: 0 <= i < |lines| ==> OneLine(lines[i])
  }

  /** The position of the first newline, or the length when there is none. */
  function FirstNewline(s: string): (i: nat)
    ensures i <= |s|
    ensures forall k :: 0 <= k < i ==> s[k] != '\n'
    ensures i < |s| ==> s[i] == '\n'
  {
    if s == "" || s[0] == '\n' then 0 else 1 + FirstNewline(s[1..])
  }

  /** Every line ended by a newline. */
  function CompleteLines(s: string): seq<string>
    decreases |s|
  {
    var i := FirstNewline(s);
    if i == |s| then [] else [s[..i]] + CompleteLines(s[i + 1..])
  }

  /** What follows the last newline. */
  function Remainder(s: string): string
    decreases |s|
  {
    var i := FirstNewline(s);
    if i == |s| then s else Remainder(s[i + 1..])
  }

  /** The lines a reader is given: a last, unterminated one counts only if it is not blank. */
  function AllLines(s: string): seq<string> {
    CompleteLines(s) + if IsBlank(Remainder(s)) then [] else [Remainder(s)]
  }

  /** A file that is not there has no lines. */
  function FileLines(file: Option<string>): seq<string> {
    if file.None? then [] else AllLines(file.value)
  }

  /** The text made of these lines, each ended by a newline, and of `rest`. */
  function Unlines(lines: seq<string>, rest: string): string {
    if lines == [] then rest else lines[0] + "\n" + Unlines(lines[1..], rest)
  }

  lemma FirstNewlineOf(line: string, rest: string)
    requires OneLine(line)
    ensures FirstNewline(line + "\n" + rest) == |line|
  {
    var s := line + "\n" + rest;
    assert s[|line|] == '\n';
    assert forall k :: 0 <= k < |line| ==> s[k] == line[k];
  }

  /** The first line comes off the front. */
  lemma FirstLineOff(line: string, tail: string)
    requires OneLine(line)
    ensures CompleteLines(line + "\n" + tail) == [line] + CompleteLines(tail)
    ensures Remainder(line + "\n" + tail) == Remainder(tail)
  {
    var s := line + "\n" + tail;
    FirstNewlineOf(line, tail);
    assert s[..|line|] == line;
    assert s[|line| + 1..] == tail;
  }

  /** Taking the complete lines off the front of a text leaves those of the rest. */
  lemma {:induction false} LinesOfUnlines(lines: seq<string>, rest: string)
    requires OneLineEach(lines)
    ensures CompleteLines(Unlines(lines, rest)) == lines + CompleteLines(rest)
    ensures Remainder(Unlines(lines, rest)) == Remainder(rest)
  {
    hide CompleteLines, Remainder;
    if lines == [] {
      assert lines + CompleteLines(rest) == CompleteLines(rest);
    } else {
      FirstLineOff(lines[0], Unlines(lines[1..], rest));
      LinesOfUnlines(lines[1..], rest);
      assert [lines[0]] + (lines[1..] + CompleteLines(rest)) == lines + CompleteLines(rest);
    }
  }

  lemma NoNewlineNoLines(s: string)
    requires OneLine(s)
    ensures CompleteLines(s) == [] && Remainder(s) == s
  {
  }

  /** Splitting loses nothing: the lines and the remainder make up the text again. */
  lemma {:induction false} SplitRebuilds(s: string)
    ensures OneLineEach(CompleteLines(s)) && OneLine(Remainder(s))
    ensures Unlines(CompleteLines(s), Remainder(s)) == s
    decreases |s|
  {
    var i := FirstNewline(s);
    if i == |s| {
      assert s[..i] == s;
    } else {
      var rest := s[i + 1..];
      SplitRebuilds(rest);
      var lines := CompleteLines(s);
      assert lines[0] == s[..i] && lines[1..] == CompleteLines(rest);
      assert s == s[..i] + "\n" + rest by {
        assert s == s[..i] + [s[i]] + s[i + 1..];
      }
    }
  }

  /** ... and it is the only way to write the text as newline-free lines and a newline-free rest. */
  lemma SplitUnique(s: string, lines: seq<string>, rest: string)
    requires OneLineEach(lines) && OneLine(rest)
    ensures Unlines(lines, rest) == s <==> (CompleteLines(s) == lines && Remainder(s) == rest)
  {
    LinesOfUnlines(lines, rest);
    NoNewlineNoLines(rest);
    assert lines + [] == lines;
    SplitRebuilds(s);
  }

  lemma {:induction false} UnlinesAppend(lines: seq<string>, line: string, rest: string)
    ensures Unlines(lines + [line], rest) == Unlines(lines, line + "\n" + rest)
  {
    if lines == [] {
      assert Unlines([line], rest) == line + "\n" + Unlines([], rest);
    } else {
      UnlinesAppend(lines[1..], line, rest);
      assert (lines + [line])[1..] == lines[1..] + [line];
    }
  }

  lemma {:induction false} UnlinesConcat(lines: seq<string>, rest: string, more: string)
    ensures Unlines(lines, rest) + more == Unlines(lines, rest + more)
  {
    if lines == [] {
    } else {
      UnlinesConcat(lines[1..], rest, more);
      assert lines[0] + "\n" + Unlines(lines[1..], rest) + more == lines[0] + "\n" + (Unlines(lines[1..], rest) + more);
    }
  }

  /**
   * `given` is what a callback receives out of `all`: every line in order, up to and
   * including the first after which it asks to stop. The callback's answer depends on
   * everything it has been given, so `more` is applied to that whole history.
   */
  ghost predicate GivenOf(given: seq<string>, all: seq<string>, more: seq<string> -> bool) {
    && given <= all
    && (forall k :: 0 < k < |given| ==> more(all[..k]))
    && (given == all || (given != [] && !more(given)))
  }

  /** That is one sequence, whatever the chunks were. */
  lemma GivenUnique(a: seq<string>, b: seq<string>, all: seq<string>, more: seq<string> -> bool)
    requires GivenOf(a, all, more) && GivenOf(b, all, more)
    ensures a == b
  {
    assert a == all[..|a|] && b == all[..|b|];
  }

  /** The callback asked for more after everything it has been given so far. */
  ghost predicate Wanted(given: seq<string>, more: seq<string> -> bool) {
    forall k :: 0 < k <= |given| ==> more(given[..k])
  }

  lemma WantedSnoc(given: seq<string>, line: string, all: seq<string>, more: seq<string> -> bool)
    requires Wanted(given, more) && given + [line] <= all
    ensures more(given + [line]) ==> Wanted(given + [line], more)
    ensures !more(given + [line]) || given + [line] == all ==> GivenOf(given + [line], all, more)
  {
    var next := given + [line];
    assert next[..|next|] == next;
    assert forall k :: 0 < k <= |given| ==> next[..k] == given[..k] && all[..k] == given[..k];
  }

  /** Handing over the first line of what is carried keeps the account of the whole content. */
  lemma TakeLine(given: seq<string>, carry: string, ahead: string, content: string)
    requires OneLineEach(given)
    requires FirstNewline(carry) < |carry|
    requires Unlines(given, carry + ahead) == content
    ensures var i := FirstNewline(carry);
            var next := given + [carry[..i]];
            && OneLineEach(next)
            && Unlines(next, carry[i + 1..] + ahead) == content
            && next <= AllLines(content)
  {
    hide Unlines, CompleteLines, Remainder, FirstNewline;
    var i := FirstNewline(carry);
    var line, rest := carry[..i], carry[i + 1..] + ahead;
    CutAt(carry, i, ahead);
    assert OneLine(line);
    hide OneLine;
    UnlinesAppend(given, line, rest);
    LinesOfUnlines(given + [line], rest);
  }

  lemma CutAt(carry: string, i: nat, ahead: string)
    requires i < |carry| && carry[i] == '\n'
    ensures carry + ahead == carry[..i] + "\n" + (carry[i + 1..] + ahead)
  {
    assert carry == carry[..i] + [carry[i]] + carry[i + 1..];
  }

  lemma NothingRead(content: string)
    ensures Unlines([], "" + content[0..]) == content
  {
  }

  /** At the end of the file what is still carried is a last line, if it is not blank. */
  lemma EndOfFile(given: seq<string>, carry: string, content: string)
    requires OneLineEach(given) && OneLine(carry)
    requires Unlines(given, carry) == content
    ensures AllLines(content) == given + if IsBlank(carry) then [] else [carry]
  {
    SplitUnique(content, given, carry);
  }

  /**
   * The chunked reader. Each read returns between one and `chunkBytes` of the bytes
   * left. A file that cannot be opened is read as empty.
   */
  method ReadLines(file: Option<string>, more: seq<string> -> bool, chunkBytes: nat) returns (given: seq<string>)
    requires chunkBytes >= 1
    ensures GivenOf(given, FileLines(file), more)
  {
    hide Unlines, AllLines, IsBlank;
    given := [];
    if file.None? {
      return;
    }
    var content := file.value;
    var pos := 0;
    var carry := "";
    NothingRead(content);
    while pos < |content|
      invariant 0 <= pos <= |content|
      invariant OneLineEach(given) && OneLine(carry) && Wanted(given, more)
      invariant Unlines(given, carry + content[pos..]) == content
    {
      var bytesRead :| 1 <= bytesRead && bytesRead <= chunkBytes && bytesRead <= |content| - pos;
      assert carry + content[pos..] == (carry + content[pos..pos + bytesRead]) + content[pos + bytesRead..];
      carry := carry + content[pos..pos + bytesRead];
      pos := pos + bytesRead;
      var newlineIdx := FirstNewline(carry);
      while newlineIdx < |carry|
        invariant newlineIdx == FirstNewline(carry)
        invariant OneLineEach(given) && Wanted(given, more)
        invariant Unlines(given, carry + content[pos..]) == content
        decreases |carry|
      {
        TakeLine(given, carry, content[pos..], content);
        var line := carry[..newlineIdx];
        WantedSnoc(given, line, AllLines(content), more);
        carry := carry[newlineIdx + 1..];
        given := given + [line];
        if !more(given) {
          return;
        }
        newlineIdx := FirstNewline(carry);
      }
    }
    assert carry + content[pos..] == carry;
    EndOfFile(given, carry, content);
    if |carry| > 0 && !IsBlank(carry) {
      WantedSnoc(given, carry, AllLines(content), more);
      given := given + [carry];
    } else {
      EmptyIsBlank();
      assert AllLines(content) == given;
      assert forall k :: 0 < k < |given| ==> AllLines(content)[..k] == given[..k];
    }
  }

  lemma EmptyIsBlank()
    ensures IsBlank("")
  {
  }
}
