/**
 * A session's transcript on disk: numbered archives and one active file
 * (daemon/src/logStore.ts).
 */
module LogStore {
  import opened Common
  import opened LineReader

  datatype ChatEvent =
    | UserMessage(text: string, clientMessageId: string) // "" when the client sent none
    | Other(body: string)

  /** `seqNo` is the field the source calls `seq`. */
  datatype PersistedEvent = PersistedEvent(seqNo: nat, ts: int, event: ChatEvent)

  /** How an event is written on one line and read back: JSON, seen from outside. */
  datatype Codec = Codec(stringify: PersistedEvent -> string, parse: string -> Option<PersistedEvent>)
  {
    /** What JSON promises: a printed event is one non-blank line that parses to itself. */
    ghost predicate RoundTrips() {
      forall e: PersistedEvent :: PrintsOneLine(e) && parse(stringify(e)) == Some(e)
    }

    ghost predicate PrintsOneLine(e: PersistedEvent) {
      OneLine(stringify(e)) && !IsBlank(stringify(e))
    }

    /** Blank and corrupt lines are skipped. */
    function ParseLine(line: string): Option<PersistedEvent> {
      if IsBlank(line) then None else parse(line)
    }

    function ParseAll(lines: seq<string>): seq<PersistedEvent> {
      if lines == [] then [] else
        var line := ParseLine(lines[|lines| - 1]);
        ParseAll(lines[..|lines| - 1]) + if line.Some? then [line.value] else []
    }

    function FileEvents(file: Option<string>): seq<PersistedEvent> {
      ParseAll(FileLines(file))
    }

    /** Every valid event of the files, in file order. */
    function AllEvents(files: seq<Option<string>>): seq<PersistedEvent> {
      if files == [] then [] else AllEvents(files[..|files| - 1]) + FileEvents(files[|files| - 1])
    }
  }

  lemma {:induction false} ParseAllConcat(codec: Codec, a: seq<string>, b: seq<string>)
    ensures codec.ParseAll(a + b) == codec.ParseAll(a) + codec.ParseAll(b)
  {
    if b == [] {
      assert a + b == a;
    } else {
      var init := b[..|b| - 1];
      ParseAllConcat(codec, a, init);
      assert (a + b)[..|a + b| - 1] == a + init;
    }
  }

  lemma {:induction false} AllEventsConcat(codec: Codec, a: seq<Option<string>>, b: seq<Option<string>>)
    ensures codec.AllEvents(a + b) == codec.AllEvents(a) + codec.AllEvents(b)
  {
    hide Codec.FileEvents;
    if b == [] {
      assert a + b == a;
    } else {
      var init := b[..|b| - 1];
      AllEventsConcat(codec, a, init);
      assert (a + b)[..|a + b| - 1] == a + init;
      assert codec.AllEvents(a) + (codec.AllEvents(init) + codec.FileEvents(b[|b| - 1]))
          == codec.AllEvents(a) + codec.AllEvents(init) + codec.FileEvents(b[|b| - 1]);
    }
  }

  /** A file to which a line can be added: empty, or ended by a newline. */
  ghost predicate Whole(file: Option<string>) {
    file.Some? ==> Remainder(file.value) == ""
  }

  /** What appending a line does to any file: it is glued to whatever followed the last newline. */
  lemma AppendGlues(codec: Codec, text: string, line: string)
    requires OneLine(line)
    ensures codec.FileEvents(Some(text + (line + "\n")))
         == codec.ParseAll(CompleteLines(text) + [Remainder(text) + line])
    ensures Remainder(text + (line + "\n")) == ""
  {
    hide Codec.ParseAll;
    var lines, rest := CompleteLines(text), Remainder(text);
    SplitRebuilds(text);
    UnlinesConcat(lines, rest, line + "\n");
    UnlinesAppend(lines, rest + line, "");
    assert rest + line + "\n" + "" == rest + (line + "\n");
    hide CompleteLines, Remainder, Unlines, IsBlank;
    assert OneLineEach(lines + [rest + line]) && OneLine("");
    SplitUnique(text + (line + "\n"), lines + [rest + line], "");
    EmptyIsBlank();
    assert AllLines(text + (line + "\n")) == lines + [rest + line];
  }

  /** Appending one printed event to a whole file adds exactly that event, and leaves it whole. */
  lemma AppendedLine(codec: Codec, text: string, e: PersistedEvent)
    requires codec.RoundTrips() && Whole(Some(text))
    ensures codec.FileEvents(Some(text + (codec.stringify(e) + "\n"))) == codec.FileEvents(Some(text)) + [e]
    ensures Whole(Some(text + (codec.stringify(e) + "\n")))
  {
    assert codec.PrintsOneLine(e);
    var line, lines := codec.stringify(e), CompleteLines(text);
    AppendGlues(codec, text, line);
    EmptyIsBlank();
    assert AllLines(text) == lines;
    assert "" + line == line;
    ParseAllConcat(codec, lines, [line]);
    assert codec.ParseAll([line]) == [e];
  }

  // ---------- reading -------------------------------------------------------

  lemma LastPush<T>(s: seq<T>, x: T, n: nat)
    ensures var t := Last(s, n) + [x];
            Last(s + [x], n) == if |t| > n then t[1..] else t
  {
  }

  /** The callback of a load, over the lines of one file: each valid event is pushed onto the tail. */
  method PushAll(codec: Codec, given: seq<string>, ghost before: seq<PersistedEvent>,
                 tail0: seq<PersistedEvent>, maxTail: nat)
    returns (tail: seq<PersistedEvent>, fileCount: nat)
    requires tail0 == Last(before, maxTail)
    ensures tail == Last(before + codec.ParseAll(given), maxTail)
    ensures fileCount == |codec.ParseAll(given)|
  {
    hide Last, Codec.ParseLine;
    tail, fileCount := tail0, 0;
    ghost var seen := before;
    for i := 0 to |given|
      invariant seen == before + codec.ParseAll(given[..i])
      invariant tail == Last(seen, maxTail)
      invariant fileCount == |codec.ParseAll(given[..i])|
    {
      assert given[..i + 1][..i] == given[..i];
      var event := codec.ParseLine(given[i]);
      if event.Some? {
        LastPush(seen, event.value, maxTail);
        seen := seen + [event.value];
        fileCount := fileCount + 1;
        tail := tail + [event.value];
        if |tail| > maxTail {
          tail := tail[1..];
        }
      }
    }
    assert given[..|given|] == given;
  }

  method LoadFile(codec: Codec, file: Option<string>, ghost before: seq<PersistedEvent>,
                  tail0: seq<PersistedEvent>, maxTail: nat, chunkBytes: nat)
    returns (tail: seq<PersistedEvent>, fileCount: nat)
    requires chunkBytes >= 1
    requires tail0 == Last(before, maxTail)
    ensures tail == Last(before + codec.FileEvents(file), maxTail)
    ensures fileCount == |codec.FileEvents(file)|
  {
    hide Last, Codec.ParseAll, FileLines;
    var given := ReadLines(file, _ => true, chunkBytes);
    tail, fileCount := PushAll(codec, given, before, tail0, maxTail);
  }

  /** The whole history is counted, and its newest `maxTail` events are kept. */
  method LoadTailAndCount(codec: Codec, files: seq<Option<string>>, maxTail: nat, chunkBytes: nat)
    returns (tail: seq<PersistedEvent>, count: nat, perFile: seq<nat>)
    requires chunkBytes >= 1
    ensures tail == Last(codec.AllEvents(files), maxTail)
    ensures count == |codec.AllEvents(files)|
    ensures |perFile| == |files|
    ensures forall i :: 0 <= i < |files| ==> perFile[i] == |codec.FileEvents(files[i])|
  {
    hide Codec.FileEvents;
    tail, count, perFile := [], 0, [];
    for f := 0 to |files|
      invariant tail == Last(codec.AllEvents(files[..f]), maxTail)
      invariant count == |codec.AllEvents(files[..f])|
      invariant |perFile| == f
      invariant forall i :: 0 <= i < f ==> perFile[i] == |codec.FileEvents(files[i])|
    {
      assert files[..f + 1][..f] == files[..f];
      var fileCount;
      tail, fileCount := LoadFile(codec, files[f], codec.AllEvents(files[..f]), tail, maxTail, chunkBytes);
      count := count + fileCount;
      perFile := perFile + [fileCount];
    }
    assert files[..|files|] == files;
  }

  lemma SlicePush<T>(s: seq<T>, x: T, start: nat)
    ensures Slice(s + [x], start, |s| + 1) == Slice(s, start, |s|) + if |s| >= start then [x] else []
  {
  }

  /** The callback of a range read, over the lines of one file that it was given. */
  method KeepFrom(codec: Codec, given: seq<string>, ghost before: seq<PersistedEvent>,
                  start: nat, out0: seq<PersistedEvent>, idx0: nat)
    returns (out: seq<PersistedEvent>, idx: nat)
    requires idx0 == |before|
    requires out0 == Slice(before, start, |before|)
    ensures idx == |before + codec.ParseAll(given)|
    ensures out == Slice(before + codec.ParseAll(given), start, idx)
  {
    out, idx := out0, idx0;
    hide Slice;
    ghost var seen := before;
    for i := 0 to |given|
      invariant seen == before + codec.ParseAll(given[..i])
      invariant idx == |seen|
      invariant out == Slice(seen, start, idx)
    {
      assert given[..i + 1][..i] == given[..i];
      var event := codec.ParseLine(given[i]);
      if event.Some? {
        SlicePush(seen, event.value, start);
        seen := seen + [event.value];
        if idx >= start {
          out := out + [event.value];
        }
        idx := idx + 1;
      }
    }
    assert given[..|given|] == given;
  }

  /** Reading stops on the line that completes the range, never past it. */
  lemma RangeStops(codec: Codec, given: seq<string>, lines: seq<string>, before: seq<PersistedEvent>,
                   end: nat, more: seq<string> -> bool)
    requires |before| < end
    requires forall h :: more(h) == (|before| + |codec.ParseAll(h)| < end)
    requires GivenOf(given, lines, more)
    ensures before + codec.ParseAll(given) <= before + codec.ParseAll(lines)
    ensures |before + codec.ParseAll(given)| <= end
    ensures |before + codec.ParseAll(given)| < end ==> given == lines
  {
    var unread := lines[|given|..];
    assert lines == given + unread;
    ParseAllConcat(codec, given, unread);
    assert before + codec.ParseAll(lines) == before + codec.ParseAll(given) + codec.ParseAll(unread);
    if |given| > 0 {
      var init := given[..|given| - 1];
      assert init == lines[..|given| - 1];
      assert |init| > 0 ==> more(init);
      assert |codec.ParseAll(given)| <= |codec.ParseAll(init)| + 1;
    }
  }

  /** One file's share of a range read: the lines up to the one that completes the range. */
  method ReadRangeOfFile(codec: Codec, file: Option<string>, ghost before: seq<PersistedEvent>,
                         start: nat, end: nat, out0: seq<PersistedEvent>, idx0: nat, chunkBytes: nat)
    returns (out: seq<PersistedEvent>, idx: nat, ghost seen: seq<PersistedEvent>)
    requires chunkBytes >= 1
    requires idx0 == |before| < end
    requires out0 == Slice(before, start, |before|)
    ensures seen <= before + codec.FileEvents(file)
    ensures idx == |seen| <= end
    ensures out == Slice(seen, start, |seen|)
    ensures idx < end ==> seen == before + codec.FileEvents(file)
  {
    hide Slice, GivenOf, Codec.ParseAll, FileLines;
    var more := (h: seq<string>) => idx0 + |codec.ParseAll(h)| < end;
    var given := ReadLines(file, more, chunkBytes);
    out, idx := KeepFrom(codec, given, before, start, out0, idx0);
    seen := before + codec.ParseAll(given);
    RangeStops(codec, given, FileLines(file), before, end, more);
  }

  /** The events at positions `[start, end)` across all files. */
  method ReadRange(codec: Codec, files: seq<Option<string>>, start: nat, end: nat, chunkBytes: nat)
    returns (out: seq<PersistedEvent>)
    requires chunkBytes >= 1
    ensures out == Slice(codec.AllEvents(files), start, end)
  {
    hide Codec.FileEvents;
    out := [];
    var idx := 0;
    var f := 0;
    ghost var seen := [];
    while f < |files| && idx < end
      invariant 0 <= f <= |files|
      invariant seen <= codec.AllEvents(files[..f])
      invariant idx == |seen| <= end
      invariant out == Slice(seen, start, |seen|)
      invariant idx < end ==> seen == codec.AllEvents(files[..f])
    {
      assert files[..f + 1][..f] == files[..f];
      out, idx, seen := ReadRangeOfFile(codec, files[f], seen, start, end, out, idx, chunkBytes);
      f := f + 1;
    }
    assert files == files[..f] + files[f..];
    AllEventsConcat(codec, files[..f], files[f..]);
    assert f == |files| ==> files[..f] == files;
  }

  // ---------- the files of one session --------------------------------------

  ghost predicate IsAscending(gens: seq<nat>) {
    forall i, j :: 0 <= i < j < |gens| ==> gens[i] < gens[j]
  }

  ghost predicate Lists(gens: seq<nat>, s: set<nat>) {
    IsAscending(gens) && (forall g :: g in gens <==> g in s)
  }

  /** A set has one ascending listing. */
  lemma {:induction false} ListingUnique(a: seq<nat>, b: seq<nat>, s: set<nat>)
    requires Lists(a, s) && Lists(b, s)
    ensures a == b
    decreases |a|
  {
    assert a != [] ==> a[0] in b;
    if b == [] {
    } else {
      assert b[0] in a && a[0] in b;
      assert a[0] == b[0];
      var rest := s - {a[0]};
      assert a == [a[0]] + a[1..] && b == [b[0]] + b[1..];
      assert forall g :: g in a[1..] <==> g in rest;
      assert forall g :: g in b[1..] <==> g in rest;
      ListingUnique(a[1..], b[1..], rest);
    }
  }

  function InsertAscending(gens: seq<nat>, g: nat): seq<nat> {
    if gens == [] then [g]
    else if g < gens[0] then [g] + gens
    else [gens[0]] + InsertAscending(gens[1..], g)
  }

  lemma {:induction false} InsertLists(gens: seq<nat>, g: nat, s: set<nat>)
    requires Lists(gens, s) && g !in s
    ensures Lists(InsertAscending(gens, g), s + {g})
  {
    if gens != [] && gens[0] < g {
      var rest, tail := s - {gens[0]}, gens[1..];
      assert gens == [gens[0]] + tail;
      InsertLists(tail, g, rest);
      var r := InsertAscending(tail, g);
      forall i | 0 <= i < |r|
        ensures gens[0] < r[i]
      {
        assert r[i] in r;
        assert r[i] == g || r[i] in tail;
      }
    }
  }

  /** A set of generations, lowest first. */
  ghost function Ascending(s: set<nat>): (gens: seq<nat>)
    ensures Lists(gens, s)
  {
    if s == {} then [] else
      var g :| g in s;
      InsertLists(Ascending(s - {g}), g, s - {g});
      assert s - {g} + {g} == s;
      InsertAscending(Ascending(s - {g}), g)
  }

  /** The generation the active file becomes: one above the last. */
  function NextGeneration(gens: seq<nat>): nat {
    if |gens| > 0 then gens[|gens| - 1] + 1 else 1
  }

  /** The generation a rotation gives its file. */
  ghost function NewGeneration(archives: map<nat, string>): (g: nat)
    ensures forall earlier :: earlier in archives ==> earlier < g
    ensures if archives == map[] then g == 1 else g >= 1 && g - 1 in archives
  {
    var gens := Ascending(archives.Keys);
    assert gens != [] ==> gens[|gens| - 1] in gens;
    assert archives != map[] ==> archives.Keys != {};
    assert gens == [] ==> forall g :: g !in archives.Keys;
    NextIsAboveAll(Ascending(archives.Keys), archives.Keys);
    NextGeneration(Ascending(archives.Keys))
  }

  lemma NextIsAboveAll(gens: seq<nat>, s: set<nat>)
    requires Lists(gens, s)
    ensures forall g :: g in s ==> g < NextGeneration(gens)
  {
    forall g | g in s
      ensures g < NextGeneration(gens)
    {
      assert g in gens;
      var i :| 0 <= i < |gens| && gens[i] == g;
    }
  }

  /** The texts of these archives, in this order. */
  ghost function ArchiveTexts(archives: map<nat, string>, gens: seq<nat>): (texts: seq<Option<string>>)
    ensures |texts| == |gens|
    ensures forall i :: 0 <= i < |gens| && gens[i] in archives ==> texts[i] == Some(archives[gens[i]])
  {
    seq(|gens|, i requires 0 <= i < |gens| => if gens[i] in archives then Some(archives[gens[i]]) else None)
  }

  /** Every file in chronological order: archives by generation, then the active one. */
  ghost function ChronologicalTexts(archives: map<nat, string>, active: Option<string>): seq<Option<string>> {
    ArchiveTexts(archives, Ascending(archives.Keys)) + [active]
  }

  lemma NothingInNoFile(codec: Codec)
    ensures codec.FileEvents(None) == []
  {
  }

  /** A generation above all others is listed last. */
  lemma AscendingSnoc(s: set<nat>, g: nat)
    requires forall x :: x in s ==> x < g
    ensures Ascending(s + {g}) == Ascending(s) + [g]
  {
    hide Ascending;
    var gens := Ascending(s);
    assert forall i :: 0 <= i < |gens| ==> gens[i] in gens;
    ListingUnique(Ascending(s + {g}), gens + [g], s + {g});
  }

  /** Renaming the active file to a generation above all others leaves the events as they were. */
  lemma RotationKeepsEvents(codec: Codec, archives: map<nat, string>, text: string, nextGen: nat)
    requires forall g :: g in archives ==> g < nextGen
    ensures codec.AllEvents(ChronologicalTexts(archives[nextGen := text], None))
         == codec.AllEvents(ChronologicalTexts(archives, Some(text)))
  {
    hide Ascending, ArchiveTexts, IsAscending, Codec.FileEvents;
    var gens, after := Ascending(archives.Keys), archives[nextGen := text];
    assert after.Keys == archives.Keys + {nextGen};
    AscendingSnoc(archives.Keys, nextGen);
    var before := ChronologicalTexts(archives, Some(text));
    assert forall i :: 0 <= i < |gens| ==> gens[i] in gens;
    assert ArchiveTexts(after, gens + [nextGen]) == before;
    var none: seq<Option<string>> := [None];
    AllEventsConcat(codec, before, none);
    assert none[..0] == [];
    NothingInNoFile(codec);
    assert codec.AllEvents(none) == [];
  }

  class SessionFiles {
    /** Generation number -> text of `<id>.jsonl.<n>`. */
    var archives: map<nat, string>
    /** Text of `<id>.jsonl`, when it exists. */
    var active: Option<string>

    constructor ()
      ensures archives == map[] && active == None
    {
      archives, active := map[], None;
    }

    ghost function Texts(): seq<Option<string>>
      reads this
    {
      ChronologicalTexts(archives, active)
    }

    /** The directory lists names in any order; generations come back lowest first. */
    method ListArchiveGenerations() returns (gens: seq<nat>)
      ensures gens == Ascending(archives.Keys)
    {
      gens := [];
      var names := archives.Keys;
      while names != {}
        invariant names <= archives.Keys
        invariant Lists(gens, archives.Keys - names)
      {
        var g :| g in names;
        InsertLists(gens, g, archives.Keys - names);
        names := names - {g};
        gens := InsertAscending(gens, g);
        assert archives.Keys - names - {g} + {g} == archives.Keys - names;
      }
      assert archives.Keys - names == archives.Keys;
      ListingUnique(gens, Ascending(archives.Keys), archives.Keys);
    }

    method AllLogFiles() returns (files: seq<Option<string>>)
      ensures files == Texts()
    {
      hide Ascending, ArchiveTexts;
      var gens := ListArchiveGenerations();
      files := [];
      for i := 0 to |gens|
        invariant files == ArchiveTexts(archives, gens)[..i]
      {
        assert gens[i] in gens;
        files := files + [Some(archives[gens[i]])];
      }
      files := files + [active];
    }

    /**
     * Move the active file to a new generation. `renameOk` is the file system's answer.
     * No archive is touched, and the events on disk stay the same.
     */
    method RotateActiveLog(renameOk: bool, ghost codec: Codec) returns (rotated: bool)
      modifies this
      ensures rotated == (old(active).Some? && renameOk)
      ensures !rotated ==> archives == old(archives) && active == old(active)
      ensures rotated ==> active.None? && archives == old(archives)[NewGeneration(old(archives)) := old(active).value]
      ensures forall g :: g in old(archives) ==> g in archives && archives[g] == old(archives[g])
      ensures codec.AllEvents(Texts()) == old(codec.AllEvents(Texts()))
    {
      hide Ascending, ChronologicalTexts, Codec.AllEvents, Lists, NextGeneration;
      if active.None? {
        return false;
      }
      var gens := ListArchiveGenerations();
      var nextGen := NextGeneration(gens);
      if !renameOk {
        return false;
      }
      NextIsAboveAll(gens, archives.Keys);
      RotationKeepsEvents(codec, archives, active.value, nextGen);
      archives, active := archives[nextGen := active.value], None;
      return true;
    }
  }
}
