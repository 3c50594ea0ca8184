/**
 * Tokens through Claude over a rolling hour (daemon/src/tokenFlow.ts). The meter keeps only
 * the calls and message ids of the last hour; the specification keeps every call ever counted.
 */
module TokenFlow {
  import opened Common
  import opened OrderedMap

  const HOUR: nat := 3_600_000
  const MINUTE: nat := 60_000
  const FIVE_MINUTES: nat := 300_000

  datatype TokenCounts = TokenCounts(input: nat, cacheWrite: nat, cacheRead: nat, output: nat, processed: nat)

  const Zero := TokenCounts(0, 0, 0, 0, 0)

  function Plus(a: TokenCounts, b: TokenCounts): TokenCounts {
    TokenCounts(a.input + b.input, a.cacheWrite + b.cacheWrite, a.cacheRead + b.cacheRead,
                a.output + b.output, a.processed + b.processed)
  }

  datatype Call = Call(at: int, sessionId: string, counts: TokenCounts)

  /** A usage report. A field that is absent or not a number is `None`. */
  datatype Usage = Usage(input: Option<int>, cacheWrite: Option<int>, cacheRead: Option<int>, output: Option<int>)

  function Num(v: Option<int>): nat {
    if v.Some? && v.value > 0 then v.value else 0
  }

  function CountsOf(u: Usage): TokenCounts {
    var input, cacheWrite, output := Num(u.input), Num(u.cacheWrite), Num(u.output);
    TokenCounts(input, cacheWrite, Num(u.cacheRead), output, input + cacheWrite + output)
  }

  /** A count that is missing or below zero is none. */
  lemma NumMeans(v: Option<int>)
    ensures v.Some? && v.value >= 0 ==> Num(v) == v.value
    ensures IsNone(v) <==> Num(v) == 0
  {
  }

  /** The counts are those reported; all but what was read from the cache is work. */
  lemma CountsMean(u: Usage)
    ensures var c := CountsOf(u);
            && c.processed + c.cacheRead == c.input + c.cacheWrite + c.cacheRead + c.output
            && c.input == Num(u.input) && c.cacheWrite == Num(u.cacheWrite)
            && c.cacheRead == Num(u.cacheRead) && c.output == Num(u.output)
            && (IsEmpty(c) <==> IsNone(u.input) && IsNone(u.cacheWrite) && IsNone(u.cacheRead) && IsNone(u.output))
  {
    NumMeans(u.input);
    NumMeans(u.cacheWrite);
    NumMeans(u.cacheRead);
    NumMeans(u.output);
    hide Num, IsNone;
  }

  predicate IsNone(v: Option<int>) {
    v.Some? ==> v.value <= 0
  }

  predicate IsEmpty(c: TokenCounts) {
    c.input + c.cacheWrite + c.cacheRead + c.output == 0
  }

  // ---------- what a window of the complete history holds ------------------------

  /** The calls at or after `from`. */
  function Since(calls: seq<Call>, from: int): seq<Call> {
    if calls == [] then [] else
      var last := calls[|calls| - 1];
      Since(calls[..|calls| - 1], from) + if last.at >= from then [last] else []
  }

  function Sum(calls: seq<Call>): TokenCounts {
    if calls == [] then Zero else Plus(Sum(calls[..|calls| - 1]), calls[|calls| - 1].counts)
  }

  /** New work in one chat, or nothing if the chat made no call. */
  function SumFor(calls: seq<Call>, sessionId: string): Option<int> {
    if calls == [] then None else
      var last := calls[|calls| - 1];
      var before := SumFor(calls[..|calls| - 1], sessionId);
      if last.sessionId != sessionId then before
      else Some((if before.None? then 0 else before.value) + last.counts.processed)
  }

  /** One figure of the calls, added up. */
  function Total(calls: seq<Call>, figure: TokenCounts -> nat): nat {
    if calls == [] then 0 else figure(calls[0].counts) + Total(calls[1..], figure)
  }

  lemma {:induction false} TotalSnoc(calls: seq<Call>, call: Call, figure: TokenCounts -> nat)
    ensures Total(calls + [call], figure) == Total(calls, figure) + figure(call.counts)
  {
    if calls == [] {
      assert ([] + [call])[1..] == [];
    } else {
      TotalSnoc(calls[1..], call, figure);
      assert (calls + [call])[1..] == calls[1..] + [call];
    }
  }

  /** A sum has every figure of every call in it. */
  lemma {:induction false} SumIsTotal(calls: seq<Call>)
    ensures var s := Sum(calls);
            && s.input == Total(calls, (c: TokenCounts) => c.input)
            && s.cacheWrite == Total(calls, (c: TokenCounts) => c.cacheWrite)
            && s.cacheRead == Total(calls, (c: TokenCounts) => c.cacheRead)
            && s.output == Total(calls, (c: TokenCounts) => c.output)
            && s.processed == Total(calls, (c: TokenCounts) => c.processed)
  {
    if calls == [] {
    } else {
      var init, last := calls[..|calls| - 1], calls[|calls| - 1];
      SumIsTotal(init);
      assert init + [last] == calls;
      TotalSnoc(init, last, (c: TokenCounts) => c.input);
      TotalSnoc(init, last, (c: TokenCounts) => c.cacheWrite);
      TotalSnoc(init, last, (c: TokenCounts) => c.cacheRead);
      TotalSnoc(init, last, (c: TokenCounts) => c.output);
      TotalSnoc(init, last, (c: TokenCounts) => c.processed);
    }
  }

  /** The calls of one chat. */
  function OfChat(calls: seq<Call>, sessionId: string): seq<Call> {
    if calls == [] then [] else
      var last := calls[|calls| - 1];
      OfChat(calls[..|calls| - 1], sessionId) + if last.sessionId == sessionId then [last] else []
  }

  /** A chat's sum is the new work of all its calls, and there is none exactly for a chat without calls. */
  lemma {:induction false} SumForIsTotal(calls: seq<Call>, sessionId: string)
    ensures var own := OfChat(calls, sessionId);
            SumFor(calls, sessionId) == if own == [] then None else Some(Total(own, (c: TokenCounts) => c.processed))
  {
    if calls == [] {
    } else {
      var init, last := calls[..|calls| - 1], calls[|calls| - 1];
      SumForIsTotal(init, sessionId);
      assert OfChat(init, sessionId) + [] == OfChat(init, sessionId);
      assert [] + [last] == [last];
      TotalSnoc(OfChat(init, sessionId), last, (c: TokenCounts) => c.processed);
    }
  }

  ghost predicate InOrder(calls: seq<Call>) {
    forall i, j | 0 <= i <= j < |calls| :: calls[i].at <= calls[j].at
  }

  lemma {:induction false} SinceConcat(a: seq<Call>, b: seq<Call>, from: int)
    ensures Since(a + b, from) == Since(a, from) + Since(b, from)
  {
    if b == [] {
      assert a + b == a;
    } else {
      SinceConcat(a, b[..|b| - 1], from);
      assert (a + b)[..|a + b| - 1] == a + b[..|b| - 1];
    }
  }

  lemma {:induction false} NoneSince(calls: seq<Call>, from: int)
    requires forall i | 0 <= i < |calls| :: calls[i].at < from
    ensures Since(calls, from) == []
  {
    if calls == [] {
    } else {
      NoneSince(calls[..|calls| - 1], from);
    }
  }

  lemma {:induction false} AllSince(calls: seq<Call>, from: int)
    requires forall i | 0 <= i < |calls| :: calls[i].at >= from
    ensures Since(calls, from) == calls
  {
    if calls == [] {
    } else {
      AllSince(calls[..|calls| - 1], from);
    }
  }

  /** How many calls come before the first that is not older than `from`. */
  function CutAt(calls: seq<Call>, from: int): (k: nat)
    ensures k <= |calls| && (k < |calls| ==> calls[k].at >= from)
    ensures forall i | 0 <= i < k :: calls[i].at < from
  {
    if calls == [] || calls[0].at >= from then 0 else 1 + CutAt(calls[1..], from)
  }

  /** Of calls in order, those since a time are the newest ones, cut where that time falls. */
  lemma SinceIsSuffix(calls: seq<Call>, from: int)
    requires InOrder(calls)
    ensures var k := CutAt(calls, from);
            && Since(calls, from) == calls[k..]
            && forall i | 0 <= i < |calls| :: calls[i].at >= from <==> i >= k
  {
    var k := CutAt(calls, from);
    assert forall i | k <= i < |calls| :: calls[k].at <= calls[i].at;
    hide InOrder, CutAt, Since;
    assert calls == calls[..k] + calls[k..];
    SinceConcat(calls[..k], calls[k..], from);
    NoneSince(calls[..k], from);
    AllSince(calls[k..], from);
    assert [] + calls[k..] == calls[k..];
  }

  // ---------- the busiest chats -----------------------------------------------------

  /** Stable, largest first. */
  function InsertByValue(sorted: seq<Entry<int>>, e: Entry<int>): (r: seq<Entry<int>>)
    ensures |r| == |sorted| + 1
  {
    if sorted == [] || sorted[0].value < e.value then [e] + sorted
    else [sorted[0]] + InsertByValue(sorted[1..], e)
  }

  function SortByValue(m: seq<Entry<int>>): (r: seq<Entry<int>>)
    ensures |r| == |m|
  {
    if m == [] then [] else InsertByValue(SortByValue(m[..|m| - 1]), m[|m| - 1])
  }

  ghost predicate Descending(m: seq<Entry<int>>) {
    forall i, j | 0 <= i < j < |m| :: m[i].value >= m[j].value
  }

  lemma {:induction false} InsertSorts(sorted: seq<Entry<int>>, e: Entry<int>)
    requires Descending(sorted)
    ensures Descending(InsertByValue(sorted, e))
    ensures forall x :: x in InsertByValue(sorted, e) <==> x == e || x in sorted
  {
    if sorted != [] && sorted[0].value >= e.value {
      var tail := sorted[1..];
      assert sorted == [sorted[0]] + tail;
      InsertSorts(tail, e);
      var r := InsertByValue(tail, e);
      forall i | 0 <= i < |r|
        ensures sorted[0].value >= r[i].value
      {
        assert r[i] in r;
        assert r[i] == e || r[i] in tail;
      }
    }
  }

  lemma {:induction false} SortSorts(m: seq<Entry<int>>)
    ensures Descending(SortByValue(m))
    ensures forall x :: x in SortByValue(m) <==> x in m
  {
    if m == [] {
    } else {
      SortSorts(m[..|m| - 1]);
      InsertSorts(SortByValue(m[..|m| - 1]), m[|m| - 1]);
      assert m == m[..|m| - 1] + [m[|m| - 1]];
    }
  }

  /** At most five chats, the busiest first, each with its sum; nobody busier is left out. */
  ghost predicate IsTopFive(top: seq<Entry<int>>, calls: seq<Call>) {
    && |top| <= 5
    && Descending(top)
    && (forall i | 0 <= i < |top| :: SumFor(calls, top[i].key) == Some(top[i].value))
    && (forall s | SumFor(calls, s).Some? && Entry(s, SumFor(calls, s).value) !in top ::
          |top| == 5 && SumFor(calls, s).value <= top[4].value)
  }

  /** `recent` holds the new work of every chat that made a call, and of no other. */
  ghost predicate Sums(recent: seq<Entry<int>>, calls: seq<Call>) {
    Unique(recent) && forall s :: Get(recent, s) == SumFor(calls, s)
  }

  function AddRecent(recent: seq<Entry<int>>, call: Call): seq<Entry<int>> {
    var sum := Get(recent, call.sessionId);
    Set(recent, call.sessionId, (if sum.None? then 0 else sum.value) + call.counts.processed)
  }

  lemma AddRecentSums(recent: seq<Entry<int>>, calls: seq<Call>, call: Call)
    requires Sums(recent, calls)
    ensures Sums(AddRecent(recent, call), calls + [call])
  {
    hide Set, Get, SumFor, Unique;
    var sum := Get(recent, call.sessionId);
    var next := (if sum.None? then 0 else sum.value) + call.counts.processed;
    SetKeepsUnique(recent, call.sessionId, next);
    forall s
      ensures Get(AddRecent(recent, call), s) == SumFor(calls + [call], s)
    {
      SetGet(recent, call.sessionId, next, s);
      SumForOneMore(calls, call, s);
    }
  }

  lemma SortedLists(recent: seq<Entry<int>>, calls: seq<Call>, e: Entry<int>)
    requires Sums(recent, calls)
    ensures e in SortByValue(recent) <==> SumFor(calls, e.key) == Some(e.value)
  {
    SortSorts(recent);
    hide SortByValue, Descending, SumFor;
    GetIsListed(recent, e.key, e.value);
  }

  lemma SortedIsTopFive(recent: seq<Entry<int>>, calls: seq<Call>)
    requires Sums(recent, calls)
    ensures IsTopFive(SortByValue(recent)[..Min(5, |recent|)], calls)
  {
    SortSorts(recent);
    var sorted := SortByValue(recent);
    hide SortByValue, SumFor, Sums;
    var top := sorted[..Min(5, |recent|)];
    forall i | 0 <= i < |top|
      ensures SumFor(calls, top[i].key) == Some(top[i].value)
    {
      assert sorted[i] in sorted;
      SortedLists(recent, calls, sorted[i]);
    }
    forall s | SumFor(calls, s).Some? && Entry(s, SumFor(calls, s).value) !in top
      ensures |top| == 5 && SumFor(calls, s).value <= top[4].value
    {
      var e := Entry(s, SumFor(calls, s).value);
      SortedLists(recent, calls, e);
      NotInPrefix(sorted, |top|, e);
    }
  }

  lemma NotInPrefix(sorted: seq<Entry<int>>, n: nat, e: Entry<int>)
    requires Descending(sorted) && n <= |sorted| && e in sorted && e !in sorted[..n]
    ensures n < |sorted|
    ensures n > 0 ==> e.value <= sorted[n - 1].value
  {
    assert forall i | 0 <= i < n :: sorted[i] in sorted[..n];
    var k :| 0 <= k < |sorted| && sorted[k] == e;
  }

  // ---------- what is counted ---------------------------------------------------------

  /** A message id noted, and when. */
  datatype Noted = Noted(id: string, at: int)

  /** Everything that ever happened: the calls counted with their ids, the ids noted, the last prune. */
  datatype Past = Past(history: seq<Call>, ids: seq<string>, notes: seq<Noted>, pruned: Option<int>)

  const NothingYet := Past([], [], [], None)

  function LastNoted(notes: seq<Noted>, id: string): Option<int> {
    if notes == [] then None
    else if notes[|notes| - 1].id == id then Some(notes[|notes| - 1].at)
    else LastNoted(notes[..|notes| - 1], id)
  }

  /** The id was noted, and there has been no prune an hour or more after that. */
  predicate Recalls(past: Past, id: string) {
    var at := LastNoted(past.notes, id);
    at.Some? && (past.pruned.None? || past.pruned.value < at.value + HOUR)
  }

  /** The report is counted: it says something, and its message is not remembered. */
  predicate Counts(past: Past, usage: Option<Usage>, messageId: string) {
    usage.Some? && !IsEmpty(CountsOf(usage.value)) && (messageId == "" || !Recalls(past, messageId))
  }

  /** The report's message id is noted, whether or not there is anything to count. */
  predicate Notes(past: Past, usage: Option<Usage>, messageId: string) {
    usage.Some? && messageId != "" && !Recalls(past, messageId)
  }

  function Recorded(past: Past, sessionId: string, usage: Option<Usage>, messageId: string, now: int): Past {
    var noted := if Notes(past, usage, messageId) then past.(notes := past.notes + [Noted(messageId, now)]) else past;
    if Counts(past, usage, messageId)
    then noted.(history := past.history + [Call(now, sessionId, CountsOf(usage.value))],
                ids := past.ids + [messageId], pruned := Some(now))
    else noted
  }

  /** A report, or a look at the figures. */
  datatype Op =
    | Report(sessionId: string, usage: Option<Usage>, messageId: string, now: int)
    | Look(now: int)

  function Next(past: Past, op: Op): Past {
    match op
    case Report(sessionId, usage, messageId, now) => Recorded(past, sessionId, usage, messageId, now)
    case Look(now) => past.(pruned := Some(now))
  }

  function PastAfter(ops: seq<Op>): Past {
    if ops == [] then NothingYet else Next(PastAfter(ops[..|ops| - 1]), ops[|ops| - 1])
  }

  predicate InTime(ops: seq<Op>) {
    forall i, j | 0 <= i <= j < |ops| :: ops[i].now <= ops[j].now
  }

  predicate NotesAt(ops: seq<Op>, i: nat): (notes: bool)
    requires i < |ops|
    ensures notes ==> ops[i].Report?
  {
    ops[i].Report? && Notes(PastAfter(ops[..i]), ops[i].usage, ops[i].messageId)
  }

  /** The i-th operation prunes: a look, or a report that is counted. */
  predicate PrunesAt(ops: seq<Op>, i: nat)
    requires i < |ops|
  {
    ops[i].Report? ==> Counts(PastAfter(ops[..i]), ops[i].usage, ops[i].messageId)
  }

  /** The i-th operation notes the id, and nothing since then prunes an hour or more later. */
  ghost predicate KeepsNote(ops: seq<Op>, i: int, id: string) {
    && 0 <= i < |ops| && NotesAt(ops, i) && ops[i].messageId == id
    && forall j | i < j < |ops| && PrunesAt(ops, j) :: ops[j].now < ops[i].now + HOUR
  }

  lemma SamePrefix(ops: seq<Op>, i: nat)
    requires i < |ops| - 1
    ensures var before := ops[..|ops| - 1];
            && ops[i] == before[i]
            && (NotesAt(ops, i) <==> NotesAt(before, i)) && (PrunesAt(ops, i) <==> PrunesAt(before, i))
  {
    assert ops[..|ops| - 1][..i] == ops[..i];
  }

  /** One operation more, for an id that is noted before it. */
  lemma NextRecalls(past: Past, op: Op, id: string, clock: int)
    requires past.pruned.Some? ==> past.pruned.value <= clock
    requires clock <= op.now && id != ""
    ensures var next := Next(past, op);
            var notes := op.Report? && Notes(past, op.usage, op.messageId) && op.messageId == id;
            var prunes := op.Report? ==> Counts(past, op.usage, op.messageId);
            && next.pruned == (if prunes then Some(op.now) else past.pruned)
            && LastNoted(next.notes, id) == (if notes then Some(op.now) else LastNoted(past.notes, id))
            && (Recalls(next, id) <==>
                  notes || (Recalls(past, id) && (prunes ==> op.now < LastNoted(past.notes, id).value + HOUR)))
  {
    if op.Report? && Notes(past, op.usage, op.messageId) {
      var notes := past.notes + [Noted(op.messageId, op.now)];
      assert notes[..|notes| - 1] == past.notes;
    }
  }

  /** An id noted by an operation that still keeps it is remembered, and only such an id. */
  ghost predicate RecallsRightly(ops: seq<Op>, id: string) {
    && (PastAfter(ops).pruned.Some? ==> ops != [] && PastAfter(ops).pruned.value <= ops[|ops| - 1].now)
    && (forall i | KeepsNote(ops, i, id) :: LastNoted(PastAfter(ops).notes, id) == Some(ops[i].now))
    && (Recalls(PastAfter(ops), id) <==> exists i :: KeepsNote(ops, i, id))
  }

  /**
   * An id is remembered exactly when some report noted it and nothing pruned an hour or more
   * after that report.
   */
  lemma {:induction false} RecallsExactlyWhen(ops: seq<Op>, id: string)
    requires InTime(ops) && id != ""
    ensures RecallsRightly(ops, id)
  {
    if ops == [] {
    } else {
      var n := |ops| - 1;
      RecallsExactlyWhen(ops[..n], id);
      assert n > 0 ==> ops[n - 1].now <= ops[n].now;
      NextRecallsRightly(ops, id);
    }
  }

  predicate NotesLast(ops: seq<Op>, id: string)
    requires ops != []
  {
    NotesAt(ops, |ops| - 1) && ops[|ops| - 1].messageId == id
  }

  lemma NextRecallsRightly(ops: seq<Op>, id: string)
    requires ops != [] && id != "" && RecallsRightly(ops[..|ops| - 1], id)
    requires |ops| > 1 ==> ops[|ops| - 2].now <= ops[|ops| - 1].now
    ensures RecallsRightly(ops, id)
  {
    hide RecallsRightly, NotesLast;
    if NotesLast(ops, id) {
      RecallsWhenNoted(ops, id);
    } else {
      RecallsWhenNotNoted(ops, id);
    }
  }

  lemma RecallsWhenNoted(ops: seq<Op>, id: string)
    requires ops != [] && id != "" && RecallsRightly(ops[..|ops| - 1], id)
    requires |ops| > 1 ==> ops[|ops| - 2].now <= ops[|ops| - 1].now
    requires NotesLast(ops, id)
    ensures RecallsRightly(ops, id)
  {
    var n := |ops| - 1;
    NextRecallsAt(ops, id);
    hide PastAfter, Recalls, LastNoted, PrunesAt, KeepsNote;
    forall i
      ensures KeepsNote(ops, i, id) <==> i == n
    {
      KeptByBefore(ops, id, i);
    }
    hide NotesAt, RecallsRightly;
    OneNoteIsRight(ops, n, id);
  }

  lemma OneNoteIsRight(ops: seq<Op>, n: nat, id: string)
    requires n == |ops| - 1 && forall i :: KeepsNote(ops, i, id) <==> i == n
    requires PastAfter(ops).pruned.Some? ==> PastAfter(ops).pruned.value <= ops[n].now
    requires LastNoted(PastAfter(ops).notes, id) == Some(ops[n].now) && Recalls(PastAfter(ops), id)
    ensures RecallsRightly(ops, id)
  {
    hide KeepsNote, Recalls, LastNoted, PastAfter;
    assert KeepsNote(ops, n, id);
  }

  lemma RecallsWhenNotNoted(ops: seq<Op>, id: string)
    requires ops != [] && id != "" && RecallsRightly(ops[..|ops| - 1], id)
    requires |ops| > 1 ==> ops[|ops| - 2].now <= ops[|ops| - 1].now
    requires !NotesLast(ops, id)
    ensures RecallsRightly(ops, id)
  {
    var before := ops[..|ops| - 1];
    NextRecallsAt(ops, id);
    hide PastAfter, Recalls, LastNoted, PrunesAt, KeepsNote;
    forall i
      ensures KeepsNote(ops, i, id) <==> 0 <= i < |before| && KeepsNote(before, i, id) && IsSpared(ops, before[i])
    {
      KeptByBefore(ops, id, i);
    }
    hide NotesAt, RecallsRightly;
    SparedNotesAreRight(ops, before, id);
  }

  lemma SparedNotesAreRight(ops: seq<Op>, before: seq<Op>, id: string)
    requires ops != [] && before == ops[..|ops| - 1]
    requires forall i ::
               KeepsNote(ops, i, id) <==> 0 <= i < |before| && KeepsNote(before, i, id) && IsSpared(ops, before[i])
    requires forall i | KeepsNote(before, i, id) :: LastNoted(PastAfter(before).notes, id) == Some(before[i].now)
    requires Recalls(PastAfter(before), id) <==> exists i :: KeepsNote(before, i, id)
    requires PastAfter(ops).pruned.Some? ==> PastAfter(ops).pruned.value <= ops[|ops| - 1].now
    requires LastNoted(PastAfter(ops).notes, id) == LastNoted(PastAfter(before).notes, id)
    requires Recalls(PastAfter(before), id) ==> LastNoted(PastAfter(before).notes, id).Some?
    requires Recalls(PastAfter(ops), id) <==>
               Recalls(PastAfter(before), id)
               && (PrunesAt(ops, |ops| - 1) ==>
                     ops[|ops| - 1].now < LastNoted(PastAfter(before).notes, id).value + HOUR)
    ensures RecallsRightly(ops, id)
  {
    hide PastAfter, Recalls, LastNoted, PrunesAt, KeepsNote;
    if Recalls(PastAfter(ops), id) {
      var i :| KeepsNote(before, i, id);
      IsKept(before, i, id);
      assert KeepsNote(ops, i, id);
    }
  }

  /** The last operation does not prune what this one noted. */
  predicate IsSpared(ops: seq<Op>, noting: Op)
    requires ops != []
  {
    PrunesAt(ops, |ops| - 1) ==> ops[|ops| - 1].now < noting.now + HOUR
  }

  lemma IsKept(ops: seq<Op>, i: int, id: string)
    requires KeepsNote(ops, i, id)
    ensures 0 <= i < |ops|
  {
  }

  lemma NextRecallsAt(ops: seq<Op>, id: string)
    requires ops != [] && id != "" && RecallsRightly(ops[..|ops| - 1], id)
    requires |ops| > 1 ==> ops[|ops| - 2].now <= ops[|ops| - 1].now
    ensures var n := |ops| - 1;
            var p, q := PastAfter(ops[..n]), PastAfter(ops);
            var notes := NotesAt(ops, n) && ops[n].messageId == id;
            && (q.pruned.Some? ==> q.pruned.value <= ops[n].now)
            && (notes ==> !Recalls(p, id))
            && LastNoted(q.notes, id) == (if notes then Some(ops[n].now) else LastNoted(p.notes, id))
            && (Recalls(p, id) ==> LastNoted(p.notes, id).Some?)
            && (Recalls(q, id) <==>
                  notes || (Recalls(p, id) && (PrunesAt(ops, n) ==> ops[n].now < LastNoted(p.notes, id).value + HOUR)))
  {
    var n := |ops| - 1;
    LastPast(ops);
    NextRecalls(PastAfter(ops[..n]), ops[n], id, if n == 0 then ops[n].now else ops[n - 1].now);
    hide PastAfter, LastNoted, Next, KeepsNote, Counts, CountsOf, IsEmpty;
  }

  /** The notes kept after one more operation: its own, and those before that its pruning spares. */
  lemma KeptByBefore(ops: seq<Op>, id: string, i: int)
    requires ops != []
    ensures var n := |ops| - 1;
            KeepsNote(ops, i, id) <==>
              if 0 <= i < n
              then KeepsNote(ops[..n], i, id) && (PrunesAt(ops, n) ==> ops[n].now < ops[..n][i].now + HOUR)
              else i == n && NotesAt(ops, n) && ops[n].messageId == id
  {
    if 0 <= i < |ops| - 1 {
      OneLaterOp(ops, i, id);
    }
    hide NotesAt, PrunesAt;
  }

  lemma LastPast(ops: seq<Op>)
    requires ops != []
    ensures PastAfter(ops) == Next(PastAfter(ops[..|ops| - 1]), ops[|ops| - 1])
  {
  }

  lemma OneLaterOp(ops: seq<Op>, i: nat, id: string)
    requires i < |ops| - 1
    ensures KeepsNote(ops, i, id) <==>
              && KeepsNote(ops[..|ops| - 1], i, id)
              && (PrunesAt(ops, |ops| - 1) ==> ops[|ops| - 1].now < ops[i].now + HOUR)
  {
    hide NotesAt, PrunesAt;
    SamePrefix(ops, i);
    forall j | i < j < |ops| - 1
      ensures ops[j] == ops[..|ops| - 1][j] && (PrunesAt(ops, j) <==> PrunesAt(ops[..|ops| - 1], j))
    {
      SamePrefix(ops, j);
    }
  }

  lemma OneMorePast(ops: seq<Op>, op: Op)
    ensures PastAfter(ops + [op]) == Next(PastAfter(ops), op)
  {
    assert (ops + [op])[..|ops|] == ops;
  }

  /** The reports say it all: which of them count depends on the earlier ones and the looks alone. */
  lemma CountedExactlyWhen(ops: seq<Op>, report: Op)
    requires InTime(ops) && report.Report?
    ensures PastAfter(ops + [report]).history != PastAfter(ops).history <==>
              && report.usage.Some? && !IsEmpty(CountsOf(report.usage.value))
              && (report.messageId == "" || !exists i :: KeepsNote(ops, i, report.messageId))
  {
    assert (ops + [report])[..|ops|] == ops;
    if report.messageId != "" {
      RecallsExactlyWhen(ops, report.messageId);
    }
  }

  /** In particular the first report of a message counts if it says anything. */
  lemma FirstReportCounts(ops: seq<Op>, report: Op)
    requires InTime(ops) && report.Report? && report.usage.Some? && !IsEmpty(CountsOf(report.usage.value))
    requires forall i | 0 <= i < |ops| && ops[i].Report? :: ops[i].messageId != report.messageId
    ensures PastAfter(ops + [report]).history
         == PastAfter(ops).history + [Call(report.now, report.sessionId, CountsOf(report.usage.value))]
  {
    CountedExactlyWhen(ops, report);
    assert (ops + [report])[..|ops|] == ops;
  }

  /**
   * An empty report uses its message id up: whatever came before, the full report that follows
   * it is not counted, while alone it is.
   */
  lemma EmptyThenFull(ops: seq<Op>, sessionId: string, empty: Usage, full: Usage, id: string, now: int, later: int)
    requires id != "" && IsEmpty(CountsOf(empty)) && !IsEmpty(CountsOf(full))
    requires InTime(ops) && (ops != [] ==> ops[|ops| - 1].now <= now)
    requires forall i | 0 <= i < |ops| && ops[i].Report? :: ops[i].messageId != id
    ensures var first, second := Report(sessionId, Some(empty), id, now), Report(sessionId, Some(full), id, later);
            && PastAfter(ops + [first] + [second]).history == PastAfter(ops).history
            && PastAfter(ops + [second]).history == PastAfter(ops).history + [Call(later, sessionId, CountsOf(full))]
  {
    var first, second := Report(sessionId, Some(empty), id, now), Report(sessionId, Some(full), id, later);
    RecallsExactlyWhen(ops, id);
    hide CountsOf, IsEmpty, InTime;
    EmptyUsesIdUp(PastAfter(ops), sessionId, empty, full, id, now, later);
    hide Recorded, Recalls, Counts, PastAfter;
    OneMorePast(ops, first);
    OneMorePast(ops + [first], second);
    OneMorePast(ops, second);
  }

  lemma EmptyIsNoted(past: Past, empty: Usage, id: string, now: int)
    requires id != "" && !Recalls(past, id) && IsEmpty(CountsOf(empty))
    requires past.pruned.Some? ==> past.pruned.value <= now
    ensures !Counts(past, Some(empty), id) && Notes(past, Some(empty), id)
    ensures Recalls(past.(notes := past.notes + [Noted(id, now)]), id)
  {
    LastNotedIsLast(past.notes, Noted(id, now));
    hide CountsOf, IsEmpty, LastNoted;
  }

  lemma LastNotedIsLast(notes: seq<Noted>, note: Noted)
    ensures LastNoted(notes + [note], note.id) == Some(note.at)
  {
    assert (notes + [note])[..|notes|] == notes;
  }

  lemma EmptyUsesIdUp(past: Past, sessionId: string, empty: Usage, full: Usage, id: string, now: int, later: int)
    requires id != "" && !Recalls(past, id) && IsEmpty(CountsOf(empty)) && !IsEmpty(CountsOf(full))
    requires past.pruned.Some? ==> past.pruned.value <= now
    ensures var noted := Recorded(past, sessionId, Some(empty), id, now);
            && noted.history == past.history
            && Recorded(noted, sessionId, Some(full), id, later).history == past.history
    ensures Recorded(past, sessionId, Some(full), id, later).history
         == past.history + [Call(later, sessionId, CountsOf(full))]
  {
    EmptyIsNoted(past, empty, id, now);
    hide CountsOf, IsEmpty, Recalls;
    var noted := past.(notes := past.notes + [Noted(id, now)]);
    assert !Counts(noted, Some(full), id) && !Notes(noted, Some(full), id) && Counts(past, Some(full), id);
    hide Counts, Notes;
  }

  // ---------- the meter ----------------------------------------------------------------

  datatype TokenFlow = TokenFlow(
    lastMinute: TokenCounts, lastHour: TokenCounts,
    minuteCalls: nat, hourCalls: nat,
    bySession: seq<Entry<int>>)

  /**
   * How what the meter keeps stands to the complete history, `ids` being the message id of
   * each call ("" for none): the calls kept are the newest ones, those dropped are an hour
   * old, and a message counted within the hour is remembered.
   */
  ghost predicate Tracks(history: seq<Call>, ids: seq<string>, calls: seq<Call>, seen: map<string, int>, clock: int) {
    && InOrder(history) && |ids| == |history|
    && (forall i | 0 <= i < |history| :: history[i].at <= clock)
    && |calls| <= |history| && calls == history[|history| - |calls|..]
    && (forall i | 0 <= i < |history| - |calls| :: history[i].at <= clock - HOUR)
    && (forall i | 0 <= i < |history| && ids[i] != "" :: IsRemembered(history[i].at, ids[i], seen, clock))
    && IdsApart(history, ids)
  }

  ghost predicate IsRemembered(at: int, id: string, seen: map<string, int>, clock: int) {
    at <= clock - HOUR || (id in seen && at <= seen[id])
  }

  /** A call of this message was counted less than an hour ago. */
  ghost predicate WithinTheHour(history: seq<Call>, ids: seq<string>, id: string, now: int) {
    id != "" && exists i :: 0 <= i < |history| && i < |ids| && ids[i] == id && now - history[i].at < HOUR
  }

  /** What is left of the message ids once every old one has been deleted. */
  function StillSeen(seen: map<string, int>, cutoff: int): map<string, int> {
    map id | id in seen && !(seen[id] <= cutoff) :: seen[id]
  }

  lemma PruneTracks(history: seq<Call>, ids: seq<string>, calls: seq<Call>, seen: map<string, int>, clock: int,
                    at: int, drop: nat, kept: map<string, int>)
    requires Tracks(history, ids, calls, seen, clock) && clock <= at && drop <= |calls|
    requires forall i | 0 <= i < drop :: calls[i].at <= at - HOUR
    requires drop < |calls| ==> calls[drop].at > at - HOUR
    requires kept == StillSeen(seen, at - HOUR)
    ensures Tracks(history, ids, calls[drop..], kept, at)
    ensures forall i | drop <= i < |calls| :: calls[i].at > at - HOUR
  {
    var k := |history| - |calls|;
    hide IdsApart;
    assert forall i | 0 <= i < |calls| :: calls[i] == history[k + i];
    assert forall i | k <= i < k + drop :: history[i] == calls[i - k];
    assert calls[drop..] == history[k + drop..];
    assert forall i | drop <= i < |calls| :: calls[drop].at <= calls[i].at;
  }

  lemma ClockTracks(history: seq<Call>, ids: seq<string>, calls: seq<Call>, seen: map<string, int>, clock: int,
                    now: int, id: string)
    requires Tracks(history, ids, calls, seen, clock) && clock <= now
    ensures Tracks(history, ids, calls, seen, now)
    ensures WithinTheHour(history, ids, id, now) ==> id != "" && id in seen
    ensures id !in seen ==> Tracks(history, ids, calls, seen[id := now], now)
  {
  }

  lemma CountTracks(history: seq<Call>, ids: seq<string>, calls: seq<Call>, seen: map<string, int>, call: Call,
                    id: string)
    requires Tracks(history, ids, calls, seen, call.at)
    requires !WithinTheHour(history, ids, id, call.at)
    requires id != "" ==> id in seen && seen[id] == call.at
    ensures Tracks(history + [call], ids + [id], calls + [call], seen, call.at)
  {
    OneMoreCounted(history, ids, call, id);
    hide IdsApart;
    var all, k := history + [call], |history| - |calls|;
    assert all[k..] == calls + [call];
    assert forall i | 0 <= i < |history| :: all[i] == history[i] && (ids + [id])[i] == ids[i];
  }

  /** The ids kept are exactly those the past recalls, with the times they were noted. */
  ghost predicate Remembers(seen: map<string, int>, past: Past, clock: int) {
    && (forall id :: id in seen <==> Recalls(past, id))
    && (forall id | id in seen :: LastNoted(past.notes, id) == Some(seen[id]))
    && (past.pruned.Some? ==> past.pruned.value <= clock)
    && (forall i | 0 <= i < |past.notes| :: past.notes[i].id != "")
  }

  lemma {:induction false} NeverNotedEmpty(notes: seq<Noted>)
    requires forall i | 0 <= i < |notes| :: notes[i].id != ""
    ensures LastNoted(notes, "") == None
  {
    if notes == [] {
    } else {
      NeverNotedEmpty(notes[..|notes| - 1]);
    }
  }

  lemma NoteRemembers(seen: map<string, int>, past: Past, clock: int, id: string, now: int)
    requires Remembers(seen, past, clock) && clock <= now && id != "" && id !in seen
    ensures Remembers(seen[id := now], past.(notes := past.notes + [Noted(id, now)]), now)
  {
    var notes := past.notes + [Noted(id, now)];
    assert notes[..|notes| - 1] == past.notes;
    assert forall other | other != id :: LastNoted(notes, other) == LastNoted(past.notes, other);
  }

  lemma PruneRemembers(seen: map<string, int>, past: Past, clock: int, at: int)
    requires Remembers(seen, past, clock) && clock <= at
    ensures Remembers(StillSeen(seen, at - HOUR), past.(pruned := Some(at)), at)
  {
  }

  /** How many of the oldest calls have expired. */
  method Expired(calls: seq<Call>, cutoff: int) returns (drop: nat)
    ensures drop <= |calls|
    ensures forall i | 0 <= i < drop :: calls[i].at <= cutoff
    ensures drop < |calls| ==> calls[drop].at > cutoff
  {
    drop := 0;
    while drop < |calls| && calls[drop].at <= cutoff
      invariant 0 <= drop <= |calls|
      invariant forall i | 0 <= i < drop :: calls[i].at <= cutoff
    {
      drop := drop + 1;
    }
  }

  class TokenMeter {
    var calls: seq<Call>
    /** The message ids reported within the hour, and when each was first. */
    var seen: map<string, int>
    /** All that was ever counted and noted, and the latest time looked at. */
    ghost var past: Past
    ghost var clock: int

    ghost predicate Valid()
      reads this
    {
      Tracks(past.history, past.ids, calls, seen, clock) && Remembers(seen, past, clock)
    }

    constructor (now: int)
      ensures Valid() && past == NothingYet && clock == now
      ensures calls == [] && seen == map[]
    {
      calls, seen, past, clock := [], map[], NothingYet, now;
    }

    /** Forget what is an hour old. */
    method Prune(at: int)
      requires Valid() && clock <= at
      modifies this
      ensures Valid() && clock == at
      ensures past == old(past).(pruned := Some(at))
      ensures forall i | 0 <= i < |calls| :: calls[i].at > at - HOUR
    {
      var cutoff := at - HOUR;
      var drop := Expired(calls, cutoff);
      PruneTracks(past.history, past.ids, calls, seen, clock, at, drop, StillSeen(seen, cutoff));
      PruneRemembers(seen, past, clock, at);
      hide Tracks, Remembers;
      if drop > 0 {
        calls := calls[drop..];
      }
      seen := StillSeen(seen, cutoff);
      past := past.(pruned := Some(at));
      clock := at;
    }

    /**
     * Count one report, unless its message is remembered, or it holds nothing. A repeat of a
     * call counted within the hour never counts.
     */
    method Record(sessionId: string, usage: Option<Usage>, messageId: string, now: int)
      requires Valid() && clock <= now
      modifies this
      ensures Valid() && clock == now
      ensures past == Recorded(old(past), sessionId, usage, messageId, now)
      ensures WithinTheHour(old(past).history, old(past).ids, messageId, now) ==> past.history == old(past).history
      ensures |past.ids| == |past.history| && IdsApart(past.history, past.ids)
    {
      CountedApart();
      if usage.None? {
        Look(now);
        return;
      }
      var repeated := Note(messageId, now);
      if repeated {
        return;
      }
      hide Tracks, Remembers, Recalls, CountsOf, IsEmpty, WithinTheHour;
      var counts := CountsOf(usage.value);
      if !IsEmpty(counts) {
        Push(Call(now, sessionId, counts), messageId);
        CountedApart();
      }
    }

    lemma CountedApart()
      requires Valid()
      ensures |past.ids| == |past.history| && IdsApart(past.history, past.ids)
    {
    }

    /** Time passes; nothing else changes. */
    ghost method Look(now: int)
      requires Valid() && clock <= now
      modifies `clock
      ensures Valid() && clock == now
    {
      clock := now;
    }

    /** Note the message id, unless it is remembered: then this report is a repeat. */
    method Note(messageId: string, now: int) returns (repeated: bool)
      requires Valid() && clock <= now
      modifies `seen, `past, `clock
      ensures Valid() && clock == now
      ensures repeated == (messageId != "" && Recalls(old(past), messageId))
      ensures past == if repeated || messageId == "" then old(past)
                      else old(past).(notes := old(past).notes + [Noted(messageId, now)])
      ensures !repeated ==> !WithinTheHour(past.history, past.ids, messageId, now)
      ensures !repeated && messageId != "" ==> messageId in seen && seen[messageId] == now
    {
      ClockTracks(past.history, past.ids, calls, seen, clock, now, messageId);
      ghost var was := seen;
      assert messageId in seen <==> Recalls(past, messageId);
      if messageId != "" && messageId !in seen {
        NoteRemembers(seen, past, clock, messageId, now);
      }
      ClockRemembers(seen, past, clock, now);
      hide Tracks, Remembers, Recalls, WithinTheHour;
      clock := now;
      if messageId != "" {
        if messageId in seen {
          return true;
        }
        seen := seen[messageId := now];
        past := past.(notes := past.notes + [Noted(messageId, now)]);
      }
      return false;
    }

    /** Keep a call; its message id has already been noted in `seen`. */
    method Push(call: Call, ghost messageId: string)
      requires Valid() && call.at == clock
      requires !WithinTheHour(past.history, past.ids, messageId, clock)
      requires messageId != "" ==> messageId in seen && seen[messageId] == clock
      modifies this
      ensures Valid() && clock == old(clock)
      ensures past == old(past).(history := old(past).history + [call], ids := old(past).ids + [messageId],
                                 pruned := Some(call.at))
    {
      CountTracks(past.history, past.ids, calls, seen, call, messageId);
      CallRemembers(seen, past, clock, call, messageId);
      hide Tracks, Remembers, WithinTheHour;
      calls := calls + [call];
      past := past.(history := past.history + [call], ids := past.ids + [messageId]);
      Prune(call.at);
    }

    /** The windows, as of now: the same as if every call ever counted had been kept. */
    method Snapshot(now: int) returns (flow: TokenFlow)
      requires Valid() && clock <= now
      modifies this
      ensures Valid() && clock == now
      ensures past == old(past).(pruned := Some(now))
      ensures flow.lastHour == Sum(Since(past.history, now - HOUR + 1))
      ensures flow.hourCalls == |Since(past.history, now - HOUR + 1)|
      ensures flow.lastMinute == Sum(Since(past.history, now - MINUTE))
      ensures flow.minuteCalls == |Since(past.history, now - MINUTE)|
      ensures IsTopFive(flow.bySession, Since(past.history, now - FIVE_MINUTES))
    {
      hide IsTopFive, Tracks, Sum, Since;
      Prune(now);
      flow := Totals(calls, now);
      WindowOfKept(past.history, past.ids, calls, seen, now, now - MINUTE);
      WindowOfKept(past.history, past.ids, calls, seen, now, now - FIVE_MINUTES);
      WindowOfKept(past.history, past.ids, calls, seen, now, now - HOUR + 1);
      AllSince(calls, now - HOUR + 1);
    }
  }

  lemma ClockRemembers(seen: map<string, int>, past: Past, clock: int, now: int)
    requires Remembers(seen, past, clock) && clock <= now
    ensures Remembers(seen, past, now)
  {
  }

  lemma CallRemembers(seen: map<string, int>, past: Past, clock: int, call: Call, id: string)
    requires Remembers(seen, past, clock)
    ensures Remembers(seen, past.(history := past.history + [call], ids := past.ids + [id]), clock)
  {
    var next := past.(history := past.history + [call], ids := past.ids + [id]);
    forall other
      ensures Recalls(next, other) == Recalls(past, other)
    {
    }
  }

  /** A new meter through any reports and looks in time: what it has counted is what they come to. */
  method Run(start: int, ops: seq<Op>) returns (meter: TokenMeter)
    requires InTime(ops) && (ops != [] ==> start <= ops[0].now)
    ensures meter.Valid() && meter.past == PastAfter(ops)
  {
    meter := new TokenMeter(start);
    hide Recorded;
    for i := 0 to |ops|
      invariant meter.Valid() && fresh(meter) && meter.past == PastAfter(ops[..i])
      invariant meter.clock == if i == 0 then start else ops[i - 1].now
    {
      assert ops[..i + 1][..i] == ops[..i];
      match ops[i]
      case Report(sessionId, usage, messageId, now) => meter.Record(sessionId, usage, messageId, now);
      case Look(now) => var _ := meter.Snapshot(now);
    }
    assert ops[..|ops|] == ops;
  }

  /** The accumulating loop of a snapshot, over the calls kept. */
  method Totals(calls: seq<Call>, now: int) returns (flow: TokenFlow)
    ensures flow.lastHour == Sum(calls) && flow.hourCalls == |calls|
    ensures flow.lastMinute == Sum(Since(calls, now - MINUTE))
    ensures flow.minuteCalls == |Since(calls, now - MINUTE)|
    ensures IsTopFive(flow.bySession, Since(calls, now - FIVE_MINUTES))
  {
    hide IsTopFive, SortByValue;
    var lastMinute, lastHour, minuteCalls := Zero, Zero, 0;
    var recent: seq<Entry<int>> := [];
    for i := 0 to |calls|
      invariant lastHour == Sum(calls[..i])
      invariant lastMinute == Sum(Since(calls[..i], now - MINUTE))
      invariant minuteCalls == |Since(calls[..i], now - MINUTE)|
      invariant Sums(recent, Since(calls[..i], now - FIVE_MINUTES))
    {
      hide Sum, Since, Sums, AddRecent;
      var call := calls[i];
      ghost var before := calls[..i];
      assert calls[..i + 1] == before + [call];
      OneMoreCall(before, call, now - MINUTE);
      OneMoreCall(before, call, now - FIVE_MINUTES);
      assert Since(before, now - FIVE_MINUTES) + [] == Since(before, now - FIVE_MINUTES);
      assert Since(before, now - MINUTE) + [] == Since(before, now - MINUTE);
      lastHour := Plus(lastHour, call.counts);
      if now - call.at <= MINUTE {
        lastMinute := Plus(lastMinute, call.counts);
        minuteCalls := minuteCalls + 1;
      }
      if now - call.at <= FIVE_MINUTES {
        AddRecentSums(recent, Since(before, now - FIVE_MINUTES), call);
        recent := AddRecent(recent, call);
      }
    }
    assert calls[..|calls|] == calls;
    SortedIsTopFive(recent, Since(calls, now - FIVE_MINUTES));
    return TokenFlow(lastMinute, lastHour, minuteCalls, |calls|, SortByValue(recent)[..Min(5, |recent|)]);
  }

  /** Two counted calls of one message are at least an hour apart. */
  ghost predicate IdsApart(history: seq<Call>, ids: seq<string>)
    requires |ids| == |history|
  {
    forall i, j | 0 <= i < j < |history| && ids[i] == ids[j] != "" :: history[j].at - history[i].at >= HOUR
  }

  lemma OneMoreCounted(history: seq<Call>, ids: seq<string>, call: Call, id: string)
    requires |ids| == |history| && IdsApart(history, ids)
    requires !WithinTheHour(history, ids, id, call.at)
    ensures IdsApart(history + [call], ids + [id])
  {
  }

  lemma OneMoreCall(calls: seq<Call>, call: Call, from: int)
    ensures Since(calls + [call], from) == Since(calls, from) + if call.at >= from then [call] else []
    ensures Sum(calls + [call]) == Plus(Sum(calls), call.counts)
    ensures Sum(Since(calls, from) + [call]) == Plus(Sum(Since(calls, from)), call.counts)
  {
    assert (calls + [call])[..|calls|] == calls;
    assert (Since(calls, from) + [call])[..|Since(calls, from)|] == Since(calls, from);
  }

  lemma SumForOneMore(calls: seq<Call>, call: Call, s: string)
    ensures SumFor(calls + [call], s)
         == if call.sessionId != s then SumFor(calls, s)
            else Some((if SumFor(calls, s).None? then 0 else SumFor(calls, s).value) + call.counts.processed)
  {
    assert (calls + [call])[..|calls|] == calls;
  }

  /** Calls dropped because they are an hour old are missed by no window. */
  lemma WindowOfKept(history: seq<Call>, ids: seq<string>, calls: seq<Call>, seen: map<string, int>, now: int,
                     from: int)
    requires Tracks(history, ids, calls, seen, now) && from > now - HOUR
    ensures Since(calls, from) == Since(history, from)
  {
    var k := |history| - |calls|;
    assert history == history[..k] + history[k..];
    SinceConcat(history[..k], history[k..], from);
    NoneSince(history[..k], from);
  }
}
