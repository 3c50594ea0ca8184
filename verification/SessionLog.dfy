/**
 * The event-log half of a session (daemon/src/session.ts): a capped tail in memory and
 * two counters beside the files on disk. The specification is one sequence of events,
 * `log`; every read is a slice of it.
 */
module SessionLog {
  import opened Common
  import opened LogStore

  const MAX_TAIL: nat := 1000
  const ROTATE_THRESHOLD: nat := 2000
  const READ_CHUNK_BYTES: nat := 64 * 1024

  /** The event at position i carries the number i. */
  ghost predicate Numbered(log: seq<PersistedEvent>) {
    forall i :: 0 <= i < |log| ==> log[i].seqNo == i
  }

  predicate IsMessage(e: PersistedEvent, clientMessageId: string) {
    e.event.UserMessage? && e.event.clientMessageId == clientMessageId
  }

  /** Both record the message a client gave one id. */
  predicate SameMessage(a: PersistedEvent, b: PersistedEvent) {
    b.event.UserMessage? && b.event.clientMessageId != "" && IsMessage(a, b.event.clientMessageId)
  }

  predicate Holds(events: seq<PersistedEvent>, clientMessageId: string) {
    exists i :: 0 <= i < |events| && IsMessage(events[i], clientMessageId)
  }

  /** Two records of one message, told apart by its id, are more than a full tail apart. */
  ghost predicate IdsApart(log: seq<PersistedEvent>) {
    forall i, j | 0 <= i < j < |log| && SameMessage(log[i], log[j]) :: j - i > MAX_TAIL
  }

  // ---------- the specification: one growing sequence ------------------------

  /** What can happen to a session's log. `renameOk` answers a rotation's rename, if there is one. */
  datatype Step =
    | Record(body: string, ts: int, renameOk: bool)
    | Send(text: string, clientMessageId: string, ts: int, renameOk: bool)
    | Restart(renameOk: bool)

  function Appended(log: seq<PersistedEvent>, event: ChatEvent, ts: int): seq<PersistedEvent> {
    log + [PersistedEvent(|log|, ts, event)]
  }

  /** A message is a retry when its id is among the newest thousand events. */
  predicate IsRetry(log: seq<PersistedEvent>, clientMessageId: string) {
    clientMessageId != "" && Holds(Last(log, MAX_TAIL), clientMessageId)
  }

  function LogAfterStep(log: seq<PersistedEvent>, step: Step): seq<PersistedEvent> {
    match step
    case Record(body, ts, _) => Appended(log, Other(body), ts)
    case Send(text, id, ts, _) => if IsRetry(log, id) then log else Appended(log, UserMessage(text, id), ts)
    case Restart(_) => log
  }

  function LogAfter(log: seq<PersistedEvent>, steps: seq<Step>): seq<PersistedEvent> {
    if steps == [] then log else LogAfterStep(LogAfter(log, steps[..|steps| - 1]), steps[|steps| - 1])
  }

  lemma AbsentFromTail(log: seq<PersistedEvent>, id: string)
    requires !Holds(Last(log, MAX_TAIL), id)
    ensures forall i | 0 <= i < |log| && IsMessage(log[i], id) :: |log| - i > MAX_TAIL
  {
    var tail := Last(log, MAX_TAIL);
    assert forall i | |log| - |tail| <= i < |log| :: log[i] == tail[i - (|log| - |tail|)];
  }

  lemma SendKeepsIdsApart(log: seq<PersistedEvent>, text: string, id: string, ts: int)
    requires IdsApart(log) && !IsRetry(log, id)
    ensures IdsApart(Appended(log, UserMessage(text, id), ts))
  {
    if id != "" {
      AbsentFromTail(log, id);
    }
    hide Last, Holds;
    var next := Appended(log, UserMessage(text, id), ts);
    forall i, j | 0 <= i < j < |next| && SameMessage(next[i], next[j])
      ensures j - i > MAX_TAIL
    {
      assert next[i] == log[i];
      assert j < |log| ==> next[j] == log[j];
    }
  }

  lemma StepKeepsIdsApart(log: seq<PersistedEvent>, step: Step)
    requires IdsApart(log) && Numbered(log)
    ensures IdsApart(LogAfterStep(log, step)) && Numbered(LogAfterStep(log, step))
    ensures log <= LogAfterStep(log, step)
  {
    if step.Send? && !IsRetry(log, step.clientMessageId) {
      SendKeepsIdsApart(log, step.text, step.clientMessageId, step.ts);
    }
  }

  /**
   * A retried message is recorded once: over every run, restarts included, two records
   * with one id are more than a thousand positions apart. The history only grows, and
   * stays numbered.
   */
  lemma {:induction false} RetriesRecordedOnce(log: seq<PersistedEvent>, steps: seq<Step>)
    requires IdsApart(log) && Numbered(log)
    ensures IdsApart(LogAfter(log, steps)) && Numbered(LogAfter(log, steps))
    ensures log <= LogAfter(log, steps)
  {
    if steps == [] {
    } else {
      RetriesRecordedOnce(log, steps[..|steps| - 1]);
      StepKeepsIdsApart(LogAfter(log, steps[..|steps| - 1]), steps[|steps| - 1]);
    }
  }

  lemma {:induction false} GrowsByAtMostOneEach(log: seq<PersistedEvent>, steps: seq<Step>)
    ensures log <= LogAfter(log, steps)
    ensures |LogAfter(log, steps)| <= |log| + |steps|
  {
    if steps == [] {
    } else {
      GrowsByAtMostOneEach(log, steps[..|steps| - 1]);
    }
  }

  /** Conversely, a resend arriving within a thousand steps of the recorded message changes nothing. */
  lemma ResendIgnored(log: seq<PersistedEvent>, first: Step, between: seq<Step>, again: Step)
    requires first.Send? && again.Send? && first.clientMessageId == again.clientMessageId != ""
    requires !IsRetry(log, first.clientMessageId) && |between| < MAX_TAIL
    ensures var now := LogAfter(LogAfterStep(log, first), between);
            LogAfterStep(now, again) == now
  {
    var recorded := LogAfterStep(log, first);
    var now := LogAfter(recorded, between);
    GrowsByAtMostOneEach(recorded, between);
    var tail := Last(now, MAX_TAIL);
    var k := |log| - (|now| - |tail|);
    assert tail[k] == now[|log|] == recorded[|log|];
    assert IsMessage(tail[k], first.clientMessageId);
  }

  // ---------- replay --------------------------------------------------------

  /** The events from `since` on, the newest `limit` of them; `hasEarlier` when some were cut. */
  ghost predicate IsReplay(log: seq<PersistedEvent>, since: int, limit: int,
                           events: seq<PersistedEvent>, hasEarlier: bool) {
    var requested := Slice(log, since, |log|);
    && events == Last(requested, Max(0, limit))
    && (hasEarlier <==> |events| < |requested|)
  }

  /** The newest `limit` (at least one) events before position `before`; `hasEarlier` when older ones remain. */
  ghost predicate IsPage(log: seq<PersistedEvent>, before: int, limit: int,
                         events: seq<PersistedEvent>, hasEarlier: bool) {
    var older := Slice(log, 0, before);
    && events == Last(older, Max(1, limit))
    && (hasEarlier <==> |events| < |older|)
  }

  /** A range that the tail reaches back to is the same slice of the tail. */
  lemma TailSlice(log: seq<PersistedEvent>, from: int, to: int)
    requires |log| - |Last(log, MAX_TAIL)| <= from
    ensures var tailStart := |log| - |Last(log, MAX_TAIL)|;
            Slice(Last(log, MAX_TAIL), from - tailStart, to - tailStart) == Slice(log, from, to)
  {
  }

  lemma SinceIsReplay(log: seq<PersistedEvent>, since: int, limit: int)
    ensures var start := Max(0, since);
            var from := Max(start, |log| - limit);
            if start >= |log| then IsReplay(log, since, limit, [], false)
            else IsReplay(log, since, limit, Slice(log, from, |log|), from > start)
  {
  }

  lemma BeforeIsPage(log: seq<PersistedEvent>, before: int, limit: int)
    ensures var end := Min(Max(0, before), |log|);
            var start := Max(0, end - Max(1, limit));
            if end <= start then IsPage(log, before, limit, [], false)
            else IsPage(log, before, limit, Slice(log, start, end), start > 0)
  {
  }

  // ---------- the session ---------------------------------------------------

  class SessionLog {
    const files: SessionFiles
    const codec: Codec
    var tail: seq<PersistedEvent>
    var totalCount: nat
    var activeCount: nat
    /** `logFd`: the active file is held open for appending. */
    var fdOpen: bool
    ghost var log: seq<PersistedEvent>

    ghost predicate Valid()
      reads this, files
    {
      && codec.RoundTrips()
      && codec.AllEvents(files.Texts()) == log
      && Whole(files.active)
      && Numbered(log)
      && totalCount == |log|
      && tail == Last(log, MAX_TAIL)
      && activeCount == |codec.FileEvents(files.active)|
      && (fdOpen ==> files.active.Some?)
    }

    /** Start on whatever is on disk; `renameOk` answers the catch-up rotation. */
    constructor (files: SessionFiles, codec: Codec, renameOk: bool)
      requires codec.RoundTrips() && Whole(files.active)
      requires Numbered(codec.AllEvents(files.Texts()))
      modifies files
      ensures Valid() && this.files == files && this.codec == codec
      ensures log == old(codec.AllEvents(files.Texts()))
      ensures forall g | g in old(files.archives) ::
                g in files.archives && files.archives[g] == old(files.archives[g])
      ensures renameOk ==> |codec.FileEvents(files.active)| < ROTATE_THRESHOLD
    {
      this.files, this.codec := files, codec;
      tail, totalCount, activeCount, fdOpen := [], 0, 0, false;
      log := codec.AllEvents(files.Texts());
      new;
      hide Codec.FileEvents, Codec.AllEvents, Numbered, ChronologicalTexts;
      var paths := files.AllLogFiles();
      var newest, count, perFile := LoadTailAndCount(codec, paths, MAX_TAIL, READ_CHUNK_BYTES);
      tail, totalCount := newest, count;
      ActiveIsLast(files.archives, files.active);
      activeCount := perFile[|perFile| - 1];
      RotateIfNeeded(renameOk);
    }

    /** Past the threshold the active file becomes an archive; a failed rename changes nothing. */
    method RotateIfNeeded(renameOk: bool)
      requires Valid()
      modifies this, files
      ensures Valid()
      ensures log == old(log) && tail == old(tail)
      ensures files.active == if old(activeCount) >= ROTATE_THRESHOLD && old(files.active).Some? && renameOk
                              then None else old(files.active)
      ensures files.archives
           == if old(activeCount) >= ROTATE_THRESHOLD && old(files.active).Some? && renameOk
              then old(files.archives)[NewGeneration(old(files.archives)) := old(files.active).value]
              else old(files.archives)
      ensures renameOk ==> activeCount < ROTATE_THRESHOLD
      ensures forall g | g in old(files.archives) ::
                g in files.archives && files.archives[g] == old(files.archives[g])
    {
      NothingInNoFile(codec);
      hide Codec.AllEvents, Codec.FileEvents, Numbered, NewGeneration;
      if activeCount < ROTATE_THRESHOLD {
        return;
      }
      fdOpen := false;
      var rotated := files.RotateActiveLog(renameOk, codec);
      if rotated {
        activeCount := 0;
      }
    }

    method AppendEvent(event: ChatEvent, ts: int, renameOk: bool)
      requires Valid()
      modifies this, files
      ensures Valid()
      ensures log == Appended(old(log), event, ts)
      ensures log == old(log) + [PersistedEvent(|old(log)|, ts, event)]
      ensures forall g | g in old(files.archives) ::
                g in files.archives && files.archives[g] == old(files.archives[g])
      // Exactly the append that fills the active file turns it, this line included, into an archive.
      ensures var text := WithLine(old(files.active), codec.stringify(PersistedEvent(|old(log)|, ts, event)));
              if old(activeCount) + 1 >= ROTATE_THRESHOLD && renameOk
              then && files.active.None?
                   && files.archives == old(files.archives)[NewGeneration(old(files.archives)) := text]
              else files.active == Some(text) && files.archives == old(files.archives)
      ensures renameOk ==> |codec.FileEvents(files.active)| < ROTATE_THRESHOLD
    {
      hide Codec.FileEvents, Codec.AllEvents, ChronologicalTexts, Last, NewGeneration, Numbered, Whole;
      WriteEvent(event, ts);
      RotateIfNeeded(renameOk);
    }

    /** Record the event in memory and as one more line of the active file. */
    method WriteEvent(event: ChatEvent, ts: int)
      requires Valid()
      modifies this, files
      ensures Valid()
      ensures log == old(log) + [PersistedEvent(|old(log)|, ts, event)]
      ensures files.active
           == Some(WithLine(old(files.active), codec.stringify(PersistedEvent(|old(log)|, ts, event))))
      ensures files.archives == old(files.archives) && activeCount == old(activeCount) + 1
    {
      hide Codec.FileEvents, Codec.AllEvents, ChronologicalTexts, Last;
      var persisted := PersistedEvent(totalCount, ts, event);
      totalCount := totalCount + 1;
      LastPush(log, persisted, MAX_TAIL);
      tail := tail + [persisted];
      if |tail| > MAX_TAIL {
        tail := tail[1..];
      }
      ghost var was := files.active;
      if !fdOpen {
        if files.active.None? {
          files.active := Some("");
        }
        fdOpen := true;
      }
      AppendedToActive(codec, files.archives, was, files.active.value, persisted);
      files.active := Some(files.active.value + (codec.stringify(persisted) + "\n"));
      activeCount := activeCount + 1;
      log := log + [persisted];
    }

    /** A message whose id is in the tail is not recorded again, and not accepted. */
    method SendMessage(text: string, clientMessageId: string, ts: int, renameOk: bool) returns (accepted: bool)
      requires Valid()
      modifies this, files
      ensures Valid()
      ensures accepted == !IsRetry(old(log), clientMessageId)
      ensures log == LogAfterStep(old(log), Send(text, clientMessageId, ts, renameOk))
      ensures accepted <==> clientMessageId == "" || forall i | 0 <= i < |old(log)| && |old(log)| - i <= MAX_TAIL ::
                              old(log)[i].event.UserMessage? ==> old(log)[i].event.clientMessageId != clientMessageId
      ensures log == if accepted then old(log) + [PersistedEvent(|old(log)|, ts, UserMessage(text, clientMessageId))]
                     else old(log)
      ensures !accepted ==> files.active == old(files.active) && files.archives == old(files.archives)
      ensures renameOk && old(activeCount) < ROTATE_THRESHOLD ==> activeCount < ROTATE_THRESHOLD
    {
      RetryMeans(log, clientMessageId);
      hide Codec.FileEvents, Codec.AllEvents, ChronologicalTexts, NewGeneration, Numbered, Whole;
      if clientMessageId != "" && Holds(tail, clientMessageId) {
        return false;
      }
      AppendEvent(UserMessage(text, clientMessageId), ts, renameOk);
      return true;
    }

    /** Replay from a position, out of memory when the tail reaches back far enough, else from disk. */
    method EventsSince(since: int, limit: int) returns (events: seq<PersistedEvent>, hasEarlier: bool)
      requires Valid()
      ensures IsReplay(log, since, limit, events, hasEarlier)
    {
      hide IsReplay, Slice, Numbered, Codec.AllEvents, Codec.FileEvents;
      SinceIsReplay(log, since, limit);
      var start := Max(0, since);
      var total := totalCount;
      if start >= total {
        return [], false;
      }
      var effectiveStart := Max(start, total - limit);
      hasEarlier := effectiveStart > start;
      var tailStart := total - |tail|;
      if effectiveStart >= tailStart {
        TailSlice(log, effectiveStart, total);
        events := Slice(tail, effectiveStart - tailStart, |tail|);
      } else {
        var paths := files.AllLogFiles();
        events := ReadRange(codec, paths, effectiveStart, total, READ_CHUNK_BYTES);
      }
    }

    /** One page further back. */
    method EventsBefore(before: int, limit: int) returns (events: seq<PersistedEvent>, hasEarlier: bool)
      requires Valid()
      ensures IsPage(log, before, limit, events, hasEarlier)
    {
      hide IsPage, Slice, Numbered, Codec.AllEvents, Codec.FileEvents;
      BeforeIsPage(log, before, limit);
      var end := Min(Max(0, before), totalCount);
      var start := Max(0, end - Max(1, limit));
      if end <= start {
        return [], false;
      }
      var tailStart := totalCount - |tail|;
      if start >= tailStart {
        TailSlice(log, start, end);
        events := Slice(tail, start - tailStart, end - tailStart);
      } else {
        var paths := files.AllLogFiles();
        events := ReadRange(codec, paths, start, end, READ_CHUNK_BYTES);
      }
      hasEarlier := start > 0;
    }
  }

  lemma ActiveIsLast(archives: map<nat, string>, active: Option<string>)
    ensures var texts := ChronologicalTexts(archives, active);
            |texts| > 0 && texts[|texts| - 1] == active
  {
  }

  /** Writing one line at the end of the active file adds one event to the end of the history. */
  lemma AppendedToActive(codec: Codec, archives: map<nat, string>, was: Option<string>, text: string, e: PersistedEvent)
    requires codec.RoundTrips() && Whole(was)
    requires text == if was.None? then "" else was.value
    ensures var next := Some(text + (codec.stringify(e) + "\n"));
            && Whole(next)
            && codec.FileEvents(next) == codec.FileEvents(was) + [e]
            && codec.AllEvents(ChronologicalTexts(archives, next))
               == codec.AllEvents(ChronologicalTexts(archives, was)) + [e]
  {
    var next := Some(text + (codec.stringify(e) + "\n"));
    hide Codec.FileEvents, Ascending, ArchiveTexts, Whole;
    EmptyFile(codec);
    AppendedLine(codec, text, e);
    var before := ArchiveTexts(archives, Ascending(archives.Keys));
    assert (before + [next])[..|before|] == before == (before + [was])[..|before|];
  }

  lemma EmptyFile(codec: Codec)
    ensures codec.FileEvents(Some("")) == codec.FileEvents(None) == []
    ensures Whole(Some(""))
  {
    NothingInNoFile(codec);
  }

  /** A message is a retry exactly when one of the newest thousand events is a message with its id. */
  lemma RetryMeans(log: seq<PersistedEvent>, id: string)
    ensures IsRetry(log, id) <==>
              id != "" && exists i :: 0 <= i < |log| && |log| - i <= MAX_TAIL && IsMessage(log[i], id)
  {
    var tail := Last(log, MAX_TAIL);
    var k := |log| - |tail|;
    assert forall i | k <= i < |log| :: log[i] == tail[i - k];
    assert forall i | 0 <= i < |tail| :: tail[i] == log[i + k];
  }

  /** What a file holds with one line more. */
  function WithLine(file: Option<string>, line: string): string {
    (if file.None? then "" else file.value) + (line + "\n")
  }

  lemma StepIs(log: seq<PersistedEvent>, step: Step)
    ensures step.Record? ==> LogAfterStep(log, step) == Appended(log, Other(step.body), step.ts)
    ensures step.Restart? ==> LogAfterStep(log, step) == log
  {
  }

  // ---------- whole runs ----------------------------------------------------

  /**
   * Any run on disk, with rotations succeeding or failing and the daemon restarting,
   * ends with exactly the specified log, in the files and in memory.
   */
  method Run(files: SessionFiles, codec: Codec, steps: seq<Step>, renameOk: bool) returns (session: SessionLog)
    requires codec.RoundTrips() && Whole(files.active)
    requires Numbered(codec.AllEvents(files.Texts()))
    modifies files
    ensures session.Valid() && session.files == files && session.codec == codec
    ensures session.log == LogAfter(old(codec.AllEvents(files.Texts())), steps)
    ensures renameOk && (forall step <- steps :: step.renameOk) ==>
              |codec.FileEvents(files.active)| < ROTATE_THRESHOLD
  {
    hide Codec.AllEvents, Codec.FileEvents, Codec.RoundTrips, Numbered, Whole, ChronologicalTexts, LogAfterStep;
    session := new SessionLog(files, codec, renameOk);
    ghost var log0 := session.log;
    for i := 0 to |steps|
      invariant session.Valid() && fresh(session) && session.files == files && session.codec == codec
      invariant session.log == LogAfter(log0, steps[..i])
      invariant renameOk && (forall step <- steps :: step.renameOk) ==> session.activeCount < ROTATE_THRESHOLD
    {
      assert steps[..i + 1][..i] == steps[..i];
      match steps[i]
      case Record(body, ts, ok) =>
        StepIs(session.log, steps[i]);
        session.AppendEvent(Other(body), ts, ok);
      case Send(text, id, ts, ok) =>
        var _ := session.SendMessage(text, id, ts, ok);
      case Restart(ok) =>
        StepIs(session.log, steps[i]);
        session := new SessionLog(files, codec, ok);
    }
    assert steps[..|steps|] == steps;
  }

  /** One more page extends the history held, back from its first event. */
  lemma PageExtends(log: seq<PersistedEvent>, before: int, limit: int, page: seq<PersistedEvent>, more: bool,
                    wanted: seq<PersistedEvent>, history: seq<PersistedEvent>)
    requires Numbered(log) && IsPage(log, before, limit, page, more)
    requires |history| <= |wanted| && history == wanted[|wanted| - |history|..]
    requires Slice(log, 0, before) == wanted[..|wanted| - |history|]
    ensures var next := page + history;
            && |next| <= |wanted| && next == wanted[|wanted| - |next|..]
            && (more ==> page != [] && 0 <= page[0].seqNo < before && page[0].seqNo <= |log|
                         && Slice(log, 0, page[0].seqNo) == wanted[..|wanted| - |next|])
            && (!more ==> next == wanted)
  {
    var older := Slice(log, 0, before);
    assert older == log[..|older|];
    assert wanted == older + history;
    var k := |older| - |page|;
    assert page == older[k..];
    assert page + history == wanted[k..];
    assert Slice(log, 0, k) == log[..k] == wanted[..k];
    assert page != [] ==> page[0] == log[k];
  }

  lemma OlderEventsStay(log: seq<PersistedEvent>, grown: seq<PersistedEvent>, before: nat)
    requires log <= grown && before <= |log|
    ensures Slice(grown, 0, before) == Slice(log, 0, before)
  {
  }

  /** Events recorded, and perhaps rotations, between two requests. */
  method Meanwhile(session: SessionLog, others: seq<(string, int, bool)>)
    requires session.Valid()
    modifies session, session.files
    ensures session.Valid() && old(session.log) <= session.log
  {
    hide Codec.AllEvents, Codec.FileEvents, Numbered, Last;
    for i := 0 to |others|
      invariant session.Valid() && old(session.log) <= session.log
    {
      session.AppendEvent(Other(others[i].0), others[i].1, others[i].2);
    }
  }

  /**
   * A client scrolling back: it asks for the page before the first event it holds, until
   * it is told there is nothing earlier. Between its requests, `meanwhile[i]` happens.
   * It ends up with everything before its starting point, once and in order.
   */
  method ScrollBack(session: SessionLog, from: int, limit: int, meanwhile: seq<seq<(string, int, bool)>>)
    returns (history: seq<PersistedEvent>)
    requires session.Valid()
    modifies session, session.files
    ensures session.Valid() && old(session.log) <= session.log
    ensures history == Slice(old(session.log), 0, from)
  {
    hide Codec.AllEvents, Codec.FileEvents, Numbered, Last, IsPage, Slice;
    history := [];
    var before, more, pages := from, true, 0;
    ghost var wanted := Slice(session.log, 0, from);
    while more
      invariant session.Valid() && old(session.log) <= session.log
      invariant |history| <= |wanted| && history == wanted[|wanted| - |history|..]
      invariant more ==> Slice(session.log, 0, before) == wanted[..|wanted| - |history|]
      invariant !more ==> history == wanted
      decreases more, before
    {
      var page;
      page, more := session.EventsBefore(before, limit);
      PageExtends(session.log, before, limit, page, more, wanted, history);
      history := page + history;
      if more {
        before := page[0].seqNo;
        if pages < |meanwhile| {
          ghost var was := session.log;
          Meanwhile(session, meanwhile[pages]);
          OlderEventsStay(was, session.log, before);
        }
        pages := pages + 1;
      }
    }
  }
}
