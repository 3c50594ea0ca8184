/**
 * A file sent in chunks over a network that drops, repeats and reorders them
 * (daemon/src/uploads.ts).
 */
module Uploads {
  import opened Common

  type Byte = bv8

  const MAX_UPLOAD_BYTES: nat := 200 * 1024 * 1024

  datatype Chunk = Chunk(sessionId: string, uploadId: string, offset: int, bytes: seq<Byte>, last: bool)

  /** How much the server holds, which is where to go on from, and whether the answer names the finished file. */
  datatype Progress = Progress(received: nat, complete: bool)

  datatype Error = BadSessionId | BadUploadId | BadOffset | TooLarge

  /** One upload's two files: the part file and, once complete, the final one. */
  datatype Disk = Disk(part: Option<seq<Byte>>, final: Option<seq<Byte>>)

  predicate IsIdChar(c: char) {
    'A' <= c <= 'Z' || 'a' <= c <= 'z' || '0' <= c <= '9' || c == '-'
  }

  predicate IsId(s: string) {
    1 <= |s| <= 80 && forall i :: 0 <= i < |s| ==> IsIdChar(s[i])
  }

  /** An id names a file beside the others: it has no separator, no dot and no space in it. */
  lemma IdIsAName(s: string)
    ensures IsId(s) ==> s != "" && '/' !in s && '\\' !in s && '.' !in s && ' ' !in s && '\0' !in s
    ensures IsId("Az09-") && !IsId("") && (|s| > 80 ==> !IsId(s))
  {
  }

  function Held(disk: Disk): seq<Byte> {
    if disk.part.None? then [] else disk.part.value
  }

  /** The chunk is refused before anything is looked at. */
  function Refusal(c: Chunk): Option<Error> {
    if !IsId(c.sessionId) then Some(BadSessionId)
    else if !IsId(c.uploadId) then Some(BadUploadId)
    else if c.offset < 0 then Some(BadOffset)
    else None
  }

  function DiskAfter(disk: Disk, c: Chunk): Disk {
    if Refusal(c).Some? || disk.final.Some? || c.offset != |Held(disk)| then disk
    else if |Held(disk)| + |c.bytes| > MAX_UPLOAD_BYTES then disk.(part := None)
    else if c.last then Disk(None, Some(Held(disk) + c.bytes))
    else disk.(part := Some(Held(disk) + c.bytes))
  }

  function Answer(disk: Disk, c: Chunk): Result<Progress, Error> {
    if Refusal(c).Some? then Err(Refusal(c).value)
    else if disk.final.Some? then Ok(Progress(|disk.final.value|, true))
    else if c.offset != |Held(disk)| then Ok(Progress(|Held(disk)|, false))
    else if |Held(disk)| + |c.bytes| > MAX_UPLOAD_BYTES then Err(TooLarge)
    else Ok(Progress(|Held(disk)| + |c.bytes|, c.last))
  }

  /** What a crash leaves: any prefix of the bytes being written, never the rename. */
  function DiskAfterCrash(disk: Disk, c: Chunk, written: nat): Disk {
    if Refusal(c).Some? || disk.final.Some? || c.offset != |Held(disk)| then disk
    else if |Held(disk)| + |c.bytes| > MAX_UPLOAD_BYTES then disk
    else disk.(part := Some(Held(disk) + c.bytes[..Min(written, |c.bytes|)]))
  }

  class UploadServer {
    var part: Option<seq<Byte>>
    var final: Option<seq<Byte>>

    function State(): Disk
      reads this
    {
      Disk(part, final)
    }

    constructor ()
      ensures State() == Disk(None, None)
    {
      part, final := None, None;
    }

    method UploadBytes(chunk: Chunk) returns (r: Result<Progress, Error>)
      modifies this
      ensures State() == DiskAfter(old(State()), chunk)
      ensures r == Answer(old(State()), chunk)
      // The answer is what is held now; a refusal changes nothing, except that too much is thrown away.
      ensures r.Ok? ==>
                && r.value.complete == final.Some?
                && r.value.received == if final.Some? then |final.value| else |Held(State())|
      ensures r.Err? && r.error != TooLarge ==> State() == old(State())
      ensures r == Err(TooLarge) ==> part.None? && final == old(final)
      ensures old(final).Some? ==> State() == old(State()) && (r.Ok? || r.error != TooLarge)
      // A chunk that fits where the next one belongs is added, and completes the file if it is the last.
      ensures var held := if old(part).Some? then old(part).value else [];
              var inPlace := && r != Err(BadSessionId) && r != Err(BadUploadId)
                             && old(final).None? && chunk.offset == |held|;
              && (inPlace && |held| + |chunk.bytes| > MAX_UPLOAD_BYTES <==> r == Err(TooLarge))
              && (inPlace && |held| + |chunk.bytes| <= MAX_UPLOAD_BYTES ==>
                    if chunk.last then final == Some(held + chunk.bytes) && part.None?
                    else part == Some(held + chunk.bytes) && final.None?)
              && (!inPlace ==> State() == old(State()))
      ensures r == Err(BadSessionId) || r == Err(BadUploadId) || r == Err(BadOffset)
         <==> !IsId(chunk.sessionId) || !IsId(chunk.uploadId) || chunk.offset < 0
    {
      if !IsId(chunk.sessionId) {
        return Err(BadSessionId);
      }
      if !IsId(chunk.uploadId) {
        return Err(BadUploadId);
      }
      if chunk.offset < 0 {
        return Err(BadOffset);
      }
      if final.Some? {
        return Ok(Progress(|final.value|, true));
      }
      var held := if part.Some? then |part.value| else 0;
      if chunk.offset != held {
        return Ok(Progress(held, false));
      }
      if held + |chunk.bytes| > MAX_UPLOAD_BYTES {
        part := None;
        return Err(TooLarge);
      }
      part := Some((if part.Some? then part.value else []) + chunk.bytes);
      var received := held + |chunk.bytes|;
      if !chunk.last {
        return Ok(Progress(received, false));
      }
      final := part;
      part := None;
      return Ok(Progress(received, true));
    }
  }

  // ---------- what any chunks at all can do -----------------------------------

  /** A finished file never changes again, and nothing larger than the limit is ever held or finished. */
  lemma FinalIsForGood(disk: Disk, c: Chunk, written: nat)
    requires |Held(disk)| <= MAX_UPLOAD_BYTES
    requires disk.final.Some? ==> |disk.final.value| <= MAX_UPLOAD_BYTES
    ensures disk.final.Some? ==> DiskAfter(disk, c) == disk && DiskAfterCrash(disk, c, written) == disk
    ensures forall after :: after == DiskAfter(disk, c) || after == DiskAfterCrash(disk, c, written) ==>
              |Held(after)| <= MAX_UPLOAD_BYTES && (after.final.Some? ==> |after.final.value| <= MAX_UPLOAD_BYTES)
  {
  }

  // ---------- chunks of one file ------------------------------------------------

  /** A piece of `file`, marked as the last only if it reaches the end. */
  ghost predicate IsPiece(c: Chunk, file: seq<Byte>) {
    && Refusal(c).None?
    && c.offset + |c.bytes| <= |file|
    && c.bytes == file[c.offset..c.offset + |c.bytes|]
    && (c.last ==> c.offset + |c.bytes| == |file|)
  }

  ghost predicate Intact(disk: Disk, file: seq<Byte>) {
    && (disk.part.Some? ==> disk.part.value <= file)
    && (disk.final.Some? ==> disk.final.value == file)
  }

  lemma PieceKeepsIntact(disk: Disk, c: Chunk, file: seq<Byte>, written: nat)
    requires Intact(disk, file) && IsPiece(c, file)
    ensures Intact(DiskAfter(disk, c), file)
    ensures Intact(DiskAfterCrash(disk, c, written), file)
    ensures |file| <= MAX_UPLOAD_BYTES ==> Held(disk) <= Held(DiskAfterCrash(disk, c, written))
    ensures |file| <= MAX_UPLOAD_BYTES && DiskAfter(disk, c).final.None? ==> Held(disk) <= Held(DiskAfter(disk, c))
  {
    if disk.final.None? && c.offset == |Held(disk)| {
      var n := Min(written, |c.bytes|);
      assert Held(disk) == file[..c.offset];
      assert Held(disk) + c.bytes == file[..c.offset + |c.bytes|];
      assert Held(disk) + c.bytes[..n] == file[..c.offset + n];
      assert file[..|file|] == file;
    }
  }

  // ---------- client, network and server together ---------------------------------

  /** The client's next chunk: up to `n` bytes from where it believes the server is. */
  function NextChunk(ids: (string, string), file: seq<Byte>, received: nat, n: nat): Chunk
    requires received <= |file|
  {
    var end := Min(received + n, |file|);
    Chunk(ids.0, ids.1, received, file[received..end], end == |file|)
  }

  datatype Step =
    | Delivered(n: nat)               // the chunk and its answer both arrive
    | AnswerLost(n: nat)              // the chunk arrives, its answer does not
    | RequestLost
    | Crash(n: nat, written: nat)     // the daemon dies while handling the chunk
    | Stray(c: Chunk)                 // some earlier chunk arrives again, late or out of order
    | StrayCrash(c: Chunk, written: nat)

  /** `received` is what the client was last told; it is done when an answer carried the path. */
  datatype World = World(disk: Disk, received: nat, finished: bool)

  const Start: World := World(Disk(None, None), 0, false)

  /** The client stops at its first complete answer; the network may still deliver strays. */
  function After(ids: (string, string), file: seq<Byte>, w: World, step: Step): World
    requires w.received <= |file|
  {
    if step.Stray? then w.(disk := DiskAfter(w.disk, step.c))
    else if step.StrayCrash? then w.(disk := DiskAfterCrash(w.disk, step.c, step.written))
    else if w.finished || step.RequestLost? then w
    else
      var c := NextChunk(ids, file, w.received, step.n);
      match step
      case Delivered(_) =>
        var answer := Answer(w.disk, c);
        World(DiskAfter(w.disk, c),
              if answer.Ok? && answer.value.received <= |file| then answer.value.received else w.received,
              answer.Ok? && answer.value.complete)
      case AnswerLost(_) => w.(disk := DiskAfter(w.disk, c))
      case Crash(_, written) => w.(disk := DiskAfterCrash(w.disk, c, written))
  }

  ghost predicate IsStep(file: seq<Byte>, step: Step) {
    match step
    case Delivered(n) => n >= 1
    case Stray(c) => IsPiece(c, file)
    case StrayCrash(c, _) => IsPiece(c, file)
    case _ => true
  }

  ghost predicate AreSteps(file: seq<Byte>, steps: seq<Step>) {
    forall i :: 0 <= i < |steps| ==> IsStep(file, steps[i])
  }

  ghost predicate Fits(ids: (string, string), file: seq<Byte>) {
    IsId(ids.0) && IsId(ids.1) && |file| <= MAX_UPLOAD_BYTES
  }

  /** The client never believes more than the server holds, and is done only when the file is. */
  ghost predicate Agreed(file: seq<Byte>, w: World) {
    && Intact(w.disk, file)
    && w.received <= |file|
    && (w.disk.final.None? ==> w.received <= |Held(w.disk)|)
    && (w.finished ==> w.disk.final == Some(file))
  }

  lemma StepAgrees(ids: (string, string), file: seq<Byte>, w: World, step: Step)
    requires Fits(ids, file) && Agreed(file, w) && IsStep(file, step)
    ensures var next := After(ids, file, w, step);
            && Agreed(file, next)
            && w.received <= next.received
            && (w.finished ==> next.finished)
            && (w.disk.final.Some? ==> next.disk == w.disk)
            && (step.Delivered? ==> next.finished || next.received > w.received)
  {
    if step.Stray? {
      PieceKeepsIntact(w.disk, step.c, file, 0);
    } else if step.StrayCrash? {
      PieceKeepsIntact(w.disk, step.c, file, step.written);
    } else if !w.finished && !step.RequestLost? {
      var c := NextChunk(ids, file, w.received, step.n);
      assert IsPiece(c, file);
      PieceKeepsIntact(w.disk, c, file, if step.Crash? then step.written else 0);
    }
  }

  function Run(ids: (string, string), file: seq<Byte>, steps: seq<Step>): (w: World)
    ensures w.received <= |file|
  {
    if steps == [] then Start
    else After(ids, file, Run(ids, file, steps[..|steps| - 1]), steps[|steps| - 1])
  }

  function DeliveredCount(steps: seq<Step>): nat {
    if steps == [] then 0
    else DeliveredCount(steps[..|steps| - 1]) + if steps[|steps| - 1].Delivered? then 1 else 0
  }

  /**
   * Whatever is dropped, repeated, reordered or cut short by a crash, the part file is
   * always a prefix of the file and the final file is the file. Every exchange that gets
   * through brings the client forward, so it is done after at most one more than there are bytes.
   */
  lemma {:induction false} UploadSafeAndLive(ids: (string, string), file: seq<Byte>, steps: seq<Step>)
    requires Fits(ids, file) && AreSteps(file, steps)
    ensures var w := Run(ids, file, steps);
            && Agreed(file, w)
            && (w.finished || w.received >= DeliveredCount(steps))
            && (DeliveredCount(steps) > |file| ==> w.finished && w.disk.final == Some(file))
  {
    if steps == [] {
    } else {
      UploadSafeAndLive(ids, file, steps[..|steps| - 1]);
      StepAgrees(ids, file, Run(ids, file, steps[..|steps| - 1]), steps[|steps| - 1]);
    }
  }

  /** Once the final file is there, it is there for good. */
  lemma {:induction false} FinishedStays(ids: (string, string), file: seq<Byte>, steps: seq<Step>, more: seq<Step>)
    requires Fits(ids, file) && AreSteps(file, steps) && AreSteps(file, more)
    requires Run(ids, file, steps).disk.final.Some?
    ensures Run(ids, file, steps + more).disk == Run(ids, file, steps).disk
  {
    if more == [] {
      assert steps + more == steps;
    } else {
      var before := more[..|more| - 1];
      FinishedStays(ids, file, steps, before);
      assert (steps + more)[..|steps + more| - 1] == steps + before;
      UploadSafeAndLive(ids, file, steps + before);
      StepAgrees(ids, file, Run(ids, file, steps + before), more[|more| - 1]);
    }
  }

  /** A file over the limit is never finished, however its pieces arrive. */
  lemma {:induction false} TooLargeNeverFinishes(ids: (string, string), file: seq<Byte>, steps: seq<Step>)
    requires |file| > MAX_UPLOAD_BYTES && AreSteps(file, steps)
    requires IsId(ids.0) && IsId(ids.1)
    ensures var w := Run(ids, file, steps);
            && Intact(w.disk, file) && |Held(w.disk)| <= MAX_UPLOAD_BYTES
            && w.disk.final.None? && !w.finished
  {
    if steps == [] {
    } else {
      var before, step := Run(ids, file, steps[..|steps| - 1]), steps[|steps| - 1];
      TooLargeNeverFinishes(ids, file, steps[..|steps| - 1]);
      if !step.RequestLost? {
        var c := if step.Stray? || step.StrayCrash? then step.c else NextChunk(ids, file, before.received, step.n);
        assert IsPiece(c, file);
        var written := if step.Crash? || step.StrayCrash? then step.written else 0;
        PieceKeepsIntact(before.disk, c, file, written);
        FinalIsForGood(before.disk, c, written);
      }
    }
  }

  /** So an upload can be completed exactly when the file is within the limit. */
  lemma CompletesExactlyWithinLimit(ids: (string, string), file: seq<Byte>)
    requires IsId(ids.0) && IsId(ids.1)
    ensures (exists steps :: AreSteps(file, steps) && Run(ids, file, steps).disk.final == Some(file))
            <==> |file| <= MAX_UPLOAD_BYTES
  {
    if |file| <= MAX_UPLOAD_BYTES {
      var steps := seq(|file| + 1, _ => Delivered(1));
      AllDelivered(steps);
      UploadSafeAndLive(ids, file, steps);
      assert AreSteps(file, steps) && Run(ids, file, steps).disk.final == Some(file);
    } else {
      forall steps | AreSteps(file, steps)
        ensures Run(ids, file, steps).disk.final != Some(file)
      {
        TooLargeNeverFinishes(ids, file, steps);
      }
    }
  }

  lemma {:induction false} AllDelivered(steps: seq<Step>)
    requires forall i :: 0 <= i < |steps| ==> steps[i].Delivered?
    ensures DeliveredCount(steps) == |steps|
  {
    if steps == [] {
    } else {
      AllDelivered(steps[..|steps| - 1]);
    }
  }
}
