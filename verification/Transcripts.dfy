/**
 * Keeping one conversation's transcript complete across accounts and folders
 * (daemon/src/accounts.ts): before each launch the newest copy, wherever it is, is copied
 * to where the launch will look.
 */
module Transcripts {
  import opened Common

  /** `<configDir>/projects/<project>/<id>.jsonl`, for the one id in question. */
  datatype Place = Place(configDir: string, project: string)

  datatype Copy = Copy(mtime: int, text: string)

  datatype Found = Found(place: Place, stat: Copy)

  datatype Sync = Sync(from: Place, to: Place)

  /** Which of two copies wins: the one written last, or at equal times the longer one. */
  predicate IsNewer(a: Copy, b: Copy) {
    if a.mtime != b.mtime then a.mtime > b.mtime else |a.text| > |b.text|
  }

  /** The copies in these config dirs. */
  ghost predicate Scanned(copies: map<Place, Copy>, dirs: seq<string>, p: Place) {
    p in copies && p.configDir in dirs
  }

  ghost predicate NewestOf(copies: map<Place, Copy>, dirs: seq<string>, p: Place) {
    && Scanned(copies, dirs, p)
    && forall q | Scanned(copies, dirs, q) :: !IsNewer(copies[q], copies[p])
  }

  /** What one sync does: nothing without a copy, else the newest ends up at `dest`, time and all. */
  ghost predicate Synced(before: map<Place, Copy>, after: map<Place, Copy>, dirs: seq<string>, dest: Place,
                         done: Option<Sync>) {
    if exists p :: Scanned(before, dirs, p) then
      exists best :: && NewestOf(before, dirs, best)
                     && after == before[dest := before[best]]
                     && done == if best == dest then None else Some(Sync(best, dest))
    else
      after == before && done == None
  }

  /** The list holds each of these places once, with its copy's stat. */
  ghost predicate Tally(copies: map<Place, Copy>, found: seq<Found>, seen: set<Place>) {
    && (forall i | 0 <= i < |found| ::
          found[i].place in seen && found[i].place in copies && found[i].stat == copies[found[i].place])
    && (forall p | p in seen :: exists i :: 0 <= i < |found| && found[i].place == p)
    && (forall i, j | 0 <= i < j < |found| :: found[i].place != found[j].place)
  }

  lemma NoTally(copies: map<Place, Copy>)
    ensures Tally(copies, [], {})
  {
  }

  lemma TallyOneMore(copies: map<Place, Copy>, found: seq<Found>, seen: set<Place>, p: Place)
    requires Tally(copies, found, seen) && p !in seen && p in copies
    ensures Tally(copies, found + [Found(p, copies[p])], seen + {p})
  {
    var next := found + [Found(p, copies[p])];
    assert next[|found|].place == p;
    assert forall i | 0 <= i < |found| :: next[i] == found[i];
    forall q | q in seen
      ensures exists i :: 0 <= i < |next| && next[i].place == q
    {
      var i :| 0 <= i < |found| && found[i].place == q;
      assert next[i].place == q;
    }
  }

  class TranscriptStore {
    var copies: map<Place, Copy>
    /** The project directories of each config dir that has ever run a session. */
    var projects: map<string, seq<string>>

    ghost predicate Valid()
      reads this
    {
      forall p | p in copies :: p.configDir in projects && p.project in projects[p.configDir]
    }

    constructor ()
      ensures Valid() && copies == map[] && projects == map[]
    {
      copies, projects := map[], map[];
    }

    /** One config dir's part of the search: look into each of its projects. */
    method ScanProjects(configDir: string, found0: seq<Found>, seen0: set<Place>)
      returns (found: seq<Found>, seen: set<Place>)
      requires Valid() && Tally(copies, found0, seen0)
      ensures Tally(copies, found, seen)
      ensures forall p :: p in seen <==> p in seen0 || (p in copies && p.configDir == configDir)
    {
      found, seen := found0, seen0;
      if configDir !in projects {
        return;
      }
      var names := projects[configDir];
      for n := 0 to |names|
        invariant Tally(copies, found, seen)
        invariant forall p :: p in seen <==>
                    p in seen0 || (p in copies && p.configDir == configDir && p.project in names[..n])
      {
        var file := Place(configDir, names[n]);
        assert forall s :: s in names[..n + 1] <==> s in names[..n] || s == names[n];
        if file !in seen && file in copies {
          TallyOneMore(copies, found, seen, file);
          seen := seen + {file};
          found := found + [Found(file, copies[file])];
        }
      }
      assert names[..|names|] == names;
    }

    /** Every copy in these dirs, each once, found by looking into every project. */
    method FindTranscripts(configDirs: seq<string>) returns (found: seq<Found>, seen: set<Place>)
      requires Valid()
      ensures Tally(copies, found, seen)
      ensures forall p :: p in seen <==> Scanned(copies, configDirs, p)
    {
      hide Tally;
      found, seen := [], {};
      NoTally(copies);
      for d := 0 to |configDirs|
        invariant Tally(copies, found, seen)
        invariant forall p :: p in seen <==> Scanned(copies, configDirs[..d], p)
      {
        assert forall s :: s in configDirs[..d + 1] <==> s in configDirs[..d] || s == configDirs[d];
        found, seen := ScanProjects(configDirs[d], found, seen);
      }
      assert configDirs[..|configDirs|] == configDirs;
    }

    /** Put the newest copy, the launch's own dir competing, where the launch will look. */
    method EnsureSdkTranscript(dest: Place, otherConfigDirs: seq<string>) returns (done: Option<Sync>)
      requires Valid()
      modifies this
      ensures Valid()
      ensures Synced(old(copies), copies, [dest.configDir] + otherConfigDirs, dest, done)
    {
      ghost var dirs := [dest.configDir] + otherConfigDirs;
      var candidates, seen := FindTranscripts([dest.configDir] + otherConfigDirs);
      if |candidates| == 0 {
        return None;
      }
      var best := candidates[0];
      for i := 1 to |candidates|
        invariant best in candidates
        invariant forall k | 0 <= k < i :: !IsNewer(candidates[k].stat, best.stat)
      {
        if IsNewer(candidates[i].stat, best.stat) {
          best := candidates[i];
        }
      }
      assert NewestOf(copies, dirs, best.place);
      if best.place == dest {
        assert copies == copies[dest := copies[best.place]];
        return None;
      }
      if dest.configDir !in projects {
        projects := projects[dest.configDir := []];
      }
      if dest.project !in projects[dest.configDir] {
        projects := projects[dest.configDir := projects[dest.configDir] + [dest.project]];
      }
      copies := copies[dest := best.stat];
      return Some(Sync(best.place, dest));
    }

    /** The SDK writes a turn at the end of the transcript it was launched on. */
    method AppendTurn(at: Place, turn: string, now: int)
      requires Valid()
      modifies this
      ensures Valid()
      ensures copies == AfterTurn(old(copies), at, turn, now)
    {
      if at.configDir !in projects {
        projects := projects[at.configDir := []];
      }
      if at.project !in projects[at.configDir] {
        projects := projects[at.configDir := projects[at.configDir] + [at.project]];
      }
      copies := copies[at := Copy(now, (if at in copies then copies[at].text else "") + turn)];
    }
  }

  function AfterTurn(copies: map<Place, Copy>, at: Place, turn: string, now: int): map<Place, Copy> {
    copies[at := Copy(now, (if at in copies then copies[at].text else "") + turn)]
  }

  // ---------- no turn is ever lost ----------------------------------------------

  /**
   * Every copy is how the history stood at some moment, a newer copy is a longer one, and
   * some copy is all of it.
   */
  ghost predicate Faithful(copies: map<Place, Copy>, history: string, now: int) {
    && (forall p | p in copies :: copies[p].text <= history && copies[p].mtime <= now)
    && (forall p, q | p in copies && q in copies ::
          IsNewer(copies[p], copies[q]) <==> |copies[p].text| > |copies[q].text|)
    && (history != "" ==> exists p :: p in copies && copies[p].text == history)
  }

  /**
   * A launch resumes with the whole history exactly when one of the dirs it scans holds a
   * copy that is all of it.
   */
  lemma ResumesAllExactlyWhen(copies: map<Place, Copy>, history: string, now: int,
                              after: map<Place, Copy>, dirs: seq<string>, dest: Place, done: Option<Sync>)
    requires Faithful(copies, history, now) && history != "" && dest.configDir in dirs
    requires Synced(copies, after, dirs, dest, done)
    ensures (dest in after && after[dest].text == history)
            <==> (exists p :: Scanned(copies, dirs, p) && copies[p].text == history)
  {
    if p :| Scanned(copies, dirs, p) && copies[p].text == history {
      var best :| NewestOf(copies, dirs, best) && after == copies[dest := copies[best]];
      assert !IsNewer(copies[p], copies[best]);
    }
  }

  /** Every copy lies in a known dir. */
  ghost predicate Within(copies: map<Place, Copy>, known: seq<string>) {
    forall p | p in copies :: p.configDir in known
  }

  /** With every dir scanned, a launch resumes with everything and nothing is lost by it. */
  lemma LaunchKeepsAll(copies: map<Place, Copy>, history: string, now: int,
                       after: map<Place, Copy>, known: seq<string>, dest: Place, done: Option<Sync>)
    requires Faithful(copies, history, now) && Within(copies, known)
    requires dest.configDir in known
    requires Synced(copies, after, [dest.configDir] + known, dest, done)
    ensures Faithful(after, history, now) && Within(after, known)
    ensures history != "" ==> dest in after && after[dest].text == history
    ensures dest in after ==> after[dest].text == history
  {
    var dirs := [dest.configDir] + known;
    assert forall p | p in copies :: Scanned(copies, dirs, p);
    if exists p :: Scanned(copies, dirs, p) {
      var best :| NewestOf(copies, dirs, best) && after == copies[dest := copies[best]];
      if history != "" {
        var full :| full in copies && copies[full].text == history;
        assert !IsNewer(copies[full], copies[best]);
      }
      CopyKeepsAll(copies, history, now, best, dest);
    }
  }

  lemma CopyKeepsAll(copies: map<Place, Copy>, history: string, now: int, best: Place, dest: Place)
    requires Faithful(copies, history, now)
    requires best in copies && copies[best].text == history
    ensures Faithful(copies[dest := copies[best]], history, now)
  {
    hide IsNewer;
    var after := copies[dest := copies[best]];
    assert after[dest] == copies[best];
    forall p, q | p in after && q in after
      ensures IsNewer(after[p], after[q]) <==> |after[p].text| > |after[q].text|
    {
      var p0, q0 := if p == dest then best else p, if q == dest then best else q;
      assert p0 in copies && q0 in copies && after[p] == copies[p0] && after[q] == copies[q0];
    }
  }

  /** A turn makes the active copy the newest and the longest. */
  lemma TurnKeepsAll(copies: map<Place, Copy>, history: string, now: int, known: seq<string>,
                     at: Place, turn: string, later: int)
    requires Faithful(copies, history, now) && Within(copies, known)
    requires at.configDir in known && turn != "" && now <= later
    requires if at in copies then copies[at].text == history else history == ""
    ensures Faithful(AfterTurn(copies, at, turn, later), history + turn, later)
    ensures Within(AfterTurn(copies, at, turn, later), known)
  {
    var after := AfterTurn(copies, at, turn, later);
    assert "" + turn == turn;
    assert after[at].text == history + turn;
  }

  datatype Step =
    | Launch(dest: Place)
    | Turn(turn: string, elapsed: nat)

  ghost predicate IsStep(step: Step, known: seq<string>) {
    if step.Launch? then step.dest.configDir in known else step.turn != ""
  }

  function Turns(steps: seq<Step>): string {
    if steps == [] then "" else
      Turns(steps[..|steps| - 1]) + if steps[|steps| - 1].Turn? then steps[|steps| - 1].turn else ""
  }

  /**
   * Any run of launches, under any account and in any folder, and of turns in between:
   * every launch finds all turns so far, and at the end the active copy holds every turn.
   */
  method Run(known: seq<string>, first: Place, steps: seq<Step>)
    returns (store: TranscriptStore, active: Place, now: int)
    requires first.configDir in known
    requires forall i | 0 <= i < |steps| :: IsStep(steps[i], known)
    ensures store.Valid() && Faithful(store.copies, Turns(steps), now) && Within(store.copies, known)
    ensures Turns(steps) != "" ==> active in store.copies && store.copies[active].text == Turns(steps)
  {
    hide Faithful, Within, Synced, AfterTurn;
    store := new TranscriptStore();
    active, now := first, 0;
    NothingYet(known);
    for i := 0 to |steps|
      invariant store.Valid() && fresh(store) && active.configDir in known
      invariant Faithful(store.copies, Turns(steps[..i]), now) && Within(store.copies, known)
      invariant Turns(steps[..i]) == if active in store.copies then store.copies[active].text else ""
    {
      assert steps[..i + 1][..i] == steps[..i];
      ghost var before, history := store.copies, Turns(steps[..i]);
      match steps[i]
      case Launch(dest) =>
        var done := store.EnsureSdkTranscript(dest, known);
        LaunchKeepsAll(before, history, now, store.copies, known, dest, done);
        active := dest;
        assert history + "" == history;
      case Turn(turn, elapsed) =>
        TurnKeepsAll(before, history, now, known, active, turn, now + elapsed);
        now := now + elapsed;
        store.AppendTurn(active, turn, now);
        AfterTurnAt(before, active, turn, now);
    }
    assert steps[..|steps|] == steps;
  }

  lemma NothingYet(known: seq<string>)
    ensures Faithful(map[], "", 0) && Within(map[], known)
  {
  }

  lemma AfterTurnAt(copies: map<Place, Copy>, at: Place, turn: string, now: int)
    ensures var after := AfterTurn(copies, at, turn, now);
            at in after && after[at].text == (if at in copies then copies[at].text else "") + turn
  {
  }

  /**
   * The dirs must stay known: launched under A, then under B, with a turn each, and again under
   * A with B no longer scanned, the conversation resumes without its last turn.
   */
  method ForgottenDirLosesTurn() returns (store: TranscriptStore, a: Place, b: Place)
    ensures store.Valid() && Faithful(store.copies, "xy", 2)
    ensures b in store.copies && store.copies[b].text == "xy"
    ensures a in store.copies && store.copies[a].text == "x"
  {
    hide Synced, Faithful;
    a, b := Place("A", "p"), Place("B", "p");
    store := new TranscriptStore();
    var done := store.EnsureSdkTranscript(a, ["A", "B"]);
    NothingCopied(store.copies, a, done);
    store.AppendTurn(a, "x", 1);
    ghost var first := store.copies;
    assert "" + "x" == "x" && first == map[a := Copy(1, "x")];
    done := store.EnsureSdkTranscript(b, ["A", "B"]);
    CopiedToOther(first, store.copies, a, b, done);
    store.AppendTurn(b, "y", 2);
    ghost var second := store.copies;
    assert "x" + "y" == "xy";
    assert second == map[a := Copy(1, "x"), b := Copy(2, "xy")];
    done := store.EnsureSdkTranscript(a, ["A"]);
    ForgottenStays(second, store.copies, a, b, done);
  }

  lemma NothingCopied(after: map<Place, Copy>, a: Place, done: Option<Sync>)
    requires Synced(map[], after, [a.configDir] + ["A", "B"], a, done)
    ensures after == map[]
  {
  }

  lemma CopiedToOther(before: map<Place, Copy>, after: map<Place, Copy>, a: Place, b: Place, done: Option<Sync>)
    requires a == Place("A", "p") && b == Place("B", "p") && before == map[a := Copy(1, "x")]
    requires Synced(before, after, [b.configDir] + ["A", "B"], b, done)
    ensures after == map[a := Copy(1, "x"), b := Copy(1, "x")]
  {
    assert ([b.configDir] + ["A", "B"])[1] == "A";
    assert Scanned(before, [b.configDir] + ["A", "B"], a);
  }

  lemma ForgottenStays(before: map<Place, Copy>, after: map<Place, Copy>, a: Place, b: Place, done: Option<Sync>)
    requires a == Place("A", "p") && b == Place("B", "p")
    requires before == map[a := Copy(1, "x"), b := Copy(2, "xy")]
    requires Synced(before, after, [a.configDir] + ["A"], a, done)
    ensures after == before && Faithful(before, "xy", 2)
  {
    var dirs := [a.configDir] + ["A"];
    assert "A"[0] != "B"[0];
    assert dirs[0] == "A" && Scanned(before, dirs, a);
    assert forall p | Scanned(before, dirs, p) :: p == a;
    assert before[b].text == "xy" && before[a].text <= "xy";
    assert before[a := before[a]] == before;
  }
}
