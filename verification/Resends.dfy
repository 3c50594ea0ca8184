/**
 * How far automatic resends go when nobody looks: the attempt budgets of
 * daemon/src/session.ts over whole runs of ParkedTurn's machine.
 */
module Resends {
  import opened Common
  import opened Limits
  import opened Rotation
  import opened ParkedTurn

  // ---------- counting a run ---------------------------------------------------------

  /** A run in which no turn is answered and no one sends, stops or restarts anything. */
  predicate IsUnattendedRun(s: Session, ops: seq<Op>) {
    ops == [] || (
      var before := After(s, ops[..|ops| - 1]);
      && IsUnattendedRun(s, ops[..|ops| - 1])
      && Enabled(before, ops[|ops| - 1]) && IsUnattended(before, ops[|ops| - 1]))
  }

  function Resends(s: Session, ops: seq<Op>): int {
    After(s, ops).ledger.resends - s.ledger.resends
  }

  function Refusals(s: Session, ops: seq<Op>): nat {
    if ops == [] then 0 else
      var before := ops[..|ops| - 1];
      Refusals(s, before) + if Refusal(After(s, before), ops[|ops| - 1]).Some? then 1 else 0
  }

  /** The turn is refused and the budget for its cause is used up. */
  predicate GivesUp(s: Session, op: Op) {
    Refusal(s, op).Some? && s.consecutiveRetries >= Budget(Refusal(s, op).value)
  }

  function GiveUps(s: Session, ops: seq<Op>): nat {
    if ops == [] then 0 else
      var before := ops[..|ops| - 1];
      GiveUps(s, before) + if GivesUp(After(s, before), ops[|ops| - 1]) then 1 else 0
  }

  /** After the session has given up, a turn is refused once more. */
  predicate RefusedAfterGiveUp(s: Session, ops: seq<Op>) {
    ops != [] && (
      var before := ops[..|ops| - 1];
      || RefusedAfterGiveUp(s, before)
      || (GiveUps(s, before) > 0 && Refusal(After(s, before), ops[|ops| - 1]).Some?))
  }

  predicate AnyOverload(s: Session, ops: seq<Op>) {
    ops != [] && (AnyOverload(s, ops[..|ops| - 1])
                  || Refusal(After(s, ops[..|ops| - 1]), ops[|ops| - 1]) == Some(Overloaded))
  }

  function RunBudget(s: Session, ops: seq<Op>): nat {
    if AnyOverload(s, ops) then MAX_OVERLOAD_ATTEMPTS else MAX_ATTEMPTS
  }

  // ---------- the bound --------------------------------------------------------------

  /** Each give-up has used at most one budget, and the retries since are counted. */
  predicate WithinBudgets(s: Session, refusals: int, resends: int, giveUps: int, budget: nat) {
    && s.consecutiveRetries <= budget
    && resends + IsHeld(s) <= budget * giveUps + s.consecutiveRetries
    && refusals <= (budget + 1) * giveUps + s.consecutiveRetries
  }

  lemma OneMoreGiveUp(budget: nat, giveUps: nat)
    ensures budget * 0 == 0 && budget * (giveUps + 1) == budget * giveUps + budget
    ensures (budget + 1) * (giveUps + 1) == (budget + 1) * giveUps + budget + 1
  {
  }

  lemma StepWithinBudgets(s: Session, op: Op, refusals: int, resends: int, giveUps: nat, budget: nat)
    requires Sound(s) && Enabled(s, op) && IsUnattended(s, op)
    requires WithinBudgets(s, refusals, resends, giveUps, budget)
    requires Refusal(s, op).Some? ==> Budget(Refusal(s, op).value) <= budget
    ensures var t := Step(s, op);
            && Sound(t) && s.ledger.resends <= t.ledger.resends
            && WithinBudgets(t, refusals + if Refusal(s, op).Some? then 1 else 0,
                             resends + t.ledger.resends - s.ledger.resends,
                             giveUps + if GivesUp(s, op) then 1 else 0, budget)
  {
    StepIs(s, op);
    OneMoreGiveUp(budget, giveUps);
    hide Step, Refusal, Sound, Enabled, IsUnattended;
  }

  /** A run and its counts, by its last handler. */
  lemma LastStep(s: Session, ops: seq<Op>)
    requires ops != []
    ensures var before, op := ops[..|ops| - 1], ops[|ops| - 1];
            && After(s, ops) == Step(After(s, before), op)
            && (IsUnattendedRun(s, ops) ==>
                  IsUnattendedRun(s, before) && Enabled(After(s, before), op) && IsUnattended(After(s, before), op))
            && Refusals(s, ops) == Refusals(s, before) + (if Refusal(After(s, before), op).Some? then 1 else 0)
            && GiveUps(s, ops) == GiveUps(s, before) + (if GivesUp(After(s, before), op) then 1 else 0)
            && RunBudget(s, before) <= RunBudget(s, ops)
            && (Refusal(After(s, before), op).Some? ==>
                  Budget(Refusal(After(s, before), op).value) <= RunBudget(s, ops))
  {
    hide Step, Refusal, Enabled, IsUnattended, GivesUp;
  }

  /**
   * In every unattended run from a zero retry count: resends, and a turn still parked, come
   * to no more than one budget for each time the session gave up plus the retries since.
   */
  lemma {:induction false} ResendsWithinBudgets(s: Session, ops: seq<Op>, budget: nat)
    requires Sound(s) && s.consecutiveRetries == 0 && s.pending.None? && IsUnattendedRun(s, ops)
    requires RunBudget(s, ops) <= budget
    ensures Sound(After(s, ops)) && Resends(s, ops) >= 0
    ensures WithinBudgets(After(s, ops), Refusals(s, ops), Resends(s, ops), GiveUps(s, ops), budget)
  {
    if ops == [] {
      NoRun(s, 0);
    } else {
      var before, op := ops[..|ops| - 1], ops[|ops| - 1];
      LastStep(s, ops);
      hide After, Refusals, GiveUps, AnyOverload, IsUnattendedRun;
      ResendsWithinBudgets(s, before, budget);
      hide Step, Refusal, Sound, Enabled, IsUnattended, WithinBudgets, GivesUp, RunBudget;
      StepWithinBudgets(After(s, before), op, Refusals(s, before), Resends(s, before), GiveUps(s, before), budget);
    }
  }

  /** Unless something is refused afterwards, a session gives up once and then has nothing parked. */
  lemma {:induction false} GivenUpForGood(s: Session, ops: seq<Op>)
    requires Sound(s) && s.consecutiveRetries == 0 && s.pending.None? && IsUnattendedRun(s, ops)
    requires !RefusedAfterGiveUp(s, ops)
    ensures Sound(After(s, ops)) && GiveUps(s, ops) <= 1
    ensures GiveUps(s, ops) == 1 ==> After(s, ops).pending.None? && After(s, ops).consecutiveRetries == 0
  {
    if ops == [] {
    } else {
      var before, op := ops[..|ops| - 1], ops[|ops| - 1];
      GivenUpForGood(s, before);
      StepIs(After(s, before), op);
      hide Step, Refusal, Sound, Enabled, IsUnattended;
    }
  }

  /**
   * Automatic resends end. Only a refusal after a give-up gets a run past the bound: without
   * one there are at most five resends, or 360 if any refusal was an overload, and once the
   * session has given up nothing is parked.
   */
  lemma ResendsEnd(s: Session, ops: seq<Op>)
    requires Sound(s) && s.consecutiveRetries == 0 && s.pending.None? && IsUnattendedRun(s, ops)
    ensures Resends(s, ops) > RunBudget(s, ops) ==> RefusedAfterGiveUp(s, ops)
    ensures !RefusedAfterGiveUp(s, ops) ==>
              && 0 <= Resends(s, ops) <= RunBudget(s, ops)
              && Refusals(s, ops) <= RunBudget(s, ops) + 1
              && (GiveUps(s, ops) > 0 ==> After(s, ops).pending.None?)
  {
    hide After, Refusals, GiveUps, RunBudget, RefusedAfterGiveUp, IsUnattendedRun, Sound;
    ResendsWithinBudgets(s, ops, RunBudget(s, ops));
    if !RefusedAfterGiveUp(s, ops) {
      GivenUpForGood(s, ops);
      OneMoreGiveUp(RunBudget(s, ops), 0);
    }
  }

  // ---------- the bound is reached, and passed -----------------------------------------

  /** A turn is under way that has not been refused yet. */
  predicate IsAtWork(s: Session) {
    Sound(s) && s.query && s.pending.None? && s.consecutiveRetries == 0
  }

  lemma FirstMessage(now: int)
    ensures IsAtWork(Step(Created, UserSends(now, true))) && Step(Created, UserSends(now, true)).watchdog
  {
  }

  const ROUND := OVERLOAD_RETRY_MS

  /** The turn ends refused: as overloaded, or on a limit that ends as soon as an overload's wait. */
  function Refused(overload: bool, at: int): Op {
    TurnEnds(if overload then Outcome(None, None, true) else Outcome(None, Some(Limited(at + ROUND, false)), false), at)
  }

  function CauseOf(overload: bool, at: int): Cause {
    if overload then Overloaded else Limited(at + ROUND, false)
  }

  /** Refused, and sent again when its time has come, `rounds` times over. */
  function Rounds(overload: bool, start: int, rounds: nat): seq<Op> {
    if rounds == 0 then [] else
      Rounds(overload, start, rounds - 1)
      + [Refused(overload, start + (rounds - 1) * ROUND)] + [TimerFires(start + rounds * ROUND, false, true)]
  }

  /** What one more handler adds to an unattended run and to its counts. */
  lemma OneMoreUnattended(s: Session, ops: seq<Op>, op: Op)
    ensures After(s, ops + [op]) == Step(After(s, ops), op)
    ensures IsUnattendedRun(s, ops + [op])
       <==> IsUnattendedRun(s, ops) && Enabled(After(s, ops), op) && IsUnattended(After(s, ops), op)
    ensures GiveUps(s, ops + [op]) == GiveUps(s, ops) + if GivesUp(After(s, ops), op) then 1 else 0
    ensures RefusedAfterGiveUp(s, ops + [op])
       <==> RefusedAfterGiveUp(s, ops) || (GiveUps(s, ops) > 0 && Refusal(After(s, ops), op).Some?)
    ensures AnyOverload(s, ops + [op]) <==> AnyOverload(s, ops) || Refusal(After(s, ops), op) == Some(Overloaded)
  {
    assert (ops + [op])[..|ops + [op]| - 1] == ops;
    hide Step, Enabled, IsUnattended, Refusal;
  }

  /** What a refusal within the budget and a handler that refuses nothing add together. */
  lemma TwoMore(s: Session, ops: seq<Op>, refused: Op, due: Op)
    requires IsUnattendedRun(s, ops)
    requires Enabled(After(s, ops), refused) && IsUnattended(After(s, ops), refused)
    requires Enabled(Step(After(s, ops), refused), due) && IsUnattended(Step(After(s, ops), refused), due)
    requires !GivesUp(After(s, ops), refused) && Refusal(Step(After(s, ops), refused), due) == None
    ensures var both := ops + [refused] + [due];
            && After(s, both) == Step(Step(After(s, ops), refused), due)
            && IsUnattendedRun(s, both) && GiveUps(s, both) == GiveUps(s, ops)
            && (RefusedAfterGiveUp(s, both) ==> RefusedAfterGiveUp(s, ops) || GiveUps(s, ops) > 0)
            && (AnyOverload(s, both) ==> AnyOverload(s, ops) || Refusal(After(s, ops), refused) == Some(Overloaded))
  {
    hide Step, Enabled, IsUnattended, Refusal, After, IsUnattendedRun, GiveUps, RefusedAfterGiveUp, AnyOverload;
    OneMoreUnattended(s, ops, refused);
    OneMoreUnattended(s, ops + [refused], due);
  }

  lemma TwoMoreInTime(clock: int, ops: seq<Op>, refused: Op, due: Op)
    requires InTime(clock, ops) && !refused.Restarted? && !due.Restarted?
    requires ClockAfter(clock, ops) <= Begin(refused, ClockAfter(clock, ops))
    requires Begin(refused, ClockAfter(clock, ops)) <= Begin(due, Begin(refused, ClockAfter(clock, ops)))
    ensures var both := ops + [refused] + [due];
            InTime(clock, both) && ClockAfter(clock, both) == Begin(due, Begin(refused, ClockAfter(clock, ops)))
  {
    hide InTime, ClockAfter;
    OneMoreInTime(clock, ops, refused);
    OneMoreInTime(clock, ops + [refused], due);
  }

  /** A turn refused at one moment while the budget lasts, and sent again one round later. */
  lemma OneRound(s: Session, overload: bool, at: int)
    requires Sound(s) && s.query && s.consecutiveRetries < Budget(CauseOf(overload, at))
    ensures var refused, due := Refused(overload, at), TimerFires(at + ROUND, false, true);
            var t := Step(s, refused); var u := Step(t, due);
            && Enabled(s, refused) && IsUnattended(s, refused) && Refusal(s, refused) == Some(CauseOf(overload, at))
            && Enabled(t, due) && IsUnattended(t, due) && Refusal(t, due) == None
            && u.ledger.resends == s.ledger.resends + 1
            && Sound(u) && u.query && u.pending.None? && u.consecutiveRetries == s.consecutiveRetries + 1
            && u.status.Running? && u.watchdog
  {
    var refused := Refused(overload, at);
    StepIs(s, refused);
    var t := Step(s, refused);
    assert t.timer == Some(at + ROUND);
    hide Step;
    StepIs(t, TimerFires(at + ROUND, false, true));
  }

  /** Where a run of so many rounds gets to. */
  predicate IsRoundsRun(s: Session, ops: seq<Op>, overload: bool, start: int, rounds: nat) {
    var t := After(s, ops);
    && IsUnattendedRun(s, ops) && InTime(start, ops) && ClockAfter(start, ops) == start + rounds * ROUND
    && Resends(s, ops) == rounds && GiveUps(s, ops) == 0 && !RefusedAfterGiveUp(s, ops)
    && (AnyOverload(s, ops) ==> overload)
    && Sound(t) && t.query && t.pending.None? && t.consecutiveRetries == rounds
    && (rounds > 0 ==> t.status.Running? && t.watchdog)
  }

  lemma OneMoreRound(s: Session, before: seq<Op>, overload: bool, start: int, rounds: nat)
    requires IsRoundsRun(s, before, overload, start, rounds)
    requires rounds < if overload then MAX_OVERLOAD_ATTEMPTS else MAX_ATTEMPTS
    ensures var at := start + rounds * ROUND;
            IsRoundsRun(s, before + [Refused(overload, at)] + [TimerFires(at + ROUND, false, true)],
                        overload, start, rounds + 1)
  {
    var at := start + rounds * ROUND;
    var refused, due := Refused(overload, at), TimerFires(at + ROUND, false, true);
    hide Step, Enabled, IsUnattended, Refusal, Sound, After, IsUnattendedRun, GiveUps, RefusedAfterGiveUp,
         AnyOverload, InTime, ClockAfter;
    OneRound(After(s, before), overload, at);
    TwoMore(s, before, refused, due);
    TwoMoreInTime(start, before, refused, due);
  }

  lemma NoRounds(s: Session, overload: bool, start: int)
    requires IsAtWork(s)
    ensures IsRoundsRun(s, [], overload, start, 0)
  {
    NoRun(s, start);
    hide After, IsUnattendedRun, InTime, ClockAfter;
  }

  /** The bound is reached: unattended runs in time can send a turn again five, or 360, times. */
  lemma {:induction false} BoundIsReached(s: Session, overload: bool, start: int, rounds: nat)
    requires IsAtWork(s) && rounds <= if overload then MAX_OVERLOAD_ATTEMPTS else MAX_ATTEMPTS
    ensures IsRoundsRun(s, Rounds(overload, start, rounds), overload, start, rounds)
  {
    hide IsRoundsRun, IsAtWork, IsUnattendedRun, InTime, ClockAfter, After, Step;
    if rounds == 0 {
      NoRounds(s, overload, start);
    } else {
      BoundIsReached(s, overload, start, rounds - 1);
      OneMoreRound(s, Rounds(overload, start, rounds - 1), overload, start, rounds - 1);
    }
  }

  /**
   * A limit refused when the budget is used up makes the session give up, but the query stays.
   * Refused on it once more, the turn is parked as a first attempt.
   */
  lemma RefusedAgainIsFirstAttempt(s: Session, at: int)
    requires Sound(s) && s.query && s.consecutiveRetries >= MAX_ATTEMPTS
    ensures var refused := Refused(false, at); var t := Step(s, refused); var u := Step(t, refused);
            && Enabled(s, refused) && IsUnattended(s, refused) && GivesUp(s, refused)
            && Enabled(t, refused) && IsUnattended(t, refused)
            && Sound(t) && t.query && t.consecutiveRetries == 0 && t.ledger.resends == s.ledger.resends
            && u.pending == Some(Pending(at + ROUND, 1)) && u.consecutiveRetries == 1
  {
    var refused := Refused(false, at);
    StepIs(s, refused);
    var t := Step(s, refused);
    assert t.query;
    hide Step;
    StepIs(t, refused);
  }

  /** Five rounds, a refusal that gives up, and another round: six resends without an overload. */
  lemma BoundIsPassed(s: Session, start: int) returns (ops: seq<Op>)
    requires IsAtWork(s)
    ensures IsUnattendedRun(s, ops) && InTime(start, ops)
    ensures !AnyOverload(s, ops) && Resends(s, ops) == MAX_ATTEMPTS + 1
  {
    var five, at := Rounds(false, start, MAX_ATTEMPTS), start + MAX_ATTEMPTS * ROUND;
    var refused, due := Refused(false, at), TimerFires(at + ROUND, false, true);
    BoundIsReached(s, false, start, MAX_ATTEMPTS);
    var t := After(s, five);
    RefusedAgainIsFirstAttempt(t, at);
    OneRound(Step(t, refused), false, at);
    hide Step, Enabled, IsUnattended, Sound, After, IsUnattendedRun, AnyOverload, InTime, ClockAfter, Rounds;
    ops := five + [refused];
    OneMoreUnattended(s, five, refused);
    OneMoreInTime(start, five, refused);
    OneMoreUnattended(s, ops, refused);
    OneMoreInTime(start, ops, refused);
    OneMoreUnattended(s, ops + [refused], due);
    OneMoreInTime(start, ops + [refused], due);
    ops := ops + [refused] + [due];
  }

  // ---------- when nothing is sent any more ----------------------------------------------

  /** Nothing parked, no query that could be refused, and no running turn that a stall would park. */
  predicate IsQuiet(s: Session) {
    s.pending.None? && !s.query && !(s.status.Running? && s.watchdog && s.consecutiveRetries < MAX_ATTEMPTS)
  }

  lemma QuietStays(s: Session, op: Op)
    requires Sound(s) && IsQuiet(s) && Enabled(s, op) && IsUnattended(s, op)
    ensures Sound(Step(s, op)) && IsQuiet(Step(s, op)) && Step(s, op).ledger.resends == s.ledger.resends
  {
    hide HeldAgain, CutOff, SwitchedAway, Sent, Busy;
  }

  lemma {:induction false} QuietRunSendsNothing(s: Session, ops: seq<Op>)
    requires Sound(s) && IsQuiet(s) && IsUnattendedRun(s, ops)
    ensures Sound(After(s, ops)) && IsQuiet(After(s, ops)) && Resends(s, ops) == 0
  {
    if ops == [] {
    } else {
      QuietRunSendsNothing(s, ops[..|ops| - 1]);
      QuietStays(After(s, ops[..|ops| - 1]), ops[|ops| - 1]);
      hide Step, Sound, IsQuiet, Enabled, IsUnattended;
    }
  }

  /** Some unattended run from now on sends something. */
  ghost predicate CanResend(s: Session, clock: int) {
    exists ops :: IsUnattendedRun(s, ops) && InTime(clock, ops) && Resends(s, ops) > 0
  }

  /** A turn refused while the budget lasts even for a stall, with nothing parked before. */
  predicate IsRefusedEarly(s: Session, op: Op) {
    && Sound(s) && Enabled(s, op) && IsUnattended(s, op)
    && s.pending.None? && s.consecutiveRetries < MAX_ATTEMPTS
    && Refusal(s, op).Some? && (op.TurnEnds? || op.WatchdogTicks?)
  }

  /** After a run that sends nothing, such a refusal leads to a resend. */
  lemma RefusedThenSent(s: Session, before: seq<Op>, op: Op, clock: int)
    requires IsUnattendedRun(s, before) && InTime(clock, before) && Resends(s, before) == 0
    requires IsRefusedEarly(After(s, before), op) && Begin(op, 0) >= ClockAfter(clock, before)
    ensures CanResend(s, clock)
  {
    hide Step, Sound, Enabled, IsUnattended, Refusal, GivesUp, After, IsUnattendedRun, GiveUps, RefusedAfterGiveUp,
         AnyOverload, InTime, ClockAfter;
    var due := RefusedIsDue(After(s, before), op);
    var ops := before + [op] + [due];
    TwoMore(s, before, op, due);
    TwoMoreInTime(clock, before, op, due);
    hide Begin, End, IsRefusedEarly;
    assert Resends(s, ops) > 0;
  }

  lemma RefusedIsDue(s: Session, op: Op) returns (due: Op)
    requires IsRefusedEarly(s, op)
    ensures var t := Step(s, op);
            && Enabled(s, op) && IsUnattended(s, op)
            && due.TimerFires? && op.now <= due.now && !GivesUp(s, op)
            && Enabled(t, due) && IsUnattended(t, due) && Refusal(t, due) == None
            && Step(t, due).ledger.resends == s.ledger.resends + 1
  {
    StepIs(s, op);
    var t := Step(s, op);
    due := TimerFires(Max(t.timer.value, op.now), false, true);
    hide Step;
    StepIs(t, due);
  }

  lemma ParkedIsSent(s: Session, clock: int)
    requires Sound(s) && s.pending.Some?
    ensures CanResend(s, clock)
  {
    var due := TimerFires(Max(s.timer.value, clock), false, true);
    StepIs(s, due);
    NoRun(s, clock);
    hide Step, After, IsUnattendedRun, InTime, ClockAfter;
    OneMoreUnattended(s, [], due);
    OneMoreInTime(clock, [], due);
    assert Resends(s, [] + [due]) > 0;
  }

  /** Refused on a limit with the budget used up, and once more as overloaded: that one is parked. */
  lemma GivesUpThenSends(s: Session, clock: int)
    requires Sound(s) && s.query && s.pending.None? && s.consecutiveRetries >= MAX_ATTEMPTS
    ensures CanResend(s, clock)
  {
    var refused := Refused(false, clock);
    RefusedAgainIsFirstAttempt(s, clock);
    StepIs(s, refused);
    NoRun(s, clock);
    hide Step, After, IsUnattendedRun, InTime, ClockAfter;
    OneMoreUnattended(s, [], refused);
    OneMoreInTime(clock, [], refused);
    RefusedThenSent(s, [] + [refused], Refused(true, clock), clock);
  }

  lemma NoRun(s: Session, clock: int)
    ensures After(s, []) == s && IsUnattendedRun(s, []) && InTime(clock, []) && ClockAfter(clock, []) == clock
  {
  }

  /** A session can send something unattended exactly when it is not quiet. */
  lemma ResendsAgainExactlyWhen(s: Session, clock: int)
    requires Sound(s)
    ensures CanResend(s, clock) <==> !IsQuiet(s)
  {
    NoRun(s, clock);
    if IsQuiet(s) {
      forall ops | IsUnattendedRun(s, ops)
        ensures Resends(s, ops) == 0
      {
        QuietRunSendsNothing(s, ops);
      }
    } else if s.pending.Some? {
      ParkedIsSent(s, clock);
    } else if s.query && s.consecutiveRetries >= MAX_ATTEMPTS {
      GivesUpThenSends(s, clock);
    } else if s.query {
      RefusedThenSent(s, [], Refused(true, clock), clock);
    } else {
      RefusedThenSent(s, [], WatchdogTicks(Max(clock, s.lastSdkActivityAt + STALL_MS)), clock);
    }
  }

  /**
   * Giving up is for good exactly when it leaves nothing that could be refused again: always
   * when the query has thrown, never on a turn's result, and on a stall if no query was left.
   */
  lemma GiveUpIsFinalExactlyWhen(s: Session, op: Op, clock: int)
    requires Sound(s) && Enabled(s, op) && IsUnattended(s, op) && GivesUp(s, op)
    ensures CanResend(Step(s, op), clock) <==> op.TurnEnds? || (op.WatchdogTicks? && s.query)
  {
    StepIs(s, op);
    WhatGiveUpLeaves(s, op);
    ResendsAgainExactlyWhen(Step(s, op), clock);
    hide Step;
  }

  lemma WhatGiveUpLeaves(s: Session, op: Op)
    requires Sound(s) && Enabled(s, op) && IsUnattended(s, op) && GivesUp(s, op)
    ensures Step(s, op).pending.None? && Step(s, op).consecutiveRetries == 0
    ensures IsQuiet(Step(s, op)) <==> op.QueryThrows? || (op.WatchdogTicks? && !s.query)
  {
  }

  // ---------- sent too early ---------------------------------------------------------------

  /** The run so far, in time from 0, and where it has got to. */
  predicate Reaches(ops: seq<Op>, s: Session, clock: int) {
    IsRun(Created, ops) && InTime(0, ops) && After(Created, ops) == s && ClockAfter(0, ops) == clock
  }

  lemma ReachesNext(ops: seq<Op>, s: Session, clock: int, op: Op)
    requires Reaches(ops, s, clock) && Enabled(s, op) && clock <= Begin(op, clock) && !op.Restarted?
    ensures Reaches(ops + [op], Step(s, op), Begin(op, clock))
  {
    hide Step, Enabled, IsRun, InTime, After, ClockAfter;
    OneMore(Created, ops, op);
    OneMoreInTime(0, ops, op);
  }

  /** An incident is named, the status page is watched and the query is there. */
  predicate IsWatchingIncident(s: Session) {
    Sound(s) && s.query && s.watching && s.incident.Some? && s.incident.value != ""
  }

  lemma OverloadIsNamed(s: Session, now: int)
    requires IsAtWork(s)
    ensures var t := Step(s, Refused(true, now)); var u := Step(t, PollStarts);
            && Enabled(s, Refused(true, now)) && t.query && t.pending.Some? && u == t
            && IsWatchingIncident(Step(u, PollAnswered(Open("incident"), now, false, true)))
  {
    StepIs(s, Refused(true, now));
  }

  const Answer := Outcome(None, None, false)

  /** A real answer drops what is parked; the incident stays named and the page watched. */
  lemma AnswerKeepsIncident(s: Session, now: int)
    requires IsWatchingIncident(s)
    ensures var t := Step(s, TurnEnds(Answer, now));
            IsWatchingIncident(t) && t.pending.None? && t.consecutiveRetries == 0
  {
  }

  lemma LimitKeepsIncident(s: Session, retryAt: int, now: int)
    requires IsWatchingIncident(s) && s.pending.None? && s.consecutiveRetries == 0
    ensures var t := Step(s, TurnEnds(Outcome(None, Some(Limited(retryAt, false)), false), now));
            IsWatchingIncident(t) && t.pending == Some(Pending(retryAt, 1)) && Step(t, PollStarts) == t
  {
    StepIs(s, TurnEnds(Outcome(None, Some(Limited(retryAt, false)), false), now));
  }

  /**
   * A turn parked on a plan limit can be sent long before its retry time. In this run of a new
   * session an overload's incident is named, the turn is then answered after all, the next
   * one is refused until an hour from the start, and within a poll interval the status page,
   * which is still watched, reports the old incident closed: the turn is sent at once.
   */
  lemma StaleIncidentSendsEarly() returns (ops: seq<Op>, s: Session, end: Op)
    ensures IsRun(Created, ops) && InTime(0, ops + [end]) && s == After(Created, ops) && Enabled(s, end)
    ensures s.watching && s.pending == Some(Pending(3_600_000, 1))
    ensures IsResend(s, end) && end.PollAnswered? && end.now == 61_000
    ensures Step(s, end).ledger.resends == s.ledger.resends + 1
  {
    hide Step, Reaches, Enabled, IsAtWork;
    FirstMessage(0);
    var s1 := Step(Created, UserSends(0, true));
    OverloadIsNamed(s1, 1_000);
    var named := PollAnswered(Open("incident"), 1_000, false, true);
    var s2 := Step(s1, Refused(true, 1_000));
    ops := NamedRun(s1, s2, Step(s2, named), named);
    ops, s := LimitedRun(ops, Step(s2, named));
    end := PollAnswered(NoneOpen, 61_000, false, true);
    SentByTheEnd(ops, s, 4_000, end);
  }

  lemma SentByTheEnd(ops: seq<Op>, s: Session, clock: int, end: Op)
    requires Reaches(ops, s, clock) && Sound(s) && s.incident.Some? && s.incident.value != "" && s.pending.Some?
    requires end.PollAnswered? && end.answer.NoneOpen? && clock <= end.now
    ensures IsRun(Created, ops) && InTime(0, ops + [end]) && s == After(Created, ops) && Enabled(s, end)
    ensures IsResend(s, end) && Step(s, end).ledger.resends == s.ledger.resends + 1
  {
    ReachesNext(ops, s, clock, end);
    StepIs(s, end);
    hide Step;
  }

  /** The turn is answered, and the next one parked on a limit. */
  lemma LimitedRun(before: seq<Op>, s3: Session) returns (ops: seq<Op>, s: Session)
    requires Reaches(before, s3, 1_000) && IsWatchingIncident(s3)
    ensures Reaches(ops, s, 4_000) && IsWatchingIncident(s) && s.pending == Some(Pending(3_600_000, 1))
  {
    var limited := TurnEnds(Outcome(None, Some(Limited(3_600_000, false)), false), 4_000);
    hide Step, Reaches;
    AnswerKeepsIncident(s3, 3_000);
    var s4 := Step(s3, TurnEnds(Answer, 3_000));
    LimitKeepsIncident(s4, 3_600_000, 4_000);
    s := Step(s4, limited);
    ReachesNext(before, s3, 1_000, TurnEnds(Answer, 3_000));
    ops := before + [TurnEnds(Answer, 3_000)];
    ReachesNext(ops, s4, 3_000, limited);
    ops := ops + [limited];
    ReachesNext(ops, s, 4_000, PollStarts);
    ops := ops + [PollStarts];
  }

  lemma NamedRun(s1: Session, s2: Session, s3: Session, named: Op) returns (ops: seq<Op>)
    requires s1 == Step(Created, UserSends(0, true)) && s2 == Step(s1, Refused(true, 1_000)) && s3 == Step(s2, named)
    requires Enabled(s1, Refused(true, 1_000)) && Step(s2, PollStarts) == s2
    requires named == PollAnswered(Open("incident"), 1_000, false, true)
    ensures Reaches(ops, s3, 1_000)
  {
    assert Reaches([], Created, 0);
    hide Step, Reaches;
    ReachesNext([], Created, 0, UserSends(0, true));
    ops := [] + [UserSends(0, true)];
    ReachesNext(ops, s1, 0, Refused(true, 1_000));
    ops := ops + [Refused(true, 1_000)];
    ReachesNext(ops, s2, 1_000, PollStarts);
    ops := ops + [PollStarts];
    ReachesNext(ops, s2, 1_000, named);
    ops := ops + [named];
  }

  /**
   * The named incident also outlives the watch. Here the status page is no longer asked once
   * the turn has been answered; ten hours later an overload starts it being asked again, and
   * its first answer, that nothing is open, sends the parked turn at once.
   */
  lemma OldIncidentSendsLaterTurn() returns (ops: seq<Op>, s: Session, end: Op)
    ensures IsRun(Created, ops) && InTime(0, ops + [end]) && s == After(Created, ops) && Enabled(s, end)
    ensures end == PollAnswered(NoneOpen, TEN_HOURS, false, true)
    ensures s.pending.Some? && s.pending.value.retryAt == TEN_HOURS + OVERLOAD_RETRY_MS
    ensures IsResend(s, end) && Step(s, end).ledger.resends == s.ledger.resends + 1
  {
    hide Step, Reaches, Enabled, IsWatchingIncident, IsAtWork;
    FirstMessage(0);
    var s1 := Step(Created, UserSends(0, true));
    OverloadIsNamed(s1, 1_000);
    var named := PollAnswered(Open("incident"), 1_000, false, true);
    var s2 := Step(s1, Refused(true, 1_000));
    ops := NamedRun(s1, s2, Step(s2, named), named);
    ops, s := OverloadedLater(ops, Step(s2, named));
    end := PollAnswered(NoneOpen, TEN_HOURS, false, true);
    SentByTheEnd(ops, s, TEN_HOURS, end);
  }

  const TEN_HOURS := 36_000_000

  lemma OverloadedLater(before: seq<Op>, s3: Session) returns (ops: seq<Op>, s: Session)
    requires Reaches(before, s3, 1_000) && IsWatchingIncident(s3)
    ensures Reaches(ops, s, TEN_HOURS) && Sound(s) && s.incident.Some? && s.incident.value != ""
    ensures s.pending.Some? && s.pending.value.retryAt == TEN_HOURS + OVERLOAD_RETRY_MS
  {
    AnswerKeepsIncident(s3, 3_000);
    var s4 := Step(s3, TurnEnds(Answer, 3_000));
    var s5 := Step(s4, PollStarts);
    UnwatchedKeepsIncident(s4);
    var s6 := Step(s5, UserSends(TEN_HOURS, true));
    s := Step(s6, Refused(true, TEN_HOURS));
    hide Step, Reaches;
    ReachesNext(before, s3, 1_000, TurnEnds(Answer, 3_000));
    ops := before + [TurnEnds(Answer, 3_000)];
    ReachesNext(ops, s4, 3_000, PollStarts);
    ops := ops + [PollStarts];
    ReachesNext(ops, s5, 3_000, UserSends(TEN_HOURS, true));
    ops := ops + [UserSends(TEN_HOURS, true)];
    ReachesNext(ops, s6, TEN_HOURS, Refused(true, TEN_HOURS));
    ops := ops + [Refused(true, TEN_HOURS)];
  }

  lemma UnwatchedKeepsIncident(s: Session)
    requires IsWatchingIncident(s) && s.pending.None? && s.consecutiveRetries == 0
    ensures var t := Step(s, PollStarts); var u := Step(t, UserSends(TEN_HOURS, true));
            var v := Step(u, Refused(true, TEN_HOURS));
            && !t.watching && t.incident == s.incident && u.query
            && Sound(v) && v.incident == s.incident
            && v.pending.Some? && v.pending.value.retryAt == TEN_HOURS + OVERLOAD_RETRY_MS
  {
    var u := Step(Step(s, PollStarts), UserSends(TEN_HOURS, true));
    StepIs(u, Refused(true, TEN_HOURS));
  }

  // ---------- an account chosen by hand ------------------------------------------------------

  /**
   * An account chosen by hand cuts every query off and parks nothing, unlike a switch the
   * daemon makes. What was parked already is still sent. A turn that was not is lost, unless
   * it was a running one that the watchdog can find stalled after twenty minutes of silence
   * while the retry count, which overloads use up as well, is below the budget of a stall.
   */
  lemma ChosenAccountLosesTurnExactlyWhen(s: Session, clock: int)
    requires Sound(s)
    ensures Step(s, AccountChosen).pending == s.pending
    ensures CanResend(Step(s, AccountChosen), clock) <==>
              s.pending.Some? || (s.status.Running? && s.watchdog && s.consecutiveRetries < MAX_ATTEMPTS)
  {
    ResendsAgainExactlyWhen(Step(s, AccountChosen), clock);
  }

  /** A new session's run, after which it is at work and an account chosen by hand loses the turn. */
  ghost predicate LosesTurn(ops: seq<Op>, s: Session, clock: int) {
    && IsRun(Created, ops) && InTime(0, ops) && After(Created, ops) == s && ClockAfter(0, ops) == clock
    && Busy(s, clock) && s.pending.None?
    && !CanResend(Step(s, AccountChosen), clock) && SwitchedAway(s, clock).pending.Some?
  }

  /** So it does for a session at work only through a subagent, after its turn was answered. */
  lemma ChosenAccountLosesTurn(now: int) returns (ops: seq<Op>, s: Session)
    requires now >= 120_000
    ensures LosesTurn(ops, s, now) && s.status.Idle?
  {
    hide Step, Reaches, Enabled, IsAtWork;
    FirstMessage(1);
    var s1 := Step(Created, UserSends(1, true));
    SubagentAtWork(s1, now);
    var s2 := Step(s1, TurnEnds(Answer, 2));
    var s3 := Step(s2, WatchdogTicks(60_002));
    s := Step(s3, SdkSpeaks(now, false, Some(now)));
    ops := SubagentRun(s1, s2, s3, s, now);
    ChosenAccountLosesTurnExactlyWhen(s, now);
    WhatReached(ops, s, now);
  }

  lemma SubagentAtWork(s: Session, now: int)
    requires IsAtWork(s) && s.watchdog
    ensures var t := Step(s, TurnEnds(Answer, 2)); var u := Step(t, WatchdogTicks(60_002));
            var v := Step(u, SdkSpeaks(now, false, Some(now)));
            && Enabled(s, TurnEnds(Answer, 2)) && Enabled(t, WatchdogTicks(60_002))
            && Enabled(u, SdkSpeaks(now, false, Some(now)))
            && Sound(v) && v.status.Idle? && v.pending.None? && Busy(v, now) && SwitchedAway(v, now).pending.Some?
  {
  }

  lemma SubagentRun(s1: Session, s2: Session, s3: Session, s: Session, now: int) returns (ops: seq<Op>)
    requires now >= 120_000 && s1 == Step(Created, UserSends(1, true)) && s2 == Step(s1, TurnEnds(Answer, 2))
    requires s3 == Step(s2, WatchdogTicks(60_002)) && s == Step(s3, SdkSpeaks(now, false, Some(now)))
    requires Enabled(s1, TurnEnds(Answer, 2)) && Enabled(s2, WatchdogTicks(60_002))
    requires Enabled(s3, SdkSpeaks(now, false, Some(now)))
    ensures Reaches(ops, s, now)
  {
    assert Reaches([], Created, 0);
    hide Step, Reaches;
    ReachesNext([], Created, 0, UserSends(1, true));
    ops := [] + [UserSends(1, true)];
    ReachesNext(ops, s1, 1, TurnEnds(Answer, 2));
    ops := ops + [TurnEnds(Answer, 2)];
    ReachesNext(ops, s2, 2, WatchdogTicks(60_002));
    ops := ops + [WatchdogTicks(60_002)];
    ReachesNext(ops, s3, 60_002, SdkSpeaks(now, false, Some(now)));
    ops := ops + [SdkSpeaks(now, false, Some(now))];
  }

  lemma WhatReached(ops: seq<Op>, s: Session, clock: int)
    requires Reaches(ops, s, clock)
    ensures IsRun(Created, ops) && InTime(0, ops) && After(Created, ops) == s && ClockAfter(0, ops) == clock
  {
  }

  /**
   * And for a running, watched turn in its sixth attempt against an overload: the stall that
   * the watchdog finds is over the budget, and the session gives up.
   */
  lemma ChosenAccountLosesOverloadedTurn(start: int) returns (ops: seq<Op>, s: Session)
    requires start >= 0
    ensures LosesTurn(ops, s, start + MAX_ATTEMPTS * ROUND)
    ensures s.status.Running? && s.watchdog && s.consecutiveRetries == MAX_ATTEMPTS
  {
    var first := UserSends(start, true);
    var s1, rounds := Step(Created, first), Rounds(true, start, MAX_ATTEMPTS);
    var clock := start + MAX_ATTEMPTS * ROUND;
    assert Reaches([], Created, 0);
    FirstMessage(start);
    hide Step;
    ReachesNext([], Created, 0, first);
    BoundIsReached(s1, true, start, MAX_ATTEMPTS);
    s := After(s1, rounds);
    ops := [] + [first] + rounds;
    ReachesRun([] + [first], s1, start, rounds);
    ChosenAccountLosesTurnExactlyWhen(s, clock);
    SwitchLosesNoTurn(s, clock);
  }

  /** An unattended run goes on from what has been reached. */
  lemma {:induction false} ReachesRun(before: seq<Op>, s: Session, clock: int, ops: seq<Op>)
    requires Reaches(before, s, clock) && IsUnattendedRun(s, ops) && InTime(clock, ops)
    ensures Reaches(before + ops, After(s, ops), ClockAfter(clock, ops))
  {
    if ops == [] {
      assert before + ops == before;
    } else {
      var init, op := ops[..|ops| - 1], ops[|ops| - 1];
      assert ops == init + [op] && before + ops == before + init + [op];
      OneMoreUnattended(s, init, op);
      OneMoreInTime(clock, init, op);
      hide Step, Enabled, IsUnattended, After, IsRun, IsUnattendedRun, InTime, ClockAfter, Begin, End;
      ReachesRun(before, s, clock, init);
      OneMore(Created, before + init, op);
      OneMoreInTime(0, before + init, op);
    }
  }
}
