/**
 * A turn held for an automatic retry (the parked-turn half of daemon/src/session.ts): what
 * each handler does to the session, and what holds over every run of them. What the SDK, the
 * status page and the other sessions do arrives as the handlers' inputs.
 */
module ParkedTurn {
  import opened Common
  import opened Limits
  import opened Rotation

  /** How long after its last sign of life an agent, or the SDK, counts as working. */
  const AGENT_ACTIVE_MS: nat := 45_000

  datatype Status = Idle | Running | Error

  datatype Pending = Pending(retryAt: int, attempts: nat)

  /** What has become of parked turns: parked, sent again, and let go on purpose. */
  datatype Ledger = Ledger(parks: nat, resends: nat, drops: nat)

  datatype Session = Session(
    status: Status,
    pending: Option<Pending>,
    /** The pending-turn file on disk. */
    file: Option<Pending>,
    /** When the retry timer is due, if it is armed. */
    timer: Option<int>,
    consecutiveRetries: nat,
    /** The status page is being polled, and the incident it has named. */
    watching: bool,
    incident: Option<string>,
    /** A query is installed; its watchdog; its last message; the newest sign of a subagent. */
    query: bool,
    watchdog: bool,
    lastSdkActivityAt: int,
    agentSeenAt: Option<int>,
    ledger: Ledger)

  predicate Busy(s: Session, now: int) {
    || s.status.Running?
    || (s.agentSeenAt.Some? && now - s.agentSeenAt.value <= AGENT_ACTIVE_MS)
    || (s.lastSdkActivityAt > 0 && now - s.lastSdkActivityAt < AGENT_ACTIVE_MS)
  }

  // ---------- holding and letting go -------------------------------------------------

  function IsHeld(s: Session): nat {
    if s.pending.Some? then 1 else 0
  }

  function Held(s: Session, p: Pending): Session {
    s.(pending := Some(p), file := Some(p), ledger := s.ledger.(parks := s.ledger.parks + 1 - IsHeld(s)))
  }

  function LetGo(s: Session): Session {
    s.(pending := None, file := None, ledger := s.ledger.(drops := s.ledger.drops + IsHeld(s)))
  }

  /** The timer armed from what is parked. */
  function Scheduled(s: Session, now: int): Session {
    s.(timer := if s.pending.None? then None else Some(Max(now, s.pending.value.retryAt)))
  }

  function Disposed(s: Session): Session {
    s.(query := false, agentSeenAt := None)
  }

  function SwitchParked(s: Session, retryAt: int, now: int): Session {
    if !Busy(s, now) || s.pending.Some? then s else Scheduled(Held(s, Pending(retryAt, 0)), now)
  }

  /** What an account switch does to every session. */
  function SwitchedAway(s: Session, now: int): Session {
    Disposed(SwitchParked(s, now + SWITCH_SETTLE_MS, now))
  }

  /** Why a turn is parked. A limit comes with the daemon's answer: when to retry, and whether it switched account. */
  datatype Cause = Stalled | Overloaded | LaunchFailed | Limited(retryAt: int, switched: bool)

  function Budget(c: Cause): nat {
    match c
    case Overloaded => MAX_OVERLOAD_ATTEMPTS
    case LaunchFailed => MAX_LAUNCH_ATTEMPTS
    case _ => MAX_ATTEMPTS
  }

  function RetryTime(c: Cause, now: int): int {
    match c
    case Stalled => now + STALL_RETRY_MS
    case Overloaded => now + OVERLOAD_RETRY_MS
    case LaunchFailed => now + LAUNCH_RETRY_MS
    case Limited(retryAt, _) => retryAt
  }

  function GivenUp(s: Session): Session {
    LetGo(s).(consecutiveRetries := 0, watching := false, incident := None)
  }

  function Parked(s: Session, c: Cause, now: int): Session {
    var attempts := s.consecutiveRetries + 1;
    if attempts > Budget(c) then GivenUp(s) else
      HeldAgain(CutOff(s, c, now), c, attempts, now)
  }

  function HeldAgain(s: Session, c: Cause, attempts: nat, now: int): Session {
    var s := s.(consecutiveRetries := attempts, watching := s.watching || c.Overloaded?);
    Scheduled(Held(s, Pending(RetryTime(c, now), attempts)), now)
  }

  /** What is torn down before the turn is parked: every session's query by a switch, its own if it does not answer. */
  function CutOff(s: Session, c: Cause, now: int): Session {
    if c.Limited? && c.switched then SwitchedAway(s, now)
    else if c.Stalled? || c.LaunchFailed? then Disposed(s)
    else s
  }

  function Cancelled(s: Session): Session {
    var t := LetGo(s).(watching := false, incident := None, timer := None);
    if s.pending.None? then t.(file := s.file) else t.(consecutiveRetries := 0)
  }

  /** A message goes out, superseding whatever is parked; it may find nothing to start. */
  function Sent(s: Session, now: int, canLaunch: bool): Session {
    var s := if s.pending.Some? then Cancelled(s) else s;
    if !s.query && !canLaunch then s.(status := Idle)
    else s.(query := true, status := Running, watchdog := true, lastSdkActivityAt := now)
  }

  /** The parked turn is sent again; the account may have been changed just before. */
  function Resent(s: Session, switched: bool, now: int, canLaunch: bool): Session {
    if s.pending.None? then s else
      var s := s.(watching := false, incident := None);
      var s := if switched then SwitchedAway(s, now) else s;
      Sent(s.(pending := None, file := None, ledger := s.ledger.(resends := s.ledger.resends + 1)), now, canLaunch)
  }

  // ---------- the handlers -------------------------------------------------------------

  /** What the status page says: it could not be asked, something is open, or nothing is. */
  datatype Incidents = Unknown | Open(worst: string) | NoneOpen

  /**
   * How a turn ended: an expired login moved it to another account (to be retried then), its
   * text is a limit notice the windows agree with, or an overload notice; none of these is an
   * answer.
   */
  datatype Outcome = Outcome(moved: Option<int>, limited: Option<Cause>, overloaded: bool)

  datatype Op =
    | UserSends(now: int, canLaunch: bool)
    | Interrupt
    | TimerFires(now: int, switched: bool, canLaunch: bool)
    | PollStarts
    | PollAnswered(answer: Incidents, now: int, switched: bool, canLaunch: bool)
    | SdkSpeaks(now: int, assistant: bool, agentSeenAt: Option<int>)
    | TurnEnds(outcome: Outcome, now: int)
    | QueryThrows(cause: Option<Cause>, now: int)
    | QueryEnds
    | WatchdogTicks(now: int)
    | AccountSwitched(now: int)
    | AccountChosen
    | FolderMoved(now: int)
    | Restarted(stop: int, start: int)
    | Crashed(start: int)

  function Spoken(s: Session, now: int, assistant: bool, agentSeenAt: Option<int>): Session {
    var s := s.(lastSdkActivityAt := now, agentSeenAt := agentSeenAt);
    if assistant && s.status.Idle? then s.(status := Running, watchdog := true) else s
  }

  function MovedForAuth(s: Session, retryAt: int, now: int): Session {
    var s := SwitchedAway(s, now);
    var s := s.(consecutiveRetries := s.consecutiveRetries + 1);
    Scheduled(Held(s, Pending(retryAt, s.consecutiveRetries)), now)
  }

  function Ended(s: Session, o: Outcome, now: int): Session {
    var s := s.(lastSdkActivityAt := now);
    Closed(if o.moved.Some? then MovedForAuth(s, o.moved.value, now) else s, o, now)
  }

  function Closed(s: Session, o: Outcome, now: int): Session {
    if o.limited.Some? then Parked(s.(status := Error), o.limited.value, now)
    else if o.overloaded then Parked(s.(status := Error), Overloaded, now)
    else if o.moved.Some? then s.(status := Idle)
    else if s.pending.Some? then LetGo(s).(consecutiveRetries := 0, timer := None, status := Idle)
    else s.(consecutiveRetries := 0, status := Idle)
  }

  function Thrown(s: Session, cause: Option<Cause>, now: int): Session {
    var s := s.(status := Error);
    (if cause.Some? then Parked(s, cause.value, now) else s).(query := false)
  }

  function WatchdogTicked(s: Session, now: int): Session {
    if !s.status.Running? then s.(watchdog := false)
    else if now - s.lastSdkActivityAt < STALL_MS then s
    else Parked(s.(watchdog := false), Stalled, now)
  }

  function Answered(s: Session, answer: Incidents, now: int, switched: bool, canLaunch: bool): Session {
    match answer
    case Unknown => s
    case Open(worst) => s.(incident := Some(worst))
    case NoneOpen =>
      if s.incident.None? || s.incident.value == "" then s
      else Resent(s.(incident := None, watching := false, timer := None), switched, now, canLaunch)
  }

  /** A session as a new daemon finds it: only the pending-turn file is left. */
  function Reborn(file: Option<Pending>, ledger: Ledger, now: int): Session {
    var created := Session(Idle, None, file, None, 0, false, None, false, false, 0, None, ledger);
    if file.None? then created
    else Scheduled(created.(pending := file, consecutiveRetries := file.value.attempts, status := Running), now)
  }

  function RestartParked(s: Session, now: int): Session {
    if !Busy(s, now) || s.pending.Some? then s else Held(s, Pending(now + RESTART_RESUME_MS, 0))
  }

  /** When a handler can be called at all. */
  predicate Enabled(s: Session, op: Op) {
    match op
    case TimerFires(now, _, _) => s.timer.Some? && s.timer.value <= now
    case TurnEnds(o, _) => s.query && (o.limited.Some? ==> o.limited.value.Limited?)
    case QueryThrows(cause, _) => s.query && (cause.Some? ==> cause.value.Overloaded? || cause.value.LaunchFailed?)
    case QueryEnds => s.query
    case SdkSpeaks(_, _, _) => s.query
    case WatchdogTicks(_) => s.watchdog
    case FolderMoved(now) => !Busy(s, now)
    case _ => true
  }

  function Step(s: Session, op: Op): Session {
    match op
    case UserSends(now, canLaunch) => Sent(s, now, canLaunch)
    case Interrupt => if s.pending.Some? then Cancelled(s) else s
    case TimerFires(now, switched, canLaunch) => Resent(s.(timer := None), switched, now, canLaunch)
    case PollStarts => if s.pending.None? then s.(watching := false) else s
    case PollAnswered(answer, now, switched, canLaunch) => Answered(s, answer, now, switched, canLaunch)
    case SdkSpeaks(now, assistant, agentSeenAt) => Spoken(s, now, assistant, agentSeenAt)
    case TurnEnds(outcome, now) => Ended(s, outcome, now)
    case QueryThrows(cause, now) => Thrown(s, cause, now)
    case QueryEnds => s.(status := Idle, query := false)
    case WatchdogTicks(now) => WatchdogTicked(s, now)
    case AccountSwitched(now) => SwitchedAway(s, now)
    case AccountChosen => Disposed(s)
    case FolderMoved(_) => Disposed(s)
    case Restarted(stop, start) => var s := RestartParked(s, stop); Reborn(s.file, s.ledger, start)
    case Crashed(start) => Reborn(s.file, s.ledger, start)
  }

  // ---------- what every handler keeps ---------------------------------------------------

  /**
   * A turn is parked in memory exactly when its file exists, and they agree; and every turn
   * ever parked has been sent again once, let go once, or is the one parked now.
   */
  predicate Accounted(s: Session) {
    && s.file == s.pending
    && s.ledger.parks == s.ledger.resends + s.ledger.drops + IsHeld(s)
  }

  /** A parked turn has its timer armed, and not for too early. */
  predicate Armed(s: Session) {
    s.pending.Some? ==> s.timer.Some? && s.timer.value >= s.pending.value.retryAt
  }

  predicate Sound(s: Session) {
    Accounted(s) && Armed(s)
  }

  /** This handler sends a parked turn again: its timer fires, or the incident it waits out is over. */
  predicate IsResend(s: Session, op: Op) {
    s.pending.Some? &&
    (op.TimerFires? || (op.PollAnswered? && op.answer.NoneOpen? && s.incident.Some? && s.incident.value != ""))
  }

  /** Nothing sent again or let go, the retry count as it was, and what was parked still is. */
  predicate OnlyParks(s: Session, t: Session) {
    && t.ledger.resends == s.ledger.resends && t.ledger.drops == s.ledger.drops
    && t.consecutiveRetries == s.consecutiveRetries
    && (s.pending.Some? ==> t.pending == s.pending)
  }

  /** Sent again once: nothing is parked now, and it went out unless Claude Code is not there to be started. */
  predicate IsSentAgain(s: Session, t: Session, canLaunch: bool) {
    && t.pending.None? && t.ledger == s.ledger.(resends := s.ledger.resends + 1)
    && t.consecutiveRetries == s.consecutiveRetries
    && (canLaunch ==> t.status.Running? && t.query)
  }

  /** Refused, a turn is held exactly when the budget for its cause is not yet used up. */
  predicate IsRefused(s: Session, t: Session, c: Cause, now: int) {
    && t.ledger.resends == s.ledger.resends
    && (if s.consecutiveRetries < Budget(c)
        then t.pending == Some(Pending(RetryTime(c, now), s.consecutiveRetries + 1))
          && t.consecutiveRetries == s.consecutiveRetries + 1
        else t.pending.None? && t.consecutiveRetries == 0)
  }

  lemma SwitchedAwayParks(s: Session, now: int)
    requires Accounted(s)
    ensures var t := SwitchedAway(s, now); Accounted(t) && OnlyParks(s, t) && (Armed(s) ==> Armed(t))
  {
  }

  lemma HeldIsSound(s: Session, p: Pending, now: int)
    requires Accounted(s)
    ensures var t := Scheduled(Held(s, p), now);
            && Sound(t) && t.pending == Some(p)
            && t.ledger.resends == s.ledger.resends && t.consecutiveRetries == s.consecutiveRetries
  {
  }

  lemma CutOffParks(s: Session, c: Cause, now: int)
    requires Accounted(s)
    ensures var t := CutOff(s, c, now); Accounted(t) && OnlyParks(s, t)
  {
    SwitchedAwayParks(s, now);
    hide SwitchedAway;
  }

  lemma ParkedIsRefused(s: Session, c: Cause, now: int)
    requires Accounted(s)
    ensures var t := Parked(s, c, now); Sound(t) && IsRefused(s, t, c, now)
  {
    CutOffParks(s, c, now);
    hide CutOff;
    var attempts := s.consecutiveRetries + 1;
    var cut := CutOff(s, c, now);
    HeldIsSound(cut.(consecutiveRetries := attempts, watching := cut.watching || c.Overloaded?),
                Pending(RetryTime(c, now), attempts), now);
    hide Held, Scheduled;
  }

  lemma SentSupersedes(s: Session, now: int, canLaunch: bool)
    requires Accounted(s)
    ensures var t := Sent(s, now, canLaunch);
            && Accounted(t) && t.pending.None? && t.ledger.resends == s.ledger.resends
            && (s.pending.None? ==> t.ledger == s.ledger && t.consecutiveRetries == s.consecutiveRetries)
            && (canLaunch ==> t.status.Running? && t.query)
  {
  }

  lemma ResentSendsAgain(s: Session, switched: bool, now: int, canLaunch: bool)
    requires Accounted(s)
    ensures var t := Resent(s, switched, now, canLaunch);
            && Accounted(t) && t.pending.None?
            && (if s.pending.None? then t == s else IsSentAgain(s, t, canLaunch))
  {
    hide Sent, SwitchedAway;
    if s.pending.Some? {
      var s1 := s.(watching := false, incident := None);
      SwitchedAwayParks(s1, now);
      var s2 := if switched then SwitchedAway(s1, now) else s1;
      var ledger := s2.ledger.(resends := s2.ledger.resends + 1);
      SentSupersedes(s2.(pending := None, file := None, ledger := ledger), now, canLaunch);
    }
  }

  lemma MovedIsSound(s: Session, retryAt: int, now: int)
    requires Accounted(s)
    ensures var t := MovedForAuth(s, retryAt, now); Sound(t) && t.ledger.resends == s.ledger.resends
  {
    SwitchedAwayParks(s, now);
    hide SwitchedAway, Held, Scheduled;
    var s1 := SwitchedAway(s, now);
    var s2 := s1.(consecutiveRetries := s1.consecutiveRetries + 1);
    HeldIsSound(s2, Pending(retryAt, s2.consecutiveRetries), now);
  }

  lemma EndedIsSound(s: Session, o: Outcome, now: int)
    requires Sound(s)
    ensures Sound(Ended(s, o, now)) && Ended(s, o, now).ledger.resends == s.ledger.resends
    ensures o.moved.None? && o.limited.Some? ==> IsRefused(s, Ended(s, o, now), o.limited.value, now)
    ensures o.moved.None? && o.limited.None? && o.overloaded ==> IsRefused(s, Ended(s, o, now), Overloaded, now)
  {
    var s1 := s.(lastSdkActivityAt := now);
    MovedIsSound(s1, if o.moved.Some? then o.moved.value else 0, now);
    hide MovedForAuth, Parked;
    var s2 := if o.moved.Some? then MovedForAuth(s1, o.moved.value, now) else s1;
    ParkedIsRefused(s2.(status := Error), if o.limited.Some? then o.limited.value else Overloaded, now);
  }

  lemma ThrownIsSound(s: Session, cause: Option<Cause>, now: int)
    requires Sound(s)
    ensures Sound(Thrown(s, cause, now)) && Thrown(s, cause, now).ledger.resends == s.ledger.resends
    ensures if cause.Some? then IsRefused(s, Thrown(s, cause, now), cause.value, now)
            else OnlyParks(s, Thrown(s, cause, now)) && Thrown(s, cause, now).pending == s.pending
  {
    hide Parked;
    if cause.Some? {
      ParkedIsRefused(s.(status := Error), cause.value, now);
    }
  }

  lemma WatchdogIsSound(s: Session, now: int)
    requires Sound(s)
    ensures Sound(WatchdogTicked(s, now)) && WatchdogTicked(s, now).ledger.resends == s.ledger.resends
    ensures if s.status.Running? && now - s.lastSdkActivityAt >= STALL_MS
            then IsRefused(s, WatchdogTicked(s, now), Stalled, now)
            else OnlyParks(s, WatchdogTicked(s, now)) && WatchdogTicked(s, now).pending == s.pending
  {
    hide Parked;
    ParkedIsRefused(s.(watchdog := false), Stalled, now);
  }

  lemma RebornIsSound(s: Session, now: int)
    requires Accounted(s)
    ensures var t := Reborn(s.file, s.ledger, now);
            Sound(t) && t.pending == s.pending && t.ledger == s.ledger
  {
  }

  lemma RestartParkedIs(s: Session, now: int)
    requires Accounted(s)
    ensures var t := RestartParked(s, now);
            Accounted(t) && OnlyParks(s, t) && (Busy(s, now) ==> t.pending.Some?)
  {
  }

  lemma TimerIsSound(s: Session, op: Op)
    requires Sound(s) && op.TimerFires?
    ensures Sound(Step(s, op))
    ensures if IsResend(s, op) then IsSentAgain(s, Step(s, op), op.canLaunch)
            else OnlyParks(s, Step(s, op)) && Step(s, op).pending == s.pending
  {
    hide Resent;
    ResentSendsAgain(s.(timer := None), op.switched, op.now, op.canLaunch);
  }

  lemma AnsweredIsSound(s: Session, op: Op)
    requires Sound(s) && op.PollAnswered?
    ensures Sound(Step(s, op))
    ensures if IsResend(s, op) then IsSentAgain(s, Step(s, op), op.canLaunch)
            else OnlyParks(s, Step(s, op)) && Step(s, op).pending == s.pending
  {
    hide Resent;
    ResentSendsAgain(s.(incident := None, watching := false, timer := None), op.switched, op.now, op.canLaunch);
  }

  lemma RestartIsSound(s: Session, op: Op)
    requires Sound(s) && (op.Restarted? || op.Crashed?)
    ensures Sound(Step(s, op))
    ensures Step(s, op).ledger.resends == s.ledger.resends && Step(s, op).ledger.drops == s.ledger.drops
    ensures s.pending.Some? ==> Step(s, op).pending == s.pending
    ensures op.Restarted? && Busy(s, op.stop) ==> Step(s, op).pending.Some?
  {
    hide Reborn, RestartParked;
    if op.Restarted? {
      RestartParkedIs(s, op.stop);
      RebornIsSound(RestartParked(s, op.stop), op.start);
    } else {
      RebornIsSound(s, op.start);
    }
  }

  /** The cause for which this handler finds the turn refused, if it does. */
  function Refusal(s: Session, op: Op): Option<Cause> {
    match op
    case TurnEnds(o, _) => if o.limited.Some? then o.limited else if o.overloaded then Some(Overloaded) else None
    case QueryThrows(cause, _) => cause
    case WatchdogTicks(now) =>
      if s.status.Running? && now - s.lastSdkActivityAt >= STALL_MS then Some(Stalled) else None
    case _ => None
  }

  /**
   * Every turn that ends is refused, and no one sends a message, stops the session or restarts
   * the daemon. The account may still be chosen by hand and the folder be moved: neither
   * parks, sends or lets go of anything.
   */
  predicate IsUnattended(s: Session, op: Op) {
    match op
    case TurnEnds(o, _) => o.moved.None? && Refusal(s, op).Some?
    case UserSends(_, _) => false
    case Interrupt => false
    case AccountSwitched(_) => false
    case Restarted(_, _) => false
    case Crashed(_) => false
    case _ => true
  }

  /** Everything the theorems below need of one step. */
  predicate StepIsRight(s: Session, op: Op) {
    var t := Step(s, op);
    && Sound(t)
    && (if IsResend(s, op) then IsSentAgain(s, t, op.canLaunch) else t.ledger.resends == s.ledger.resends)
    && (IsUnattended(s, op) && Refusal(s, op).Some? ==> IsRefused(s, t, Refusal(s, op).value, NowOf(op)))
    && (IsUnattended(s, op) && Refusal(s, op).None? && !IsResend(s, op) ==> OnlyParks(s, t) && t.pending == s.pending)
  }

  function NowOf(op: Op): int
    requires op.TurnEnds? || op.QueryThrows? || op.WatchdogTicks?
  {
    op.now
  }

  lemma StepIs(s: Session, op: Op)
    requires Sound(s) && Enabled(s, op)
    ensures StepIsRight(s, op)
  {
    hide SwitchedAway, Resent, Sent, Ended, Thrown, WatchdogTicked, Answered, Reborn, RestartParked;
    hide IsRefused, IsSentAgain, Busy;
    match op
    case UserSends(now, canLaunch) => SentSupersedes(s, now, canLaunch);
    case TimerFires(_, _, _) => TimerIsSound(s, op);
    case PollAnswered(_, _, _, _) => AnsweredIsSound(s, op);
    case TurnEnds(outcome, now) => EndedIsSound(s, outcome, now);
    case QueryThrows(cause, now) => ThrownIsSound(s, cause, now);
    case WatchdogTicks(now) => WatchdogIsSound(s, now);
    case AccountSwitched(now) => SwitchedAwayParks(s, now);
    case Restarted(_, _) => RestartIsSound(s, op);
    case Crashed(_) => RestartIsSound(s, op);
    case _ =>
  }

  // ---------- what each handler leaves behind ------------------------------------------------

  /** Who counts as at work, and for how long after the last sign of it. */
  lemma BusyWhile(s: Session, now: int, later: int, agent: bool)
    requires 0 < now <= later
    ensures var t := Step(s, SdkSpeaks(now, false, if agent then Some(now) else None));
            Busy(t, later) <==>
              s.status.Running? || later - now < AGENT_ACTIVE_MS || (agent && later - now == AGENT_ACTIVE_MS)
    ensures s.status.Running? ==> Busy(s, later)
    ensures !Busy(Created, later)
  {
  }

  /** A switch leaves no query of the account left, and every turn at work parked. */
  lemma SwitchedAwayLeaves(s: Session, now: int)
    ensures var t := SwitchedAway(s, now);
            && !t.query && t.agentSeenAt.None?
            && t.status == s.status && t.consecutiveRetries == s.consecutiveRetries
            && t.watching == s.watching && t.incident == s.incident && t.watchdog == s.watchdog
            && t.lastSdkActivityAt == s.lastSdkActivityAt
            && (if s.pending.Some? || !Busy(s, now)
                then t.pending == s.pending && t.file == s.file && t.timer == s.timer
                else && t.pending == t.file == Some(Pending(now + SWITCH_SETTLE_MS, 0))
                     && t.timer == Some(now + SWITCH_SETTLE_MS))
  {
  }

  /** A query that does not answer, or that a switch has cut off, is gone when its turn is parked. */
  predicate LosesQuery(c: Cause) {
    c.Stalled? || c.LaunchFailed? || (c.Limited? && c.switched)
  }

  /** Refused within the budget a turn is parked and its timer set; past it nothing is parked or counted. */
  lemma ParkedLeaves(s: Session, c: Cause, now: int)
    ensures var t := Parked(s, c, now);
            t.status == s.status && t.watchdog == s.watchdog && t.lastSdkActivityAt == s.lastSdkActivityAt
    ensures s.consecutiveRetries < Budget(c) ==>
              var t := Parked(s, c, now);
              && t.pending == t.file == Some(Pending(RetryTime(c, now), s.consecutiveRetries + 1))
              && t.timer == Some(Max(now, RetryTime(c, now)))
              && t.consecutiveRetries == s.consecutiveRetries + 1
              && t.query == (s.query && !LosesQuery(c)) && (LosesQuery(c) ==> t.agentSeenAt.None?)
              && t.watching == (s.watching || c.Overloaded?) && t.incident == s.incident
    ensures s.consecutiveRetries >= Budget(c) ==>
              var t := Parked(s, c, now);
              && t.pending.None? && t.file.None? && t.consecutiveRetries == 0
              && t.query == s.query && !t.watching && t.incident.None?
  {
    SwitchedAwayLeaves(s, now);
    hide SwitchedAway;
  }

  /** A message leaves nothing parked, and runs unless there is no query and none can be started. */
  lemma SentLeaves(s: Session, now: int, canLaunch: bool)
    ensures Sent(s, now, canLaunch).pending.None? && Sent(s, now, canLaunch).agentSeenAt == s.agentSeenAt
    ensures var t := Sent(s, now, canLaunch);
            if s.query || canLaunch
            then t.query && t.status.Running? && t.watchdog && t.lastSdkActivityAt == now
            else !t.query && t.status.Idle? && t.watchdog == s.watchdog && t.lastSdkActivityAt == s.lastSdkActivityAt
    ensures var t := Sent(s, now, canLaunch);
            if s.pending.Some?
            then t.file.None? && t.timer.None? && t.consecutiveRetries == 0 && !t.watching && t.incident.None?
            else && t.file == s.file && t.timer == s.timer && t.consecutiveRetries == s.consecutiveRetries
                 && t.watching == s.watching && t.incident == s.incident
  {
  }

  /** A turn sent again after a switch goes into a new query or nowhere. */
  lemma ResentLeaves(s: Session, switched: bool, now: int, canLaunch: bool)
    requires s.pending.Some?
    ensures var t := Resent(s, switched, now, canLaunch);
            && t.pending.None? && t.file.None? && t.timer == s.timer && !t.watching && t.incident.None?
            && t.consecutiveRetries == s.consecutiveRetries
            && (if canLaunch || (s.query && !switched)
                then t.query && t.status.Running? && t.watchdog && t.lastSdkActivityAt == now
                else !t.query && t.status.Idle?)
  {
    var s1 := s.(watching := false, incident := None);
    SwitchedAwayLeaves(s1, now);
    var s2 := if switched then SwitchedAway(s1, now) else s1;
    hide SwitchedAway, Sent;
    var ledger := s2.ledger.(resends := s2.ledger.resends + 1);
    SentLeaves(s2.(pending := None, file := None, ledger := ledger), now, canLaunch);
  }

  /** What an expired login leaves of the turn: parked for the other account, counted, its query gone. */
  lemma MovedLeaves(s: Session, retryAt: int, now: int)
    ensures var t := MovedForAuth(s, retryAt, now);
            && t.pending == t.file == Some(Pending(retryAt, s.consecutiveRetries + 1))
            && t.timer == Some(Max(now, retryAt)) && t.consecutiveRetries == s.consecutiveRetries + 1
            && !t.query && t.agentSeenAt.None? && t.status == s.status
            && t.watching == s.watching && t.incident == s.incident && t.watchdog == s.watchdog
            && t.lastSdkActivityAt == s.lastSdkActivityAt
  {
    SwitchedAwayLeaves(s, now);
    hide SwitchedAway;
  }

  /** The attempts counted when the turn's text is looked at: an expired login has used one. */
  function AttemptsSoFar(s: Session, o: Outcome): nat {
    s.consecutiveRetries + if o.moved.Some? then 1 else 0
  }

  function RefusedFor(o: Outcome): Option<Cause> {
    if o.limited.Some? then o.limited else if o.overloaded then Some(Overloaded) else None
  }

  /** However the turn's end is read: an answer settles everything, a refusal is parked or given up. */
  lemma EndedLeaves(s: Session, o: Outcome, now: int)
    ensures var t := Ended(s, o, now); var attempts := AttemptsSoFar(s, o); var refused := RefusedFor(o);
            && t.lastSdkActivityAt == now && t.watchdog == s.watchdog
            && t.status == (if refused.Some? then Error else Idle)
            && (refused.Some? && attempts < Budget(refused.value) ==>
                  && t.pending == t.file == Some(Pending(RetryTime(refused.value, now), attempts + 1))
                  && t.timer == Some(Max(now, RetryTime(refused.value, now))) && t.consecutiveRetries == attempts + 1)
            && (refused.Some? && attempts >= Budget(refused.value) ==>
                  t.pending.None? && t.file.None? && t.consecutiveRetries == 0)
            && (refused.None? && o.moved.Some? ==>
                  && t.pending == t.file == Some(Pending(o.moved.value, attempts))
                  && t.timer == Some(Max(now, o.moved.value)) && t.consecutiveRetries == attempts)
            && (refused.None? && o.moved.None? ==>
                  && t.pending.None? && t.consecutiveRetries == 0 && t.query == s.query
                  && (if s.pending.Some? then t.file.None? && t.timer.None?
                      else t.file == s.file && t.timer == s.timer))
            && (o.moved.Some? ==> !t.query)
            && (refused.Some? && attempts < Budget(refused.value) && LosesQuery(refused.value) ==> !t.query)
  {
    var s1 := s.(lastSdkActivityAt := now);
    MovedLeaves(s1, if o.moved.Some? then o.moved.value else 0, now);
    hide MovedForAuth, Parked;
    var s2 := if o.moved.Some? then MovedForAuth(s1, o.moved.value, now) else s1;
    ParkedLeaves(s2.(status := Error), if o.limited.Some? then o.limited.value else Overloaded, now);
  }

  /** A session starts anew with what its file holds, retry count included, and with nothing else. */
  lemma RebornLeaves(file: Option<Pending>, ledger: Ledger, now: int)
    ensures var t := Reborn(file, ledger, now);
            && t.pending == t.file == file && t.ledger == ledger
            && !t.query && !t.watchdog && !t.watching && t.incident.None?
            && t.agentSeenAt.None? && t.lastSdkActivityAt == 0
            && (if file.Some?
                then t.status.Running? && t.consecutiveRetries == file.value.attempts
                  && t.timer == Some(Max(now, file.value.retryAt))
                else t.status.Idle? && t.consecutiveRetries == 0 && t.timer.None?)
  {
  }

  const Created := Session(Idle, None, None, None, 0, false, None, false, false, 0, None, Ledger(0, 0, 0))

  /** Every handler of the run can be called when it is. */
  predicate IsRun(s: Session, ops: seq<Op>) {
    ops == [] || (IsRun(s, ops[..|ops| - 1]) && Enabled(After(s, ops[..|ops| - 1]), ops[|ops| - 1]))
  }

  function After(s: Session, ops: seq<Op>): Session {
    if ops == [] then s else Step(After(s, ops[..|ops| - 1]), ops[|ops| - 1])
  }

  /** What one more handler adds to a run. */
  lemma OneMore(s: Session, ops: seq<Op>, op: Op)
    ensures After(s, ops + [op]) == Step(After(s, ops), op)
    ensures IsRun(s, ops) && Enabled(After(s, ops), op) ==> IsRun(s, ops + [op])
  {
    assert (ops + [op])[..|ops + [op]| - 1] == ops;
    hide Step, Enabled;
  }

  /** When a handler looks at the clock; one that does not takes no time. */
  function Begin(op: Op, clock: int): int {
    match op
    case Interrupt => clock
    case PollStarts => clock
    case QueryEnds => clock
    case AccountChosen => clock
    case Restarted(stop, _) => stop
    case Crashed(start) => start
    case _ => op.now
  }

  function End(op: Op, clock: int): int {
    if op.Restarted? then op.start else Begin(op, clock)
  }

  function ClockAfter(clock: int, ops: seq<Op>): int {
    if ops == [] then clock else End(ops[|ops| - 1], ClockAfter(clock, ops[..|ops| - 1]))
  }

  /** The clock never runs back in the course of the run. */
  predicate InTime(clock: int, ops: seq<Op>) {
    ops == [] || (
      var before := ClockAfter(clock, ops[..|ops| - 1]);
      && InTime(clock, ops[..|ops| - 1])
      && before <= Begin(ops[|ops| - 1], before) <= End(ops[|ops| - 1], before))
  }

  lemma OneMoreInTime(clock: int, ops: seq<Op>, op: Op)
    ensures ClockAfter(clock, ops + [op]) == End(op, ClockAfter(clock, ops))
    ensures var before := ClockAfter(clock, ops);
            InTime(clock, ops + [op]) <==> InTime(clock, ops) && before <= Begin(op, before) <= End(op, before)
  {
    assert (ops + [op])[..|ops + [op]| - 1] == ops;
    hide Begin, End;
  }

  /** So in every run, whatever the order of handlers, restarts and crashes included. */
  lemma {:induction false} EveryRunIsSound(s: Session, ops: seq<Op>)
    requires Sound(s) && IsRun(s, ops)
    ensures Sound(After(s, ops))
    ensures After(s, ops).ledger.resends + IsHeld(After(s, ops)) <= After(s, ops).ledger.parks
  {
    if ops == [] {
    } else {
      EveryRunIsSound(s, ops[..|ops| - 1]);
      StepIs(After(s, ops[..|ops| - 1]), ops[|ops| - 1]);
    }
  }

  /**
   * A turn is sent again exactly when one is parked and it is due: its timer has fired at or
   * after its retry time, or the incident it waited out is over. Then it is sent once.
   */
  lemma ResentExactlyWhenDue(s: Session, op: Op)
    requires Sound(s) && Enabled(s, op)
    ensures Step(s, op).ledger.resends != s.ledger.resends <==> IsResend(s, op)
    ensures IsResend(s, op) ==> IsSentAgain(s, Step(s, op), op.canLaunch)
    ensures IsResend(s, op) && op.TimerFires? ==> op.now >= s.pending.value.retryAt
  {
    StepIs(s, op);
    hide Step;
  }

  /** A parked turn outlives a restart and even a crash, and a restart parks whatever is at work. */
  lemma RestartKeepsParked(s: Session, op: Op)
    requires Sound(s) && (op.Restarted? || op.Crashed?)
    ensures s.pending.Some? ==> Step(s, op).pending == s.pending
    ensures op.Restarted? && Busy(s, op.stop) ==> Step(s, op).pending.Some?
    ensures Step(s, op).ledger.resends == s.ledger.resends && Step(s, op).ledger.drops == s.ledger.drops
  {
    RestartIsSound(s, op);
    hide Step;
  }

  /** An account switch leaves no working session without a retry. */
  lemma SwitchLosesNoTurn(s: Session, now: int)
    requires Sound(s) && Busy(s, now)
    ensures SwitchedAway(s, now).pending.Some? && SwitchedAway(s, now).timer.Some?
    ensures s.pending.Some? ==> SwitchedAway(s, now).pending == s.pending
    ensures s.pending.None? ==> SwitchedAway(s, now).timer == Some(now + SWITCH_SETTLE_MS)
  {
  }
}
