/**
 * The sessions that share one account, and the daemon that switches it: the handlers of
 * `DaemonSession` (daemon/src/session.ts) and the callbacks of daemon/src/main.ts they call
 * back into. Every handler is proved to be a step of ParkedTurn's machine, for the session
 * it runs on and for all others.
 */
module Daemon {
  import opened Common
  import opened Limits
  import opened Rotation
  import opened ParkedTurn

  /** What a session notices about a turn that did not finish. */
  datatype Failure = Stall | Overload | LaunchFailure | PlanLimit(notice: Notice, windows: seq<Option<Window>>)

  function BudgetOf(f: Failure): nat {
    match f
    case Overload => MAX_OVERLOAD_ATTEMPTS
    case LaunchFailure => MAX_LAUNCH_ATTEMPTS
    case _ => MAX_ATTEMPTS
  }

  /** The cause it is parked for, once the daemon has answered a limit. */
  predicate IsCause(c: Cause, f: Failure) {
    match f
    case Stall => c.Stalled?
    case Overload => c.Overloaded?
    case LaunchFailure => c.LaunchFailed?
    case PlanLimit(_, _) => c.Limited?
  }

  function Unparked(s: Session): Session {
    s.(pending := None, file := None, ledger := s.ledger.(resends := s.ledger.resends + 1))
  }

  lemma ResentNothing(s: Session, now: int, canLaunch: bool)
    requires s.pending.None?
    ensures Resent(s, false, now, canLaunch) == s
  {
  }

  lemma ResentIs(s: Session, now: int, canLaunch: bool)
    requires s.pending.Some?
    ensures var quiet := s.(watching := false, incident := None);
            && Resent(s, false, now, canLaunch) == Sent(Unparked(quiet), now, canLaunch)
            && Resent(s, true, now, canLaunch) == Sent(Unparked(SwitchedAway(quiet, now)), now, canLaunch)
  {
  }

  lemma EndedIs(s: Session, now: int)
    ensures var heard := s.(lastSdkActivityAt := now);
            forall o ::
              Ended(s, o, now)
              == Closed(if o.moved.Some? then MovedForAuth(heard, o.moved.value, now) else heard, o, now)
  {
  }

  lemma TurnEndLeaves(s: Session, o: Outcome, now: int)
    ensures var t := Step(s, TurnEnds(o, now)); var attempts := AttemptsSoFar(s, o); var refused := RefusedFor(o);
            && t.status == (if refused.Some? then Error else Idle)
            && (refused.Some? && attempts < Budget(refused.value) ==>
                  && t.pending == t.file == Some(Pending(RetryTime(refused.value, now), attempts + 1))
                  && t.consecutiveRetries == attempts + 1)
            && (refused.Some? && attempts >= Budget(refused.value) ==>
                  t.pending.None? && t.file.None? && t.consecutiveRetries == 0)
            && (refused.None? && o.moved.Some? ==>
                  && t.pending == t.file == Some(Pending(o.moved.value, attempts))
                  && t.timer == Some(Max(now, o.moved.value)) && t.consecutiveRetries == attempts && !t.query)
            && (refused.None? && o.moved.None? ==>
                  && t.pending.None? && t.consecutiveRetries == 0 && t.query == s.query
                  && (s.pending.Some? ==> t.file.None? && t.timer.None?))
  {
    EndedLeaves(s, o, now);
    hide Ended;
  }

  lemma ParkedAgain(s: Session, c: Cause, now: int)
    requires s.consecutiveRetries < Budget(c)
    ensures Parked(s, c, now) == HeldAgain(CutOff(s, c, now), c, s.consecutiveRetries + 1, now)
  {
  }

  /** What can happen to one session alone. */
  datatype Own =
    | Message(now: int, canLaunch: bool)
    | Stop
    | Move(dir: string, now: int)
    | SdkMessage(now: int, assistant: bool, agentSeenAt: Option<int>)
    | QueryEnd
    | PollStart

  /** What can happen to one session and makes it call back into the daemon. */
  datatype Shared =
    | RetryTimer(now: int, canLaunch: bool)
    | PollAnswer(answer: Incidents, now: int, canLaunch: bool)
    | Result(needsSignIn: bool, limit: Option<Notice>, windows: seq<Option<Window>>, overload: bool, now: int)
    | QueryError(failure: Option<Failure>, now: int)
    | StallTick(now: int)

  /** What can happen to the daemon: something to one of its sessions, or to the account. */
  datatype Event =
    | Alone(session: DaemonSession, own: Own)
    | WithDaemon(session: DaemonSession, shared: Shared)
    | Activated(configDir: Option<string>, now: int)
    | Chosen(configDir: Option<string>)

  /** When it happens; what looks at no clock takes no time. */
  function TimeOf(event: Event, clock: int): int {
    match event
    case WithDaemon(_, shared) => shared.now
    case Activated(_, now) => now
    case _ => clock
  }

  predicate AreInTime(clock: int, events: seq<Event>)
    decreases |events|
  {
    events == [] || (
      && clock <= TimeOf(events[0], clock)
      && AreInTime(TimeOf(events[0], clock), events[1..]))
  }

  /** A change of account made by the daemon, and whether a limit was what drove it. */
  datatype Switch = Switch(at: int, byLimit: bool)

  /** In time, and none that a limit drove within the cooldown of an earlier one. */
  ghost predicate AreSpaced(switches: seq<Switch>) {
    forall i, j | 0 <= i < j < |switches| ::
      && switches[i].at <= switches[j].at
      && (switches[j].byLimit ==> switches[j].at - switches[i].at >= SWITCH_COOLDOWN_MS)
  }

  lemma OneMoreSwitch(switches: seq<Switch>, last: int, next: Switch)
    requires AreSpaced(switches) && (switches != [] ==> switches[|switches| - 1].at == last)
    requires last <= next.at && (next.byLimit ==> next.at - last >= SWITCH_COOLDOWN_MS)
    ensures AreSpaced(switches + [next])
  {
  }

  /** A step of the machine was taken, or none. */
  predicate Took(s: Session, op: Option<Op>, t: Session) {
    if op.Some? then Enabled(s, op.value) && t == Step(s, op.value) else t == s
  }

  lemma TookIsSound(s: Session, op: Option<Op>, t: Session)
    requires Sound(s) && Took(s, op, t)
    ensures Sound(t)
  {
    hide Step;
    if op.Some? {
      StepIs(s, op.value);
    }
  }

  lemma SwitchedStaysSound(s: Session, now: int)
    requires Sound(s)
    ensures Sound(SwitchedAway(s, now))
  {
    SwitchedAwayParks(s, now);
  }

  lemma ChosenStaysSound(s: Session)
    requires Sound(s)
    ensures Sound(Step(s, AccountChosen))
  {
  }

  /** Moving a chat: refused mid-turn, and nothing to do for the folder it is in. */
  datatype Moved = Refused | Unchanged | ToFolder

  // ---------- one session ------------------------------------------------------------

  class DaemonSession {
    const id: string
    var cwd: string
    var status: Status
    var pending: Option<Pending>
    var pendingFile: Option<Pending>
    var retryTimer: Option<int>
    var consecutiveRetries: nat
    var statusTimer: bool
    var namedIncident: Option<string>
    var activeQuery: bool
    var stallTimer: bool
    var lastSdkActivityAt: int
    var agentSeenAt: Option<int>
    ghost var ledger: Ledger

    ghost function State(): Session
      reads this
    {
      Session(status, pending, pendingFile, retryTimer, consecutiveRetries, statusTimer, namedIncident,
              activeQuery, stallTimer, lastSdkActivityAt, agentSeenAt, ledger)
    }

    /** A session as a starting daemon makes it, resuming what it left parked. */
    constructor (id: string, cwd: string, file: Option<Pending>, ghost ledger: Ledger, now: int)
      ensures State() == Reborn(file, ledger, now) && this.id == id && this.cwd == cwd
      ensures pending == pendingFile == file && !activeQuery && !stallTimer && !statusTimer
      ensures if file.Some?
              then status.Running? && retryTimer == Some(Max(now, file.value.retryAt))
                && consecutiveRetries == file.value.attempts
              else status.Idle? && retryTimer.None? && consecutiveRetries == 0
    {
      this.id, this.cwd := id, cwd;
      status, pending, pendingFile, retryTimer, consecutiveRetries := Idle, None, file, None, 0;
      statusTimer, namedIncident, activeQuery, stallTimer := false, None, false, false;
      lastSdkActivityAt, agentSeenAt := 0, None;
      this.ledger := ledger;
      new;
      RestorePending(now);
    }

    method RestorePending(now: int)
      modifies this
      ensures cwd == old(cwd)
      ensures State() == if old(pendingFile).None? then old(State())
                         else Scheduled(old(State()).(pending := old(pendingFile), status := Running,
                                                      consecutiveRetries := old(pendingFile).value.attempts), now)
    {
      if pendingFile.None? {
        return;
      }
      pending := pendingFile;
      consecutiveRetries := pendingFile.value.attempts;
      status := Running;
      ScheduleRetry(now);
    }

    predicate IsBusy(now: int)
      reads this
      ensures IsBusy(now) == Busy(State(), now)
    {
      || status.Running?
      || (agentSeenAt.Some? && now - agentSeenAt.value <= AGENT_ACTIVE_MS)
      || (lastSdkActivityAt > 0 && now - lastSdkActivityAt < AGENT_ACTIVE_MS)
    }

    method Hold(p: Pending)
      modifies `pending, `pendingFile, `ledger
      ensures State() == Held(old(State()), p)
    {
      ledger := ledger.(parks := ledger.parks + 1 - IsHeld(State()));
      pending := Some(p);
      pendingFile := pending;
    }

    method LetGo()
      modifies `pending, `pendingFile, `ledger
      ensures State() == ParkedTurn.LetGo(old(State()))
    {
      ledger := ledger.(drops := ledger.drops + IsHeld(State()));
      pending := None;
      pendingFile := None;
    }

    method ScheduleRetry(now: int)
      modifies `retryTimer
      ensures State() == Scheduled(old(State()), now)
    {
      retryTimer := None;
      if pending.None? {
        return;
      }
      var delay := Max(0, pending.value.retryAt - now);
      retryTimer := Some(now + delay);
    }

    method DisposeActiveQuery()
      modifies `activeQuery, `agentSeenAt
      ensures State() == Disposed(old(State()))
      ensures !activeQuery && agentSeenAt.None?
    {
      agentSeenAt := None;
      activeQuery := false;
    }

    method ParkForAccountSwitch(retryAt: int, now: int) returns (queued: bool)
      modifies this
      ensures State() == SwitchParked(old(State()), retryAt, now)
      ensures queued == old(IsBusy(now))
      ensures queued ==> pending.Some?
      ensures if queued && old(pending).None?
              then pending == pendingFile == Some(Pending(retryAt, 0)) && retryTimer == Some(Max(now, retryAt))
              else State() == old(State())
    {
      if !IsBusy(now) {
        return false;
      }
      if pending.Some? {
        return true;
      }
      Hold(Pending(retryAt, 0));
      ScheduleRetry(now);
      return true;
    }

    method ParkForRestart(now: int) returns (queued: bool)
      modifies `pending, `pendingFile, `ledger
      ensures State() == RestartParked(old(State()), now)
      ensures queued == old(IsBusy(now))
      ensures if queued && old(pending).None?
              then pending == pendingFile == Some(Pending(now + RESTART_RESUME_MS, 0))
              else State() == old(State())
    {
      if !IsBusy(now) {
        return false;
      }
      if pending.Some? {
        return true;
      }
      Hold(Pending(now + RESTART_RESUME_MS, 0));
      return true;
    }

    method CancelPendingRetry()
      modifies this
      ensures State() == Cancelled(old(State()))
    {
      statusTimer := false;
      namedIncident := None;
      retryTimer := None;
      if pending.None? {
        return;
      }
      consecutiveRetries := 0;
      LetGo();
    }

    method EnsureQuery(canLaunch: bool) returns (started: bool)
      modifies this
      ensures started == (old(activeQuery) || canLaunch)
      ensures State() == if started then old(State()).(query := true) else old(State()).(status := Idle)
    {
      if activeQuery {
        return true;
      }
      if !canLaunch {
        status := Idle;
        return false;
      }
      activeQuery := true;
      return true;
    }

    method SendMessage(now: int, canLaunch: bool)
      modifies this
      ensures State() == Sent(old(State()), now, canLaunch)
      ensures pending.None?
      ensures old(pending).Some? ==>
                && pendingFile.None? && retryTimer.None? && consecutiveRetries == 0
                && !statusTimer && namedIncident.None?
      ensures if old(activeQuery) || canLaunch
              then activeQuery && status.Running? && stallTimer && lastSdkActivityAt == now
              else !activeQuery && status.Idle?
    {
      if pending.Some? {
        CancelPendingRetry();
      }
      var started := EnsureQuery(canLaunch);
      if !started {
        return;
      }
      status := Running;
      ArmStallWatchdog(now);
    }

    method ArmStallWatchdog(now: int)
      modifies this
      ensures State() == old(State()).(watchdog := true, lastSdkActivityAt := now)
    {
      lastSdkActivityAt := now;
      stallTimer := true;
    }

    method Interrupt()
      modifies this
      ensures State() == Step(old(State()), ParkedTurn.Interrupt)
      ensures pending.None? && status == old(status) && activeQuery == old(activeQuery)
      ensures if old(pending).Some?
              then pendingFile.None? && retryTimer.None? && consecutiveRetries == 0
                && !statusTimer && namedIncident.None?
              else State() == old(State())
    {
      if pending.Some? {
        CancelPendingRetry();
      }
    }

    method MoveTo(dir: string, now: int) returns (moved: Moved)
      modifies this
      ensures moved == if !Enabled(old(State()), FolderMoved(now)) then Refused
                       else if dir == old(cwd) then Unchanged else ToFolder
      ensures State() == if moved.ToFolder? then Step(old(State()), FolderMoved(now)) else old(State())
      ensures cwd == if moved.ToFolder? then dir else old(cwd)
      ensures moved.Refused? <==> old(IsBusy(now))
      ensures moved.ToFolder? ==> !activeQuery && pending == old(pending) && status == old(status)
    {
      if status.Running? || IsBusy(now) {
        return Refused;
      }
      if dir == cwd {
        return Unchanged;
      }
      cwd := dir;
      DisposeActiveQuery();
      return ToFolder;
    }

    method OnSdkMessage(now: int, assistant: bool, agentSeenAt: Option<int>)
      requires activeQuery
      modifies this
      ensures State() == Step(old(State()), SdkSpeaks(now, assistant, agentSeenAt))
      ensures lastSdkActivityAt == now && this.agentSeenAt == agentSeenAt && activeQuery
      ensures pending == old(pending) && pendingFile == old(pendingFile) && retryTimer == old(retryTimer)
      ensures if assistant && old(status).Idle? then status.Running? && stallTimer
              else status == old(status) && stallTimer == old(stallTimer)
    {
      this.agentSeenAt := agentSeenAt;
      lastSdkActivityAt := now;
      if assistant && status.Idle? {
        status := Running;
        ArmStallWatchdog(now);
      }
    }

    method OnQueryEnd()
      requires activeQuery
      modifies this
      ensures State() == Step(old(State()), QueryEnds)
      ensures status.Idle? && !activeQuery
      ensures pending == old(pending) && pendingFile == old(pendingFile) && retryTimer == old(retryTimer)
      ensures consecutiveRetries == old(consecutiveRetries)
    {
      status := Idle;
      activeQuery := false;
    }

    method WatchStatusPage()
      modifies this
      ensures State() == old(State()).(watching := true)
    {
      statusTimer := true;
    }

    method OnPollStart() returns (asks: bool)
      modifies this
      ensures asks == pending.Some?
      ensures State() == Step(old(State()), PollStarts)
      ensures pending == old(pending) && retryTimer == old(retryTimer) && namedIncident == old(namedIncident)
      ensures statusTimer == (old(statusTimer) && asks)
    {
      if pending.None? {
        statusTimer := false;
        return false;
      }
      return true;
    }

    // ---------- the handlers that call back into the daemon --------------------------

    /** Hold a turn that was refused, unless its budget is used up. */
    method ParkForLimit(daemon: Daemon, failure: Failure, now: int)
      returns (ghost cause: Cause, ghost switched: bool, ghost wait: RetryPlan, ghost plan: RotationPlan)
      requires this in daemon.sessions
      modifies daemon, daemon.sessions
      ensures IsCause(cause, failure)
      ensures failure.PlanLimit? && old(consecutiveRetries) < MAX_ATTEMPTS ==>
                && IsRetryPlan(wait, failure.windows, failure.notice, now, old(consecutiveRetries) + 1, id)
                && daemon.AnsweredLimit(plan, wait.at, now)
                && cause == Limited(plan.retryAt, plan.switchTo.Some?)
      ensures State() == Parked(old(State()), cause, now)
      ensures daemon.OthersSwitched(this, switched, now) && daemon.KeepsSpaced(now)
      ensures switched ==> failure.PlanLimit? && now - old(daemon.lastSwitchAt) >= SWITCH_COOLDOWN_MS
      ensures cause.Limited? ==> cause.switched == switched
      ensures !failure.PlanLimit? || old(consecutiveRetries) >= MAX_ATTEMPTS ==> daemon.Untouched()
      ensures daemon.unusable == old(daemon.unusable)
      ensures !switched ==> daemon.active == old(daemon.active) && daemon.lastSwitchAt == old(daemon.lastSwitchAt)
      ensures status == old(status) && stallTimer == old(stallTimer)
      ensures old(consecutiveRetries) >= BudgetOf(failure) ==>
                && pending.None? && pendingFile.None? && consecutiveRetries == 0
                && !statusTimer && namedIncident.None? && activeQuery == old(activeQuery)
      ensures old(consecutiveRetries) < BudgetOf(failure) ==>
                && pending == pendingFile == Some(Pending(RetryTime(cause, now), old(consecutiveRetries) + 1))
                && retryTimer == Some(Max(now, RetryTime(cause, now)))
                && consecutiveRetries == old(consecutiveRetries) + 1
                && activeQuery == (old(activeQuery) && !switched && !failure.Stall? && !failure.LaunchFailure?)
                && statusTimer == (old(statusTimer) || failure.Overload?)
    {
      hide IsPlan, IsRetryPlan, SwitchedAway, AreSpaced, Parked;
      cause, switched, wait, plan := ParkRefused(daemon, failure, now);
      ParkedLeaves(old(State()), cause, now);
    }

    /** The steps of that. */
    method ParkRefused(daemon: Daemon, failure: Failure, now: int)
      returns (ghost cause: Cause, ghost switched: bool, ghost wait: RetryPlan, ghost plan: RotationPlan)
      requires this in daemon.sessions
      modifies daemon, daemon.sessions
      ensures IsCause(cause, failure)
      ensures failure.PlanLimit? && old(consecutiveRetries) < MAX_ATTEMPTS ==>
                && IsRetryPlan(wait, failure.windows, failure.notice, now, old(consecutiveRetries) + 1, id)
                && daemon.AnsweredLimit(plan, wait.at, now)
                && cause == Limited(plan.retryAt, plan.switchTo.Some?)
      ensures State() == Parked(old(State()), cause, now)
      ensures daemon.OthersSwitched(this, switched, now) && daemon.KeepsSpaced(now)
      ensures switched ==> failure.PlanLimit? && now - old(daemon.lastSwitchAt) >= SWITCH_COOLDOWN_MS
      ensures cause.Limited? ==> cause.switched == switched
      ensures !failure.PlanLimit? || old(consecutiveRetries) >= MAX_ATTEMPTS ==> daemon.Untouched()
      ensures daemon.unusable == old(daemon.unusable)
      ensures !switched ==> daemon.active == old(daemon.active) && daemon.lastSwitchAt == old(daemon.lastSwitchAt)
    {
      hide IsPlan, IsRetryPlan, SwitchedAway, AreSpaced;
      switched := false;
      wait, plan := RetryPlan(now, FromBackoff), RotationPlan(None, now, Disabled);
      var attempts := consecutiveRetries + 1;
      var maxAttempts := match failure
        case Overload => MAX_OVERLOAD_ATTEMPTS
        case LaunchFailure => MAX_LAUNCH_ATTEMPTS
        case _ => MAX_ATTEMPTS;
      cause := match failure
        case Overload => Overloaded
        case LaunchFailure => LaunchFailed
        case Stall => Stalled
        case _ => Limited(now, false);
      if attempts > maxAttempts {
        consecutiveRetries := 0;
        LetGo();
        statusTimer := false;
        namedIncident := None;
        return;
      }
      ghost var was := State();
      hide Parked, HeldAgain, Scheduled, Held;
      match failure {
        case PlanLimit(notice, windows) =>
          var reset := PlanRetry(windows, notice, now, attempts, id);
          var reply := daemon.OnLimited(reset.at, now);
          wait, plan, switched := reset, reply, reply.switchTo.Some?;
          cause := Limited(reply.retryAt, switched);
          HoldAgain(PlanLimit(notice, windows), reply.retryAt, attempts, now, cause);
        case Overload => HoldAgain(Overload, now + OVERLOAD_RETRY_MS, attempts, now, cause);
        case _ =>
          DisposeActiveQuery();
          var wait := if failure.Stall? then STALL_RETRY_MS else LAUNCH_RETRY_MS;
          HoldAgain(failure, now + wait, attempts, now, cause);
      }
      ParkedAgain(was, cause, now);
    }

    /** Park the turn for its next attempt. */
    method HoldAgain(failure: Failure, retryAt: int, attempts: nat, now: int, ghost cause: Cause)
      requires IsCause(cause, failure) && retryAt == RetryTime(cause, now)
      modifies this
      ensures State() == HeldAgain(old(State()), cause, attempts, now)
    {
      consecutiveRetries := attempts;
      Hold(Pending(retryAt, attempts));
      ScheduleRetry(now);
      if failure.Overload? {
        WatchStatusPage();
      }
    }

    /** Send what is parked, on an account that has room if there is one. */
    method RunPendingRetry(daemon: Daemon, now: int, canLaunch: bool) returns (ghost target: Option<Account>)
      requires this in daemon.sessions
      modifies daemon, daemon.sessions
      ensures State() == Resent(old(State()), target.Some?, now, canLaunch)
      ensures daemon.OthersSwitched(this, target.Some?, now) && daemon.KeepsSpaced(now)
      ensures if old(pending).Some? then daemon.RetriedOn(target, now) else target.None? && daemon.Untouched()
      ensures old(pending).Some? ==>
                && pending.None? && pendingFile.None? && !statusTimer && namedIncident.None?
                && consecutiveRetries == old(consecutiveRetries) && retryTimer == old(retryTimer)
      ensures old(pending).Some? ==>
                if canLaunch || (old(activeQuery) && target.None?)
                then activeQuery && status.Running? && stallTimer && lastSdkActivityAt == now
                else !activeQuery && status.Idle?
      ensures old(pending).None? ==> State() == old(State())
    {
      hide SwitchedAway, Sent, IsForRetry, AreSpaced, Resent;
      if pending.None? {
        ResentNothing(State(), now, canLaunch);
        return None;
      }
      ResentIs(State(), now, canLaunch);
      statusTimer := false;
      namedIncident := None;
      var account := daemon.BeforeRetry(now);
      target := account;
      SendParked(now, canLaunch);
      ResentLeaves(old(State()), target.Some?, now, canLaunch);
    }

    /** What is parked goes out as a message; cleared first, so that sending does not cancel it. */
    method SendParked(now: int, canLaunch: bool)
      modifies this
      ensures State() == Sent(Unparked(old(State())), now, canLaunch)
    {
      pending := None;
      pendingFile := None;
      ledger := ledger.(resends := ledger.resends + 1);
      SendMessage(now, canLaunch);
    }

    method OnRetryTimer(daemon: Daemon, now: int, canLaunch: bool) returns (ghost target: Option<Account>)
      requires this in daemon.sessions
      requires retryTimer.Some? && retryTimer.value <= now
      modifies daemon, daemon.sessions
      ensures State() == Step(old(State()), TimerFires(now, target.Some?, canLaunch))
      ensures daemon.OthersSwitched(this, target.Some?, now) && daemon.KeepsSpaced(now)
      ensures old(pending).Some? ==> daemon.RetriedOn(target, now)
      ensures old(pending).Some? ==>
                && pending.None? && pendingFile.None? && !statusTimer && namedIncident.None?
                && consecutiveRetries == old(consecutiveRetries)
      ensures old(pending).Some? ==>
                if canLaunch || (old(activeQuery) && target.None?)
                then activeQuery && status.Running? && stallTimer && lastSdkActivityAt == now
                else !activeQuery && status.Idle?
      ensures retryTimer.None?
      ensures old(pending).None? ==> status == old(status) && activeQuery == old(activeQuery) && pending.None?
    {
      hide Resent, IsForRetry;
      retryTimer := None;
      target := RunPendingRetry(daemon, now, canLaunch);
    }

    method OnPollAnswer(daemon: Daemon, answer: Incidents, now: int, canLaunch: bool)
      returns (ghost target: Option<Account>)
      requires this in daemon.sessions
      modifies daemon, daemon.sessions
      ensures State() == Step(old(State()), PollAnswered(answer, now, target.Some?, canLaunch))
      ensures daemon.OthersSwitched(this, target.Some?, now) && daemon.KeepsSpaced(now)
      ensures target.Some? ==> daemon.RetriedOn(target, now)
      ensures answer.Unknown? ==> State() == old(State())
      ensures answer.Open? ==> State() == old(State()).(incident := Some(answer.worst))
      ensures answer.NoneOpen? && (old(namedIncident).None? || old(namedIncident).value == "") ==>
                State() == old(State())
      ensures answer.NoneOpen? && old(namedIncident).Some? && old(namedIncident).value != "" ==>
                && pending.None? && retryTimer.None? && !statusTimer && namedIncident.None?
                && (old(pending).Some? && canLaunch ==> activeQuery && status.Running?)
    {
      hide Resent, IsForRetry;
      match answer
      case Unknown => return None;
      case Open(worst) =>
        namedIncident := Some(worst);
        return None;
      case NoneOpen =>
        if namedIncident.None? || namedIncident.value == "" {
          return None;
        }
        namedIncident := None;
        statusTimer := false;
        retryTimer := None;
        target := RunPendingRetry(daemon, now, canLaunch);
    }

    /**
     * A turn has ended. What its text is taken for: a login that has expired, a limit notice
     * (believed only if the windows agree), an overload; or else an answer.
     */
    method OnResult(daemon: Daemon, needsSignIn: bool, limit: Option<Notice>, windows: seq<Option<Window>>,
                    overload: bool, now: int)
      returns (ghost outcome: Outcome, ghost switched: bool, ghost next: Option<Account>,
               ghost wait: RetryPlan, ghost plan: RotationPlan)
      requires this in daemon.sessions && activeQuery
      modifies daemon, daemon.sessions
      ensures outcome.limited.Some? <==> limit.Some? && WindowsLookLimited(windows)
      ensures outcome.limited.Some? ==> outcome.limited.value.Limited?
      ensures outcome.overloaded == overload
      ensures State() == Step(old(State()), TurnEnds(outcome, now))
      ensures daemon.OthersSwitched(this, switched, now) && daemon.KeepsSpaced(now)
      ensures !needsSignIn && outcome.limited.None? ==> daemon.Untouched()
      // An expired login is given up, and the turn moves on exactly when it can.
      ensures daemon.LeftLogin(needsSignIn, next, now) && (next.Some? ==> daemon.active == next.value.configDir)
      ensures outcome.moved == if next.Some? then Some(now + SWITCH_SETTLE_MS) else None
      // A limit is waited out as the windows and the notice say, and as the daemon answers.
      ensures outcome.limited.Some? && AttemptsSoFar(old(State()), outcome) < MAX_ATTEMPTS ==>
                && IsRetryPlan(wait, windows, limit.value, now, AttemptsSoFar(old(State()), outcome) + 1, id)
                && (!needsSignIn ==> daemon.AnsweredLimit(plan, wait.at, now))
                && outcome.limited.value == Limited(plan.retryAt, plan.switchTo.Some?)
      ensures RefusedFor(outcome).None? && next.None? ==>
                && status.Idle? && pending.None? && consecutiveRetries == 0 && activeQuery
                && (old(pending).Some? ==> pendingFile.None? && retryTimer.None?)
      ensures RefusedFor(outcome).None? && next.Some? ==>
                && status.Idle? && !activeQuery && consecutiveRetries == old(consecutiveRetries) + 1
                && pending == pendingFile == Some(Pending(now + SWITCH_SETTLE_MS, consecutiveRetries))
                && retryTimer == Some(now + SWITCH_SETTLE_MS)
      ensures RefusedFor(outcome).Some? ==>
                && status.Error?
                && (if AttemptsSoFar(old(State()), outcome) < Budget(RefusedFor(outcome).value)
                    then pending == pendingFile && pending.Some?
                      && pending.value.retryAt == RetryTime(RefusedFor(outcome).value, now)
                      && pending.value.attempts == consecutiveRetries == AttemptsSoFar(old(State()), outcome) + 1
                    else pending.None? && pendingFile.None? && consecutiveRetries == 0)
    {
      hide Step, WindowsLookLimited, IsRetryPlan, IsPlan, IsNext, AnyEligible, AreSpaced, SwitchedAway;
      outcome, switched, next, wait, plan := ReadResult(daemon, needsSignIn, limit, windows, overload, now);
      TurnEndLeaves(old(State()), outcome, now);
    }

    /** The reading itself. */
    method ReadResult(daemon: Daemon, needsSignIn: bool, limit: Option<Notice>, windows: seq<Option<Window>>,
                      overload: bool, now: int)
      returns (ghost outcome: Outcome, ghost switched: bool, ghost next: Option<Account>,
               ghost wait: RetryPlan, ghost plan: RotationPlan)
      requires this in daemon.sessions && activeQuery
      modifies daemon, daemon.sessions
      ensures outcome.limited.Some? <==> limit.Some? && WindowsLookLimited(windows)
      ensures outcome.limited.Some? ==> outcome.limited.value.Limited?
      ensures outcome.overloaded == overload
      ensures State() == Step(old(State()), TurnEnds(outcome, now))
      ensures daemon.OthersSwitched(this, switched, now) && daemon.KeepsSpaced(now)
      ensures !needsSignIn && outcome.limited.None? ==> daemon.Untouched()
      // An expired login is given up, and the turn moves on exactly when it can.
      ensures daemon.LeftLogin(needsSignIn, next, now) && (next.Some? ==> daemon.active == next.value.configDir)
      ensures outcome.moved == if next.Some? then Some(now + SWITCH_SETTLE_MS) else None
      // A limit is waited out as the windows and the notice say, and as the daemon answers.
      ensures outcome.limited.Some? && AttemptsSoFar(old(State()), outcome) < MAX_ATTEMPTS ==>
                && IsRetryPlan(wait, windows, limit.value, now, AttemptsSoFar(old(State()), outcome) + 1, id)
                && (!needsSignIn ==> daemon.AnsweredLimit(plan, wait.at, now))
                && outcome.limited.value == Limited(plan.retryAt, plan.switchTo.Some?)
    {
      hide Closed, MovedForAuth, WindowsLookLimited, IsRetryPlan, IsPlan, IsNext, AnyEligible, AreSpaced;
      EndedIs(State(), now);
      hide Ended;
      lastSdkActivityAt := now;
      ghost var moved;
      var rotatedForAuth;
      moved, rotatedForAuth, next := TryOtherLogin(daemon, needsSignIn, now);
      outcome, switched, wait, plan := CloseTurn(daemon, rotatedForAuth, limit, windows, overload, now, moved);
      switched := switched || rotatedForAuth;
    }

    /** The turn is parked for its refusal; or this was the answer, and nothing is owed any more. */
    method CloseTurn(daemon: Daemon, rotatedForAuth: bool, limit: Option<Notice>, windows: seq<Option<Window>>,
                     overload: bool, now: int, ghost moved: Option<int>)
      returns (ghost outcome: Outcome, ghost switched: bool, ghost wait: RetryPlan, ghost plan: RotationPlan)
      requires this in daemon.sessions && rotatedForAuth == moved.Some?
      modifies daemon, daemon.sessions
      ensures outcome.moved == moved && outcome.overloaded == overload
      ensures outcome.limited.Some? <==> limit.Some? && WindowsLookLimited(windows)
      ensures outcome.limited.Some? ==> outcome.limited.value.Limited?
      ensures outcome.limited.Some? && old(consecutiveRetries) < MAX_ATTEMPTS ==>
                && IsRetryPlan(wait, windows, limit.value, now, old(consecutiveRetries) + 1, id)
                && daemon.AnsweredLimit(plan, wait.at, now)
                && outcome.limited.value == Limited(plan.retryAt, plan.switchTo.Some?)
      ensures State() == Closed(old(State()), outcome, now)
      ensures daemon.OthersSwitched(this, switched, now) && daemon.KeepsSpaced(now)
      ensures outcome.limited.None? ==> daemon.Untouched()
      ensures daemon.unusable == old(daemon.unusable)
      ensures !switched ==> daemon.active == old(daemon.active) && daemon.lastSwitchAt == old(daemon.lastSwitchAt)
      ensures switched ==> now - old(daemon.lastSwitchAt) >= SWITCH_COOLDOWN_MS
    {
      hide Parked, SwitchedAway, WindowsLookLimited, IsRetryPlan, IsPlan, AreSpaced;
      switched := false;
      wait, plan := RetryPlan(now, FromBackoff), RotationPlan(None, now, Disabled);
      ghost var cause: Option<Cause> := None;
      if limit.Some? && WindowsLookLimited(windows) {
        status := Error;
        ghost var c, away, w, p := ParkForLimit(daemon, PlanLimit(limit.value, windows), now);
        cause, switched, wait, plan := Some(c), away, w, p;
      } else if overload {
        status := Error;
        ghost var _, away, _, _ := ParkForLimit(daemon, Overload, now);
        switched := away;
      } else {
        if !rotatedForAuth {
          consecutiveRetries := 0;
        }
        if pending.Some? && !rotatedForAuth {
          LetGo();
          retryTimer := None;
        }
        status := Idle;
      }
      outcome := Outcome(moved, cause, overload);
    }

    /** A login that has expired: go on with another account at once, if there is one. */
    method TryOtherLogin(daemon: Daemon, needsSignIn: bool, now: int)
      returns (ghost moved: Option<int>, rotated: bool, ghost next: Option<Account>)
      requires this in daemon.sessions
      modifies daemon, daemon.sessions
      ensures rotated == moved.Some? == next.Some?
      ensures daemon.LeftLogin(needsSignIn, next, now)
      ensures rotated ==> daemon.lastSwitchAt == now && daemon.active == next.value.configDir
      ensures moved.Some? ==> moved.value == now + SWITCH_SETTLE_MS
      ensures consecutiveRetries == old(consecutiveRetries) + if rotated then 1 else 0
      ensures State() == if moved.Some? then MovedForAuth(old(State()), moved.value, now) else old(State())
      ensures daemon.OthersSwitched(this, rotated, now) && daemon.KeepsSpaced(now)
      ensures !needsSignIn ==> daemon.Untouched()
    {
      hide IsNext, AreSpaced;
      moved, rotated, next := None, false, None;
      if needsSignIn {
        var other := daemon.OnAuthFailure(now);
        next := other;
        if other.Some? {
          moved, rotated := Some(now + SWITCH_SETTLE_MS), true;
          consecutiveRetries := consecutiveRetries + 1;
          Hold(Pending(now + SWITCH_SETTLE_MS, consecutiveRetries));
          ScheduleRetry(now);
        }
      }
    }

    method OnQueryError(daemon: Daemon, failure: Option<Failure>, now: int) returns (ghost cause: Option<Cause>)
      requires this in daemon.sessions && activeQuery
      requires failure.Some? ==> failure.value.Overload? || failure.value.LaunchFailure?
      modifies daemon, daemon.sessions
      ensures cause.Some? == failure.Some? && (cause.Some? ==> IsCause(cause.value, failure.value))
      ensures status.Error? && !activeQuery
      ensures failure.None? ==>
                && pending == old(pending) && pendingFile == old(pendingFile)
                && consecutiveRetries == old(consecutiveRetries)
      ensures failure.Some? && old(consecutiveRetries) >= BudgetOf(failure.value) ==>
                pending.None? && pendingFile.None? && consecutiveRetries == 0
      ensures failure.Some? && old(consecutiveRetries) < BudgetOf(failure.value) ==>
                pending == pendingFile == Some(Pending(RetryTime(cause.value, now), old(consecutiveRetries) + 1))
      ensures State() == Step(old(State()), QueryThrows(cause, now))
      ensures daemon.Untouched() && daemon.OthersSwitched(this, false, now) && daemon.KeepsSpaced(now)
    {
      hide Parked;
      status := Error;
      cause := None;
      if failure.Some? {
        ghost var c, _, _, _ := ParkForLimit(daemon, failure.value, now);
        cause := Some(c);
      }
      activeQuery := false;
    }

    method OnStallTick(daemon: Daemon, now: int)
      requires this in daemon.sessions && stallTimer
      modifies daemon, daemon.sessions
      ensures State() == Step(old(State()), WatchdogTicks(now))
      ensures !old(status).Running? ==> !stallTimer && pending == old(pending)
      ensures old(status).Running? && now - old(lastSdkActivityAt) < STALL_MS ==> State() == old(State())
      ensures old(status).Running? && now - old(lastSdkActivityAt) >= STALL_MS ==>
                && !stallTimer
                && (if old(consecutiveRetries) < MAX_ATTEMPTS
                    then pending == pendingFile == Some(Pending(now + STALL_RETRY_MS, old(consecutiveRetries) + 1))
                      && !activeQuery
                    else pending.None? && pendingFile.None? && consecutiveRetries == 0)
      ensures daemon.Untouched() && daemon.OthersSwitched(this, false, now) && daemon.KeepsSpaced(now)
    {
      hide Parked;
      if !status.Running? {
        stallTimer := false;
        return;
      }
      var silent := now - lastSdkActivityAt;
      if silent < STALL_MS {
        return;
      }
      stallTimer := false;
      ghost var _, _, _, _ := ParkForLimit(daemon, Stall, now);
    }

    /** What happens to this session alone, if it can happen now, is a step of the machine. */
    method TakeAlone(act: Own) returns (ghost op: Option<Op>)
      modifies this
      ensures Took(old(State()), op, State())
    {
      hide Sent, Busy;
      op := None;
      match act
      case Message(now, canLaunch) =>
        SendMessage(now, canLaunch);
        op := Some(UserSends(now, canLaunch));
      case Stop =>
        Interrupt();
        op := Some(ParkedTurn.Interrupt);
      case Move(dir, now) =>
        var moved := MoveTo(dir, now);
        if moved.ToFolder? {
          op := Some(FolderMoved(now));
        }
      case SdkMessage(now, assistant, agentSeenAt) =>
        if activeQuery {
          OnSdkMessage(now, assistant, agentSeenAt);
          op := Some(SdkSpeaks(now, assistant, agentSeenAt));
        }
      case QueryEnd =>
        if activeQuery {
          OnQueryEnd();
          op := Some(QueryEnds);
        }
      case PollStart =>
        var _ := OnPollStart();
        op := Some(PollStarts);
    }

    method TakeShared(daemon: Daemon, act: Shared) returns (ghost op: Option<Op>, ghost switched: bool)
      requires this in daemon.sessions
      modifies daemon, daemon.sessions
      ensures Took(old(State()), op, State())
      ensures daemon.OthersSwitched(this, switched, act.now) && daemon.KeepsSpaced(act.now)
    {
      hide Step, SwitchedAway, IsForRetry;
      op, switched := None, false;
      match act
      case RetryTimer(now, canLaunch) =>
        if retryTimer.Some? && retryTimer.value <= now {
          ghost var target := OnRetryTimer(daemon, now, canLaunch);
          op, switched := Some(TimerFires(now, target.Some?, canLaunch)), target.Some?;
        }
      case PollAnswer(answer, now, canLaunch) =>
        ghost var target := OnPollAnswer(daemon, answer, now, canLaunch);
        op, switched := Some(PollAnswered(answer, now, target.Some?, canLaunch)), target.Some?;
      case Result(needsSignIn, limit, windows, overload, now) =>
        if activeQuery {
          ghost var outcome, away, _, _, _ := OnResult(daemon, needsSignIn, limit, windows, overload, now);
          op, switched := Some(TurnEnds(outcome, now)), away;
        }
      case QueryError(failure, now) =>
        if activeQuery && (failure.Some? ==> failure.value.Overload? || failure.value.LaunchFailure?) {
          ghost var cause := OnQueryError(daemon, failure, now);
          op := Some(QueryThrows(cause, now));
        }
      case StallTick(now) =>
        if stallTimer {
          OnStallTick(daemon, now);
          op := Some(WatchdogTicks(now));
        }
    }
  }

  /** One daemon stops and the next one starts. */
  method Restart(session: DaemonSession, stop: int, start: int) returns (next: DaemonSession)
    modifies session
    ensures fresh(next)
    ensures next.State() == Step(old(session.State()), Restarted(stop, start))
    ensures next.id == session.id && next.cwd == old(session.cwd) && !next.activeQuery
    ensures old(session.pending).None? && old(session.IsBusy(stop)) ==>
              next.pending == Some(Pending(stop + RESTART_RESUME_MS, 0)) && next.status.Running?
    ensures old(session.pending).Some? && old(session.pendingFile) == old(session.pending) ==>
              && next.pending == old(session.pending) && next.status.Running?
              && next.consecutiveRetries == old(session.pending).value.attempts
  {
    var _ := session.ParkForRestart(stop);
    next := new DaemonSession(session.id, session.cwd, session.pendingFile, session.ledger, start);
  }

  // ---------- the daemon ------------------------------------------------------------------

  class Daemon {
    const sessions: set<DaemonSession>
    const identityOf: IdentityOf
    var accounts: seq<Account>
    var active: Option<string>
    var limited: map<string, int>
    var unusable: set<string>
    var lastSwitchAt: int
    var switchAccountOnLimit: bool
    /** Every change of account the daemon has made. */
    ghost var switches: seq<Switch>

    constructor (sessions: set<DaemonSession>, accounts: seq<Account>, active: Option<string>, identityOf: IdentityOf)
      requires forall o <- sessions :: Sound(o.State())
      ensures this.sessions == sessions && AllSound() && Rotation() == RotationState(map[], {}, 0)
      ensures this.accounts == accounts && this.active == active && this.identityOf == identityOf
      ensures switches == [] && Spaced()
    {
      this.sessions, this.accounts, this.active, this.identityOf := sessions, accounts, active, identityOf;
      limited, unusable, lastSwitchAt, switchAccountOnLimit, switches := map[], {}, 0, true, [];
    }

    function Rotation(): RotationState
      reads this
    {
      RotationState(limited, unusable, lastSwitchAt)
    }

    ghost predicate Spaced()
      reads this
    {
      AreSpaced(switches) && (switches != [] ==> switches[|switches| - 1].at == lastSwitchAt)
    }

    /** The accounts and the setting stay, and with the clock not behind the last switch, so does the spacing. */
    twostate predicate KeepsSpaced(now: int)
      reads this
    {
      && accounts == old(accounts) && switchAccountOnLimit == old(switchAccountOnLimit)
      && old(switches) <= switches
      && (old(Spaced()) && old(lastSwitchAt) <= now ==> Spaced() && lastSwitchAt <= now)
    }

    /** Every session but one has been switched away, or none has changed. */
    twostate predicate OthersSwitched(me: DaemonSession, switched: bool, now: int)
      reads this, sessions
    {
      forall o <- sessions | o != me ::
        o.State() == if switched then SwitchedAway(old(o.State()), now) else old(o.State())
    }

    twostate predicate AllSwitched(switched: bool, now: int)
      reads this, sessions
    {
      forall o <- sessions ::
        o.State() == if switched then SwitchedAway(old(o.State()), now) else old(o.State())
    }

    /** No limit recorded, no login given up, no account changed. */
    twostate predicate Untouched()
      reads this
    {
      Rotation() == old(Rotation()) && active == old(active)
    }

    /** Ended limits are forgotten, and the account to retry on is in use. */
    twostate predicate RetriedOn(target: Option<Account>, now: int)
      reads this
    {
      var kept := Current(old(Rotation()), now);
      && IsForRetry(target, accounts, old(active), kept, now, switchAccountOnLimit, identityOf)
      && IsAfterSwitch(target, old(active), kept, now)
    }

    ghost predicate AllSound()
      reads this, sessions
    {
      forall o <- sessions :: Sound(o.State())
    }

    /** A handler that is right for its own session keeps every session right. */
    twostate lemma OthersStaySound(me: DaemonSession, switched: bool, now: int)
      requires old(AllSound()) && OthersSwitched(me, switched, now)
      requires Sound(me.State())
      ensures AllSound()
    {
      forall o <- sessions | o != me
        ensures Sound(o.State())
      {
        SwitchedAwayParks(old(o.State()), now);
      }
    }

    /** A switch of account leaves no session that was at work without a retry of its own. */
    twostate lemma NoTurnDies(now: int)
      requires old(AllSound()) && AllSwitched(true, now)
      ensures forall o <- sessions | old(o.IsBusy(now)) ::
                o.pending.Some? && o.retryTimer.Some? && o.pendingFile == o.pending
    {
      forall o <- sessions | old(o.IsBusy(now))
        ensures o.pending.Some? && o.retryTimer.Some? && o.pendingFile == o.pending
      {
        SwitchLosesNoTurn(old(o.State()), now);
        SwitchedAwayParks(old(o.State()), now);
      }
    }

    /** Every session at work is parked before its query is torn down. */
    method ActivateAccount(configDir: Option<string>, now: int, ghost byLimit: bool)
      modifies this`active, this`lastSwitchAt, this`switches, sessions
      ensures active == configDir && lastSwitchAt == now
      ensures AllSwitched(true, now)
      ensures switches == old(switches) + [Switch(now, byLimit)]
      ensures !byLimit || now - old(lastSwitchAt) >= SWITCH_COOLDOWN_MS ==> KeepsSpaced(now)
      ensures forall o <- sessions ::
                && !o.activeQuery && o.agentSeenAt.None?
                && o.status == old(o.status) && o.consecutiveRetries == old(o.consecutiveRetries)
      ensures forall o <- sessions ::
                if old(o.pending).Some? || !old(o.IsBusy(now))
                then o.pending == old(o.pending)
                else && o.pending == o.pendingFile == Some(Pending(now + SWITCH_SETTLE_MS, 0))
                     && o.retryTimer == Some(now + SWITCH_SETTLE_MS)
    {
      if Spaced() && lastSwitchAt <= now && (!byLimit || now - lastSwitchAt >= SWITCH_COOLDOWN_MS) {
        OneMoreSwitch(switches, lastSwitchAt, Switch(now, byLimit));
      }
      hide AreSpaced;
      switches := switches + [Switch(now, byLimit)];
      active := configDir;
      lastSwitchAt := now;
      var resumeAt := now + SWITCH_SETTLE_MS;
      var todo := sessions;
      while todo != {}
        invariant todo <= sessions
        invariant active == configDir && lastSwitchAt == now && switches == old(switches) + [Switch(now, byLimit)]
        invariant forall o <- sessions ::
                    o.State() == if o in todo then old(o.State()) else SwitchedAway(old(o.State()), now)
      {
        var session :| session in todo;
        todo := todo - {session};
        var _ := session.ParkForAccountSwitch(resumeAt, now);
        session.DisposeActiveQuery();
      }
      hide SwitchedAway;
      forall o <- sessions
        ensures !o.activeQuery && o.agentSeenAt.None?
        ensures o.status == old(o.status) && o.consecutiveRetries == old(o.consecutiveRetries)
        ensures if old(o.pending).Some? || !old(o.IsBusy(now))
                then o.pending == old(o.pending)
                else && o.pending == o.pendingFile == Some(Pending(now + SWITCH_SETTLE_MS, 0))
                     && o.retryTimer == Some(now + SWITCH_SETTLE_MS)
      {
        SwitchedAwayLeaves(old(o.State()), now);
      }
    }

    /** An account chosen by hand: every query is torn down, and nothing is parked. */
    method ChooseAccount(configDir: Option<string>)
      modifies this`active, sessions
      ensures active == configDir
      ensures forall o <- sessions :: o.State() == Step(old(o.State()), AccountChosen)
      ensures forall o <- sessions :: !o.activeQuery && o.pending == old(o.pending) && o.status == old(o.status)
    {
      active := configDir;
      var todo := sessions;
      while todo != {}
        invariant todo <= sessions && active == configDir
        invariant forall o <- sessions :: o.State() == if o in todo then old(o.State()) else Disposed(old(o.State()))
      {
        var session :| session in todo;
        todo := todo - {session};
        session.DisposeActiveQuery();
      }
    }

    /** What the account in use is limited or given up under. */
    function CurrentLogin(): string
      reads this
    {
      LoginOf(accounts, active, identityOf)
    }

    /** The limit is recorded under the account's login, the plan made with it recorded, and carried out. */
    twostate predicate AnsweredLimit(plan: RotationPlan, ownResetAt: int, now: int)
      reads this
    {
      var noted := Noted(old(Rotation()), old(CurrentLogin()), ownResetAt);
      && IsPlan(plan, accounts, old(active), noted, now, ownResetAt, switchAccountOnLimit, identityOf)
      && IsAfterSwitch(plan.switchTo, old(active), noted, now)
    }

    /**
     * With a sign-in needed, the login in use is given up, and there is a next account exactly
     * when rotation is on and one is eligible without that login.
     */
    twostate predicate LeftLogin(needsSignIn: bool, new next: Option<Account>, now: int)
      reads this
    {
      var without := old(Rotation()).(unusable := old(unusable) + {old(CurrentLogin())});
      if !needsSignIn then next.None? else
        && unusable == old(unusable) + {old(CurrentLogin())}
        && (next.Some? <==> switchAccountOnLimit && AnyEligible(accounts, old(active), without, now, identityOf))
        && (next.Some? ==> IsNext(next, accounts, old(active), without, now, identityOf))
    }

    /** The active account was refused until `ownResetAt`. */
    method OnLimited(ownResetAt: int, now: int) returns (plan: RotationPlan)
      modifies this`limited, this`active, this`lastSwitchAt, this`switches, sessions
      ensures AllSwitched(plan.switchTo.Some?, now) && KeepsSpaced(now)
      ensures AnsweredLimit(plan, ownResetAt, now)
      ensures plan.switchTo.Some? ==> now - old(lastSwitchAt) >= SWITCH_COOLDOWN_MS
      ensures limited == old(limited)[old(CurrentLogin()) := ownResetAt]
      ensures if plan.switchTo.Some?
              then && active == plan.switchTo.value.configDir && lastSwitchAt == now
                   && forall o <- sessions :: !o.activeQuery
              else active == old(active) && lastSwitchAt == old(lastSwitchAt)
    {
      limited := limited[CurrentLogin() := ownResetAt];
      plan := PlanAfterLimit(accounts, active, Rotation(), now, ownResetAt, switchAccountOnLimit, identityOf);
      assert plan.switchTo.Some? ==> now - lastSwitchAt >= SWITCH_COOLDOWN_MS;
      hide IsPlan;
      if plan.switchTo.Some? {
        ActivateAccount(plan.switchTo.value.configDir, now, true);
      }
    }

    /** A login has stopped working: it is given up, and the next account that works is taken instead. */
    method OnAuthFailure(now: int) returns (next: Option<Account>)
      modifies this`unusable, this`active, this`lastSwitchAt, this`switches, sessions
      ensures AllSwitched(next.Some?, now) && KeepsSpaced(now)
      ensures var without := old(Rotation()).(unusable := old(unusable) + {old(CurrentLogin())});
              && (if switchAccountOnLimit then IsNext(next, accounts, old(active), without, now, identityOf)
                  else next.None?)
              && IsAfterSwitch(next, old(active), without, now)
      ensures next.Some? ==> IsAuthMove(accounts, old(InUse(active, Rotation())), InUse(active, Rotation()), identityOf)
      ensures unusable == old(unusable) + {old(CurrentLogin())}
      ensures next.Some? ==>
                && active == next.value.configDir && lastSwitchAt == now
                && forall o <- sessions :: !o.activeQuery
      ensures next.None? ==> active == old(active)
      ensures LeftLogin(true, next, now)
    {
      unusable := unusable + {CurrentLogin()};
      if !switchAccountOnLimit {
        return None;
      }
      next := NextUsableAccount(accounts, active, Rotation(), now, identityOf);
      NextMeans(next, accounts, active, Rotation(), now, identityOf);
      hide IsNext, AnyEligible;
      if next.Some? {
        ActivateAccount(next.value.configDir, now, false);
      }
    }

    /** A parked turn is about to be sent: be on an account whose limit has ended. */
    method BeforeRetry(now: int) returns (target: Option<Account>)
      modifies this`limited, this`active, this`lastSwitchAt, this`switches, sessions
      ensures AllSwitched(target.Some?, now) && KeepsSpaced(now)
      ensures RetriedOn(target, now)
      ensures forall login :: login in limited <==> login in old(limited) && old(limited)[login] > now
      ensures forall login | login in limited :: limited[login] == old(limited)[login]
      ensures target.Some? ==> active == target.value.configDir && forall o <- sessions :: !o.activeQuery
      ensures target.None? ==> active == old(active)
    {
      limited := StillLimited(limited, now);
      target := AccountForRetry(accounts, active, Rotation(), now, switchAccountOnLimit, identityOf);
      hide IsForRetry;
      if target.Some? {
        ActivateAccount(target.value.configDir, now, false);
      }
    }

    // ---------- all sessions together ---------------------------------------------------

    /** Whatever happens to one session or to the account keeps every session right, and switches spaced. */
    method Handle(event: Event)
      requires AllSound()
      requires event.Alone? || event.WithDaemon? ==> event.session in sessions
      modifies this, sessions
      ensures AllSound()
      ensures if event.WithDaemon? then KeepsSpaced(event.shared.now)
              else if event.Activated? then KeepsSpaced(event.now)
              else switches == old(switches) && lastSwitchAt == old(lastSwitchAt)
    {
      hide Took, Step, SwitchedAway, Sound, AreSpaced;
      match event
      case Alone(session, act) =>
        ghost var op := session.TakeAlone(act);
        TookIsSound(old(session.State()), op, session.State());
      case WithDaemon(session, act) =>
        ghost var op, switched := session.TakeShared(this, act);
        TookIsSound(old(session.State()), op, session.State());
        forall o <- sessions
          ensures Sound(o.State())
        {
          SwitchedStaysSound(old(o.State()), act.now);
        }
      case Activated(configDir, now) =>
        ActivateAccount(configDir, now, false);
        forall o <- sessions
          ensures Sound(o.State())
        {
          SwitchedStaysSound(old(o.State()), now);
        }
      case Chosen(configDir) =>
        ChooseAccount(configDir);
        forall o <- sessions
          ensures Sound(o.State())
        {
          ChosenStaysSound(old(o.State()));
        }
    }

    /**
     * Any number of sessions sharing the account, their handlers interleaved in any way with
     * each other and with changes of account: every one of them stays right. With the clock
     * not running back, no switch that a limit drives comes within thirty seconds of an
     * earlier switch by the daemon.
     */
    method Run(events: seq<Event>, ghost start: int)
      requires AllSound()
      requires forall event <- events | event.Alone? || event.WithDaemon? :: event.session in sessions
      modifies this, sessions
      ensures AllSound() && old(switches) <= switches
      ensures old(Spaced()) && old(lastSwitchAt) <= start && AreInTime(start, events) ==> AreSpaced(switches)
    {
      hide Sound, AreSpaced;
      ghost var clock := start;
      ghost var spaced := Spaced() && lastSwitchAt <= start && AreInTime(start, events);
      for i := 0 to |events|
        invariant AllSound() && old(switches) <= switches
        invariant spaced ==> Spaced() && lastSwitchAt <= clock && AreInTime(clock, events[i..])
      {
        assert events[i..][0] == events[i] && events[i..][1..] == events[i + 1..];
        Handle(events[i]);
        clock := TimeOf(events[i], clock);
      }
    }

    /** The account in use and the rotation state, once a decision has been carried out. */
    predicate IsAfterSwitch(to: Option<Account>, was: Option<string>, state: RotationState, now: int)
      reads this
    {
      && active == (if to.Some? then to.value.configDir else was)
      && Rotation() == if to.Some? then state.(lastSwitchAt := now) else state
    }
  }

  function FindActive(accounts: seq<Account>, active: Option<string>): Option<Account> {
    if accounts == [] then None
    else if accounts[0].configDir == active then Some(accounts[0])
    else FindActive(accounts[1..], active)
  }

  function LoginOf(accounts: seq<Account>, active: Option<string>, identityOf: IdentityOf): string {
    var at := FindActive(accounts, active);
    if at.Some? then identityOf(at.value) else AccountKey(active)
  }

  function Noted(state: RotationState, login: string, ownResetAt: int): RotationState {
    state.(limited := state.limited[login := ownResetAt])
  }

  function Current(state: RotationState, now: int): RotationState {
    state.(limited := StillLimited(state.limited, now))
  }

  ghost predicate NoEmptyDir(accounts: seq<Account>, active: Option<string>) {
    active != Some("") && forall a <- accounts :: a.configDir != Some("")
  }

  lemma {:induction false} ActiveIsCurrent(accounts: seq<Account>, active: Option<string>, i: nat)
    requires NoEmptyDir(accounts, active) && i <= |accounts|
    ensures var at := FindFrom(accounts, active, i);
            FindActive(accounts[i..], active) == if at < 0 then None else Some(accounts[at])
    decreases |accounts| - i
  {
    if i == |accounts| {
    } else {
      ActiveIsCurrent(accounts, active, i + 1);
      assert accounts[i..][1..] == accounts[i + 1..];
      assert accounts[i] in accounts;
    }
  }

  /**
   * Waiting helps. The daemon, refused everywhere, answers with the time the first limit
   * ends; when the parked turn is sent at that time or later, with nothing changed but time,
   * it goes out on an account with room exactly when that limit was one of a listed login
   * that still works.
   */
  lemma WaitedOut(accounts: seq<Account>, active: Option<string>, before: RotationState, ownResetAt: int, now: int,
                  plan: RotationPlan, later: int, target: Option<Account>, identityOf: IdentityOf)
    requires DistinctKeys(accounts) && NoEmptyDir(accounts, active) && now < ownResetAt
    requires IsPlan(plan, accounts, active, Noted(before, LoginOf(accounts, active, identityOf), ownResetAt),
                    now, ownResetAt, true, identityOf)
    requires plan.why == AllLimited && plan.retryAt <= later
    requires IsForRetry(target, accounts, active,
                        Current(Noted(before, LoginOf(accounts, active, identityOf), ownResetAt), later),
                        later, true, identityOf)
    ensures var noted := Noted(before, LoginOf(accounts, active, identityOf), ownResetAt);
            && (EndsForSomeone(accounts, noted, plan.retryAt, identityOf)
                ==> RetryHasRoom(target, accounts, active, Current(noted, later), later, identityOf))
            && (later == plan.retryAt
                && RetryHasRoom(target, accounts, active, Current(noted, later), later, identityOf)
                ==> EndsForSomeone(accounts, noted, plan.retryAt, identityOf))
  {
    var noted := Noted(before, LoginOf(accounts, active, identityOf), ownResetAt);
    assert OwnLimitRecorded(accounts, active, noted, ownResetAt, identityOf) by {
      ActiveIsCurrent(accounts, active, 0);
      assert accounts[0..] == accounts;
    }
    ForgettingKeepsChoice(target, accounts, active, noted, later, identityOf);
    hide IsPlan, IsForRetry, RetryHasRoom, EndsForSomeone, OwnLimitRecorded, DistinctKeys;
    WaitingHelpsExactlyWhen(plan, target, accounts, active, noted, now, ownResetAt, later, identityOf);
  }

  // ---------- moves between logins come to an end -----------------------------------------

  datatype InUse = InUse(active: Option<string>, state: RotationState)

  /** One expired login that was moved away from, as `OnAuthFailure` does it. */
  ghost predicate IsAuthMove(accounts: seq<Account>, a: InUse, b: InUse, identityOf: IdentityOf) {
    var without := a.state.(unusable := a.state.unusable + {LoginOf(accounts, a.active, identityOf)});
    exists next :: && IsNext(Some(next), accounts, a.active, without, b.state.lastSwitchAt, identityOf)
                   && b == InUse(next.configDir, without.(lastSwitchAt := b.state.lastSwitchAt))
  }

  ghost predicate AreAuthMoves(accounts: seq<Account>, run: seq<InUse>, identityOf: IdentityOf) {
    |run| <= 1 || (AreAuthMoves(accounts, run[..|run| - 1], identityOf)
                   && IsAuthMove(accounts, run[|run| - 2], run[|run| - 1], identityOf))
  }

  /** The listed logins not given up. */
  ghost function Working(accounts: seq<Account>, s: InUse, identityOf: IdentityOf): set<string> {
    Logins(accounts, identityOf) - s.state.unusable
  }

  ghost function Logins(accounts: seq<Account>, identityOf: IdentityOf): set<string> {
    set a | a in accounts :: identityOf(a)
  }

  lemma {:induction false} ListedIsFound(accounts: seq<Account>, i: nat)
    requires DistinctKeys(accounts) && i < |accounts|
    ensures FindActive(accounts, accounts[i].configDir) == Some(accounts[i])
  {
    if i == 0 {
    } else {
      ListedIsFound(accounts[1..], i - 1);
    }
  }

  /** A move gives up the login it leaves, and lands on one that works. */
  lemma MoveLandsOnWorking(accounts: seq<Account>, a: InUse, b: InUse, identityOf: IdentityOf)
    requires DistinctKeys(accounts) && IsAuthMove(accounts, a, b, identityOf)
    ensures Working(accounts, b, identityOf)
         == Working(accounts, a, identityOf) - {LoginOf(accounts, a.active, identityOf)}
    ensures LoginOf(accounts, b.active, identityOf) in Working(accounts, b, identityOf)
  {
    var without := a.state.(unusable := a.state.unusable + {LoginOf(accounts, a.active, identityOf)});
    var now := b.state.lastSwitchAt;
    var next :| IsNext(Some(next), accounts, a.active, without, now, identityOf)
             && b == InUse(next.configDir, without.(lastSwitchAt := now));
    var i :| IsFirst(i, accounts, a.active, without, now, identityOf) && next == accounts[i];
    ListedIsFound(accounts, i);
  }

  /** After the n-th move the login in use works, and n - 1 that worked do not any more. */
  ghost predicate IsAfterMoves(accounts: seq<Account>, s: InUse, n: nat, identityOf: IdentityOf) {
    && LoginOf(accounts, s.active, identityOf) in Working(accounts, s, identityOf)
    && |Working(accounts, s, identityOf)| + n <= |Logins(accounts, identityOf)| + 1
  }

  lemma FirstMove(accounts: seq<Account>, a: InUse, b: InUse, identityOf: IdentityOf)
    requires DistinctKeys(accounts) && IsAuthMove(accounts, a, b, identityOf)
    ensures IsAfterMoves(accounts, b, 1, identityOf)
  {
    MoveLandsOnWorking(accounts, a, b, identityOf);
    hide IsAuthMove, DistinctKeys, LoginOf;
    FewerIsSmaller(Working(accounts, b, identityOf), Logins(accounts, identityOf));
  }

  lemma NextMove(accounts: seq<Account>, a: InUse, b: InUse, n: nat, identityOf: IdentityOf)
    requires DistinctKeys(accounts) && IsAuthMove(accounts, a, b, identityOf)
    requires IsAfterMoves(accounts, a, n, identityOf)
    ensures IsAfterMoves(accounts, b, n + 1, identityOf)
  {
    MoveLandsOnWorking(accounts, a, b, identityOf);
    hide IsAuthMove, DistinctKeys, LoginOf, Working, Logins;
    OneGone(Working(accounts, a, identityOf), LoginOf(accounts, a.active, identityOf));
  }

  lemma {:induction false} AfterAuthMoves(accounts: seq<Account>, run: seq<InUse>, identityOf: IdentityOf)
    requires DistinctKeys(accounts) && AreAuthMoves(accounts, run, identityOf) && |run| >= 2
    ensures IsAfterMoves(accounts, run[|run| - 1], |run| - 1, identityOf)
  {
    hide IsAuthMove, DistinctKeys, IsAfterMoves;
    var before, a, b := run[..|run| - 1], run[|run| - 2], run[|run| - 1];
    if |run| == 2 {
      FirstMove(accounts, a, b, identityOf);
    } else {
      AfterAuthMoves(accounts, before, identityOf);
      NextMove(accounts, a, b, |run| - 2, identityOf);
    }
  }

  lemma OneGone(s: set<string>, x: string)
    requires x in s
    ensures |s - {x}| == |s| - 1
  {
  }

  /**
   * Unlike a refused turn's retries, moves away from expired logins are not counted by the
   * code. They end all the same: with nobody signing in, there are no more than accounts.
   */
  lemma AuthMovesEnd(accounts: seq<Account>, run: seq<InUse>, identityOf: IdentityOf)
    requires DistinctKeys(accounts) && AreAuthMoves(accounts, run, identityOf)
    ensures |run| <= |accounts| + 1
  {
    if |run| >= 2 {
      AfterAuthMoves(accounts, run, identityOf);
      LoginsAtMostAccounts(accounts, identityOf);
      hide AreAuthMoves, DistinctKeys, LoginOf, Working, Logins;
      assert |Working(accounts, run[|run| - 1], identityOf)| > 0;
    }
  }

  lemma {:induction false} LoginsAtMostAccounts(accounts: seq<Account>, identityOf: IdentityOf)
    ensures |Logins(accounts, identityOf)| <= |accounts|
  {
    if accounts == [] {
    } else {
      LoginsAtMostAccounts(accounts[1..], identityOf);
      assert accounts == [accounts[0]] + accounts[1..];
      assert Logins(accounts, identityOf) == Logins(accounts[1..], identityOf) + {identityOf(accounts[0])};
    }
  }

  lemma {:induction false} FewerIsSmaller(s: set<string>, t: set<string>)
    requires s <= t
    ensures |s| <= |t|
  {
    if s == {} {
    } else {
      var x :| x in s;
      FewerIsSmaller(s - {x}, t - {x});
    }
  }
}
