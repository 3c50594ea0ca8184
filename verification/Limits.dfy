/**
 * When to ask again after a plan limit (daemon/src/limits.ts). Times are epoch milliseconds.
 * What the patterns find in a notice comes in already split into its parts.
 */
module Limits {
  import opened Common

  const SECOND: nat := 1000
  const MINUTE: nat := 60_000
  const HOUR: nat := 3_600_000
  const DAY: nat := 86_400_000

  const MAX_WAIT_MS: nat := 6 * HOUR
  const MIN_WAIT_MS: nat := 30 * SECOND
  const RESET_BUFFER_MS: nat := MINUTE
  const SPREAD_MS: nat := MINUTE

  /** Attempt budgets, by cause. */
  const MAX_ATTEMPTS: nat := 5
  const MAX_OVERLOAD_ATTEMPTS: nat := 360
  const MAX_LAUNCH_ATTEMPTS: nat := 5

  const STALL_MS: nat := 20 * MINUTE
  const STALL_RETRY_MS: nat := 2 * MINUTE
  const OVERLOAD_RETRY_MS: nat := 2 * MINUTE
  const LAUNCH_RETRY_MS: nat := 20 * SECOND
  const RESTART_RESUME_MS: nat := 5 * SECOND

  // ---------- the plan windows --------------------------------------------------------

  datatype Window = Window(rejected: bool, utilization: Option<real>, resetsAt: Option<int>)

  predicate LooksFull(w: Window) {
    w.rejected || (w.utilization.Some? && w.utilization.value >= 95.0)
  }

  /** A missing window is `None`; with none known, the turn's own word is taken. */
  predicate WindowsLookLimited(windows: seq<Option<Window>>) {
    var known := Known(windows);
    known == [] || exists w <- known :: LooksFull(w)
  }

  function Known(windows: seq<Option<Window>>): seq<Window> {
    if windows == [] then []
    else (if windows[0].Some? then [windows[0].value] else []) + Known(windows[1..])
  }

  /** Windows look limited exactly when none is known, or one refuses work or is 95 percent used. */
  lemma LookLimitedExactlyWhen(windows: seq<Option<Window>>)
    ensures WindowsLookLimited(windows) <==>
              || (forall w <- windows :: w.None?)
              || exists w :: Some(w) in windows && (w.rejected || (w.utilization.Some? && w.utilization.value >= 95.0))
  {
    forall w
      ensures w in Known(windows) <==> Some(w) in windows
    {
      KnownAre(windows, w);
    }
    assert Known(windows) != [] ==> Known(windows)[0] in Known(windows);
    if w :| w in windows && w.Some? {
      assert w.value in Known(windows);
    }
  }

  /** The resets still to come, of the rejecting windows only or of all. */
  function Resets(windows: seq<Window>, now: int, onlyRejected: bool): seq<int> {
    if windows == [] then [] else
      var w := windows[0];
      var here := w.resetsAt.Some? && w.resetsAt.value > now && (onlyRejected ==> w.rejected);
      (if here then [w.resetsAt.value] else []) + Resets(windows[1..], now, onlyRejected)
  }

  function Least(times: seq<int>): (r: int)
    requires times != []
    ensures r in times && forall t <- times :: r <= t
  {
    assert times == [times[0]] + times[1..];
    if |times| == 1 then times[0] else Min(times[0], Least(times[1..]))
  }

  function Soonest(windows: seq<Option<Window>>, now: int): Option<int> {
    var known := Known(windows);
    var rejected := Resets(known, now, true);
    var pool := if |rejected| > 0 then rejected else Resets(known, now, false);
    if |pool| > 0 then Some(Least(pool)) else None
  }

  predicate ResetsAhead(w: Window, now: int, t: int) {
    w.resetsAt == Some(t) && t > now
  }

  ghost predicate Ahead(windows: seq<Option<Window>>, now: int, onlyRejected: bool, t: int) {
    exists w :: Some(w) in windows && ResetsAhead(w, now, t) && (onlyRejected ==> w.rejected)
  }

  /** A reset to wait for: of a window that refuses work, if any of those has one to come. */
  ghost predicate Waitable(windows: seq<Option<Window>>, now: int, t: int) {
    Ahead(windows, now, exists u :: Ahead(windows, now, true, u), t)
  }

  lemma {:induction false} KnownAre(windows: seq<Option<Window>>, w: Window)
    ensures w in Known(windows) <==> Some(w) in windows
  {
    if windows == [] {
    } else {
      assert windows == [windows[0]] + windows[1..];
      KnownAre(windows[1..], w);
    }
  }

  lemma {:induction false} ResetsAre(known: seq<Window>, now: int, onlyRejected: bool, t: int)
    ensures t in Resets(known, now, onlyRejected)
       <==> exists w :: w in known && ResetsAhead(w, now, t) && (onlyRejected ==> w.rejected)
  {
    if known == [] {
    } else {
      assert known == [known[0]] + known[1..];
      ResetsAre(known[1..], now, onlyRejected, t);
    }
  }

  lemma ResetsAreAhead(windows: seq<Option<Window>>, now: int, onlyRejected: bool, t: int)
    ensures t in Resets(Known(windows), now, onlyRejected) <==> Ahead(windows, now, onlyRejected, t)
  {
    ResetsAre(Known(windows), now, onlyRejected, t);
    forall w
      ensures w in Known(windows) <==> Some(w) in windows
    {
      KnownAre(windows, w);
    }
  }

  /** The reset waited for is the soonest to wait for; there is none exactly when no reset is to come. */
  lemma SoonestIs(windows: seq<Option<Window>>, now: int, t: int)
    ensures Soonest(windows, now) == Some(t) <==>
            Waitable(windows, now, t) && forall u | Waitable(windows, now, u) :: t <= u
    ensures Soonest(windows, now).None? ==> !Ahead(windows, now, false, t)
  {
    var rejected := Resets(Known(windows), now, true);
    var all := Resets(Known(windows), now, false);
    forall u
      ensures u in rejected <==> Ahead(windows, now, true, u)
      ensures u in all <==> Ahead(windows, now, false, u)
    {
      ResetsAreAhead(windows, now, true, u);
      ResetsAreAhead(windows, now, false, u);
    }
    assert |rejected| > 0 ==> rejected[0] in rejected;
    assert forall u | Ahead(windows, now, true, u) :: u in rejected;
    assert |rejected| > 0 ==> Ahead(windows, now, true, rejected[0]);
    hide Ahead, Resets, Known;
    var pool := if |rejected| > 0 then rejected else all;
    assert forall u :: u in pool <==> Waitable(windows, now, u);
  }

  // ---------- a reset time in words ---------------------------------------------------

  datatype Meridiem = AM | PM | Unsaid

  datatype Clock = Clock(hour: nat, minute: nat, meridiem: Meridiem)

  /** A notice: whether it names UTC, and the clock time it gives, if it gives one. */
  datatype Notice = Notice(utc: bool, resets: Option<Clock>)

  function Hour24(c: Clock): nat {
    if c.meridiem == PM && c.hour < 12 then c.hour + 12
    else if c.meridiem == AM && c.hour == 12 then 0
    else c.hour
  }

  lemma TwelveHourClock(hour: nat, minute: nat)
    requires 1 <= hour <= 12
    ensures Hour24(Clock(hour, minute, AM)) == hour % 12
    ensures Hour24(Clock(hour, minute, PM)) == hour % 12 + 12
  {
  }

  /** A notice that can be trusted: it names UTC and a time of day there is. */
  predicate IsTrusted(n: Notice) {
    n.utc && n.resets.Some? && n.resets.value.minute <= 59 && Hour24(n.resets.value) <= 23
  }

  /** The UTC time of day of an instant is the one the clock shows. */
  predicate ShowsTime(t: int, c: Clock) {
    t % DAY == Hour24(c) * HOUR + c.minute * MINUTE
  }

  /** The first instant after now at which a UTC clock shows the time given. */
  ghost predicate IsNextShowing(t: int, now: int, c: Clock) {
    now < t && ShowsTime(t, c) && forall u | now < u && ShowsTime(u, c) :: t <= u
  }

  method ParseResetTime(text: Notice, now: int) returns (r: Option<int>)
    ensures r.Some? <==> IsTrusted(text)
    ensures r.Some? ==> IsNextShowing(r.value, now, text.resets.value)
  {
    if !text.utc {
      return None;
    }
    if text.resets.None? {
      return None;
    }
    var clock := text.resets.value;
    var hour := clock.hour;
    if clock.minute > 59 {
      return None;
    }
    if clock.meridiem == PM && hour < 12 {
      hour := hour + 12;
    }
    if clock.meridiem == AM && hour == 12 {
      hour := 0;
    }
    if hour > 23 {
      return None;
    }
    NextShowing(now, clock);
    hide IsNextShowing;
    var when := now - now % DAY + hour * HOUR + clock.minute * MINUTE;
    if when <= now {
      when := when + DAY;
    }
    return Some(when);
  }

  /** Of the instants at one offset into the day, the only one in the next day's span is the first. */
  lemma NextShowing(now: int, c: Clock)
    requires c.minute <= 59 && Hour24(c) <= 23
    ensures var today := now - now % DAY + Hour24(c) * HOUR + c.minute * MINUTE;
            IsNextShowing(if today <= now then today + DAY else today, now, c)
  {
    var offset := Hour24(c) * HOUR + c.minute * MINUTE;
    hide Hour24;
    forall t
      ensures FirstAt(now, offset) <= t || t <= now || t % DAY != offset
    {
      FirstIsFirst(now, offset, t);
    }
    FirstIsFirst(now, offset, now);
  }

  function FirstAt(now: int, offset: nat): int {
    var today := now - now % DAY + offset;
    if today <= now then today + DAY else today
  }

  lemma FirstIsFirst(now: int, offset: nat, t: int)
    requires offset < DAY
    ensures now < FirstAt(now, offset) && FirstAt(now, offset) % DAY == offset
    ensures now < t && t % DAY == offset ==> FirstAt(now, offset) <= t
  {
    SameDayOffset(now - now % DAY, offset);
    if now < t && t % DAY == offset {
      assert t - offset > now - now % DAY - DAY;
    }
  }

  lemma SameDayOffset(midnight: int, offset: nat)
    requires midnight % DAY == 0 && offset < DAY
    ensures (midnight + offset) % DAY == offset && (midnight + offset + DAY) % DAY == offset
  {
  }

  // ---------- the wait -----------------------------------------------------------------

  function BackoffMs(attempts: nat): nat {
    var ladder := [5, 15, 30, 60];
    var rung := Min(attempts, |ladder|) - 1;
    (if 0 <= rung then ladder[rung] else ladder[|ladder| - 1]) * MINUTE
  }

  /** Five, fifteen, thirty minutes, and then an hour each time. */
  lemma BackoffLadder(attempts: nat)
    ensures BackoffMs(1) == 5 * 60_000 && BackoffMs(2) == 15 * 60_000 && BackoffMs(3) == 30 * 60_000
    ensures attempts == 0 || attempts >= 4 ==> BackoffMs(attempts) == 60 * 60_000
  {
  }

  /** The session id's hash: base 31, reduced at every character. */
  function Hash(s: string): (h: nat)
    ensures h < 1_000_003
  {
    if s == "" then 0 else (Hash(s[..|s| - 1]) * 31 + s[|s| - 1] as int) % 1_000_003
  }

  /** The characters as the digits of a number in base 31, the first one the highest. */
  function Digits(s: string): nat {
    if s == "" then 0 else s[0] as nat * Power(|s| - 1) + Digits(s[1..])
  }

  function Power(n: nat): nat {
    if n == 0 then 1 else 31 * Power(n - 1)
  }

  lemma {:induction false} DigitsSnoc(s: string, c: char)
    ensures Digits(s + [c]) == Digits(s) * 31 + c as nat
  {
    if s == "" {
      assert ([] + [c])[1..] == [];
    } else {
      assert (s + [c])[1..] == s[1..] + [c];
      DigitsSnoc(s[1..], c);
      assert s[0] as nat * (31 * Power(|s| - 1)) == s[0] as nat * Power(|s| - 1) * 31;
    }
  }

  /** Reducing at every character gives the whole number's remainder. */
  lemma {:induction false} HashIsRemainder(s: string)
    ensures Hash(s) == Digits(s) % 1_000_003
  {
    if s == "" {
    } else {
      var init, c := s[..|s| - 1], s[|s| - 1];
      HashIsRemainder(init);
      DigitsSnoc(init, c);
      assert init + [c] == s;
      ReducedFirst(Digits(init), c as nat);
    }
  }

  lemma ReducedFirst(a: nat, c: nat)
    ensures (a % 1_000_003 * 31 + c) % 1_000_003 == (a * 31 + c) % 1_000_003
  {
    var q, r := a / 1_000_003, a % 1_000_003;
    assert a * 31 + c == (31 * q) * 1_000_003 + (r * 31 + c);
    MultiplesVanish(31 * q, r * 31 + c);
  }

  lemma MultiplesVanish(q: nat, x: nat)
    ensures (q * 1_000_003 + x) % 1_000_003 == x % 1_000_003
  {
  }

  method SpreadMs(sessionId: string, windowMs: nat) returns (r: nat)
    requires windowMs > 0
    ensures r == Digits(sessionId) % 1_000_003 % windowMs
    ensures r < windowMs
  {
    var hash := 0;
    for i := 0 to |sessionId|
      invariant hash == Hash(sessionId[..i])
    {
      assert sessionId[..i + 1][..i] == sessionId[..i];
      hash := (hash * 31 + sessionId[i] as int) % 1_000_003;
    }
    assert sessionId[..|sessionId|] == sessionId;
    HashIsRemainder(sessionId);
    return hash % windowMs;
  }

  datatype Source = FromWindow | FromText | FromBackoff

  datatype RetryPlan = RetryPlan(at: int, source: Source)

  /**
   * When to send a refused turn again. Never sooner than half a minute or later than six
   * hours from now. Short of that cap, one to two minutes after the reset waited for, if one
   * is known; with no reset known, up to a minute after the back-off for this attempt.
   */
  ghost predicate IsRetryPlan(plan: RetryPlan, windows: seq<Option<Window>>, text: Notice, now: int, attempts: nat,
                              sessionId: string) {
    && now + MIN_WAIT_MS <= plan.at <= now + MAX_WAIT_MS
    && (plan.source.FromWindow? <==> Soonest(windows, now).Some?)
    && (plan.source.FromText? <==> Soonest(windows, now).None? && IsTrusted(text))
    && match plan.source
       case FromWindow => Planned(plan.at, now, Soonest(windows, now).value + RESET_BUFFER_MS, sessionId)
       case FromText =>
         exists reset ::
           IsNextShowing(reset, now, text.resets.value) && Planned(plan.at, now, reset + RESET_BUFFER_MS, sessionId)
       case FromBackoff => Planned(plan.at, now, now + BackoffMs(attempts), sessionId)
  }

  method PlanRetry(windows: seq<Option<Window>>, text: Notice, now: int, attempts: nat, sessionId: string)
    returns (plan: RetryPlan)
    ensures IsRetryPlan(plan, windows, text, now, attempts, sessionId)
  {
    var soonest := Soonest(windows, now);
    var at, source;
    if soonest.Some? {
      SoonestIs(windows, now, soonest.value);
      hide Soonest;
      at := soonest.value + RESET_BUFFER_MS;
      source := FromWindow;
    } else {
      hide Soonest;
      var parsed := ParseResetTime(text, now);
      if parsed.Some? {
        at := parsed.value + RESET_BUFFER_MS;
        source := FromText;
      } else {
        at := now + BackoffMs(attempts);
        source := FromBackoff;
      }
    }
    ghost var from := at;
    var spread := SpreadMs(sessionId, SPREAD_MS);
    at := at + spread;
    at := Min(at, now + MAX_WAIT_MS);
    at := Max(at, now + MIN_WAIT_MS);
    assert Planned(at, now, from, sessionId);
    return RetryPlan(at, source);
  }

  /** The session's own place in the minute that starts at `from`, neither too soon nor too late. */
  ghost predicate Planned(at: int, now: int, from: int, sessionId: string) {
    at == Max(Min(from + Digits(sessionId) % 1_000_003 % SPREAD_MS, now + MAX_WAIT_MS), now + MIN_WAIT_MS)
  }

  /** So within the minute that starts at `from`, unless the six-hour cap cuts in. */
  lemma PlannedWithin(at: int, now: int, from: int, sessionId: string)
    requires Planned(at, now, from, sessionId) && from >= now + MIN_WAIT_MS
    ensures from <= at < from + SPREAD_MS || (at == now + MAX_WAIT_MS && at < from + SPREAD_MS)
  {
  }
}
