/**
 * The choice after a refusal: which account comes next if any has room, and otherwise how long
 * to wait for one (daemon/src/rotation.ts).
 */
module Rotation {
  import opened Common

  const SWITCH_COOLDOWN_MS: nat := 30_000
  const SWITCH_SETTLE_MS: nat := 5_000

  /** The default account has no directory of its own. */
  datatype Account = Account(name: string, configDir: Option<string>)

  type IdentityOf = Account -> string

  /** Limits by identity, logins that have stopped working, and the last change of account. */
  datatype RotationState = RotationState(limited: map<string, int>, unusable: set<string>, lastSwitchAt: int)

  function AccountKey(configDir: Option<string>): string {
    if configDir.None? then "" else configDir.value
  }

  predicate Usable(a: Account, state: RotationState, now: int, identityOf: IdentityOf) {
    var id := identityOf(a);
    id !in state.unusable && (id !in state.limited || state.limited[id] <= now)
  }

  // ---------- the scan -------------------------------------------------------------

  /** Where the current account is listed, or -1. */
  function FindCurrent(accounts: seq<Account>, current: Option<string>): (r: int)
    ensures -1 <= r < |accounts|
    ensures r >= 0 ==> AccountKey(accounts[r].configDir) == AccountKey(current)
    ensures forall i | 0 <= i < (if r < 0 then |accounts| else r) ::
              AccountKey(accounts[i].configDir) != AccountKey(current)
  {
    FindFrom(accounts, current, 0)
  }

  function FindFrom(accounts: seq<Account>, current: Option<string>, i: nat): (r: int)
    requires i <= |accounts|
    ensures r == -1 || i <= r < |accounts|
    ensures r >= 0 ==> AccountKey(accounts[r].configDir) == AccountKey(current)
    ensures forall k | i <= k < (if r < 0 then |accounts| else r) ::
              AccountKey(accounts[k].configDir) != AccountKey(current)
    decreases |accounts| - i
  {
    if i == |accounts| then -1
    else if AccountKey(accounts[i].configDir) == AccountKey(current) then i
    else FindFrom(accounts, current, i + 1)
  }

  /** An account that may take over: another directory, another login, and room left. */
  ghost predicate Eligible(accounts: seq<Account>, a: Account, current: Option<string>, state: RotationState,
                           now: int, identityOf: IdentityOf) {
    var at := FindCurrent(accounts, current);
    && AccountKey(a.configDir) != AccountKey(current)
    && (at >= 0 ==> identityOf(a) != identityOf(accounts[at]))
    && Usable(a, state, now, identityOf)
  }

  /** How many places after the current account the list's i-th comes, going round. */
  function StepsTo(from: int, i: int, n: int): int {
    if i > from then i - from else i - from + n
  }

  lemma StepReaches(from: int, i: nat, n: nat)
    requires -1 <= from < n && i < n
    ensures 1 <= StepsTo(from, i, n) <= n
    ensures (from + StepsTo(from, i, n) + n) % n == i
  {
    var step := StepsTo(from, i, n);
    if i > from {
      assert from + step + n == i + n;
    } else {
      assert from + step + n == i + 2 * n;
    }
    Remainder(i, n);
  }

  lemma Remainder(i: nat, n: nat)
    requires i < n
    ensures (i + n) % n == i && (i + 2 * n) % n == i
  {
    assert i + n == 1 * n + i;
  }

  /** The step that lands on the i-th account is the number of places to it. */
  lemma StepLands(from: int, step: nat, n: nat)
    requires -1 <= from < n && 1 <= step <= n
    ensures 0 <= (from + step + n) % n < n
    ensures StepsTo(from, (from + step + n) % n, n) == step
  {
    var i := if from + step < n then from + step else from + step - n;
    Remainder(i, n);
    assert from + step + n == i + n || from + step + n == i + 2 * n;
  }

  /**
   * The next account with room: of all eligible ones the fewest places after the current one,
   * going round; none exactly when none is eligible (or there is no second account).
   */
  method NextUsableAccount(accounts: seq<Account>, current: Option<string>, state: RotationState, now: int,
                           identityOf: IdentityOf)
    returns (next: Option<Account>)
    ensures IsNext(next, accounts, current, state, now, identityOf)
  {
    if |accounts| < 2 {
      return None;
    }
    var n := |accounts|;
    var start := FindCurrent(accounts, current);
    var from := if start >= 0 then start else -1;
    hide FindCurrent, Usable, AccountKey;
    for step := 1 to n + 1
      invariant forall i | 0 <= i < n && StepsTo(from, i, n) < step ::
                  !Eligible(accounts, accounts[i], current, state, now, identityOf)
    {
      StepLands(from, step, n);
      var at := (from + step + n) % n;
      var candidate := accounts[at];
      forall i | 0 <= i < n && StepsTo(from, i, n) == step
        ensures i == at
      {
        StepReaches(from, i, n);
      }
      if AccountKey(candidate.configDir) == AccountKey(current) {
        continue;
      }
      if start >= 0 && identityOf(candidate) == identityOf(accounts[start]) {
        continue;
      }
      if Usable(candidate, state, now, identityOf) {
        assert StepsTo(from, at, n) == step;
        return Some(candidate);
      }
    }
    forall i | 0 <= i < n
      ensures StepsTo(from, i, n) < n + 1
    {
      StepReaches(from, i, n);
    }
    return None;
  }

  ghost predicate IsNext(next: Option<Account>, accounts: seq<Account>, current: Option<string>,
                         state: RotationState, now: int, identityOf: IdentityOf) {
    if |accounts| < 2 then next == None
    else if next.None? then
      forall i | 0 <= i < |accounts| :: !Eligible(accounts, accounts[i], current, state, now, identityOf)
    else
      exists i :: IsFirst(i, accounts, current, state, now, identityOf) && next.value == accounts[i]
  }

  ghost predicate IsFirst(i: int, accounts: seq<Account>, current: Option<string>, state: RotationState, now: int,
                          identityOf: IdentityOf) {
    var from := FindCurrent(accounts, current);
    && 0 <= i < |accounts|
    && Eligible(accounts, accounts[i], current, state, now, identityOf)
    && forall j | 0 <= j < |accounts| && Eligible(accounts, accounts[j], current, state, now, identityOf) ::
         StepsTo(from, i, |accounts|) <= StepsTo(from, j, |accounts|)
  }

  ghost predicate AnyEligible(accounts: seq<Account>, current: Option<string>, state: RotationState, now: int,
                              identityOf: IdentityOf) {
    |accounts| >= 2 && exists a <- accounts :: Eligible(accounts, a, current, state, now, identityOf)
  }

  /** There is a next account exactly when one is eligible, and then it is another login, listed and with room. */
  lemma NextMeans(next: Option<Account>, accounts: seq<Account>, current: Option<string>, state: RotationState,
                  now: int, identityOf: IdentityOf)
    requires IsNext(next, accounts, current, state, now, identityOf)
    ensures next.Some? <==> AnyEligible(accounts, current, state, now, identityOf)
    ensures next.Some? ==>
              && next.value in accounts && AccountKey(next.value.configDir) != AccountKey(current)
              && identityOf(next.value) !in state.unusable
              && (identityOf(next.value) in state.limited ==> state.limited[identityOf(next.value)] <= now)
    ensures next.Some? && FindCurrent(accounts, current) >= 0 ==>
              identityOf(next.value) != identityOf(accounts[FindCurrent(accounts, current)])
  {
  }

  /** There is only one such answer. */
  lemma NextIsUnique(a: Option<Account>, b: Option<Account>, accounts: seq<Account>, current: Option<string>,
                     state: RotationState, now: int, identityOf: IdentityOf)
    requires IsNext(a, accounts, current, state, now, identityOf)
    requires IsNext(b, accounts, current, state, now, identityOf)
    ensures a == b
  {
    hide Eligible, FindCurrent;
    if a.Some? && b.Some? && |accounts| >= 2 {
      var i :| IsFirst(i, accounts, current, state, now, identityOf) && a.value == accounts[i];
      var j :| IsFirst(j, accounts, current, state, now, identityOf) && b.value == accounts[j];
      var from := FindCurrent(accounts, current);
      assert StepsTo(from, i, |accounts|) == StepsTo(from, j, |accounts|);
    }
  }

  // ---------- the plan ----------------------------------------------------------------

  datatype Why = Switched | Cooldown | CooldownLimited | AllLimited | Disabled | SingleAccount

  datatype RotationPlan = RotationPlan(switchTo: Option<Account>, retryAt: int, why: Why)

  /** When the first of the limits still running ends, this account's own being `own`. */
  ghost predicate IsSoonestEnd(t: int, limited: map<string, int>, now: int, own: int) {
    && t <= own
    && (forall id | id in limited && limited[id] > now :: t <= limited[id])
    && (t == own || exists id :: id in limited && limited[id] == t && t > now)
  }

  predicate CurrentIsSpent(accounts: seq<Account>, current: Option<string>, state: RotationState, now: int,
                           identityOf: IdentityOf) {
    var at := FindCurrent(accounts, current);
    at >= 0 && !Usable(accounts[at], state, now, identityOf)
  }

  method PlanAfterLimit(accounts: seq<Account>, current: Option<string>, state: RotationState, now: int,
                        ownResetAt: int, enabled: bool, identityOf: IdentityOf)
    returns (plan: RotationPlan)
    ensures IsPlan(plan, accounts, current, state, now, ownResetAt, enabled, identityOf)
    ensures plan.why.Disabled? <==> !enabled
    ensures plan.why.SingleAccount? <==> enabled && |accounts| < 2
    ensures plan.why.Cooldown? || plan.why.CooldownLimited?
       <==> enabled && |accounts| >= 2 && now - state.lastSwitchAt < SWITCH_COOLDOWN_MS
    ensures plan.why.Switched? ==> plan.retryAt == now + SWITCH_SETTLE_MS && plan.switchTo.Some?
    ensures !plan.why.Switched? ==> plan.switchTo.None?
    ensures plan.why.Disabled? || plan.why.SingleAccount? ==> plan.retryAt == ownResetAt
    ensures plan.why.Cooldown? ==> plan.retryAt == now + SWITCH_SETTLE_MS
    ensures plan.why.CooldownLimited? ==> plan.retryAt == state.lastSwitchAt + SWITCH_COOLDOWN_MS + SWITCH_SETTLE_MS
    // Spent is only a listed account whose login is given up or whose limit still runs.
    ensures plan.why.CooldownLimited? ==>
              && FindCurrent(accounts, current) >= 0
              && var id := identityOf(accounts[FindCurrent(accounts, current)]);
                 id in state.unusable || (id in state.limited && state.limited[id] > now)
    ensures plan.why.Cooldown? && FindCurrent(accounts, current) >= 0 ==>
              Usable(accounts[FindCurrent(accounts, current)], state, now, identityOf)
  {
    if !enabled {
      return RotationPlan(None, ownResetAt, Disabled);
    }
    if |accounts| < 2 {
      return RotationPlan(None, ownResetAt, SingleAccount);
    }
    hide FindCurrent, IsNext, IsSoonestEnd;
    if now - state.lastSwitchAt < SWITCH_COOLDOWN_MS {
      if CurrentIsSpent(accounts, current, state, now, identityOf) {
        return RotationPlan(None, state.lastSwitchAt + SWITCH_COOLDOWN_MS + SWITCH_SETTLE_MS, CooldownLimited);
      }
      return RotationPlan(None, now + SWITCH_SETTLE_MS, Cooldown);
    }
    var next := NextUsableAccount(accounts, current, state, now, identityOf);
    if next.Some? {
      return RotationPlan(next, now + SWITCH_SETTLE_MS, Switched);
    }
    var soonest := SoonestEnd(state.limited, now, ownResetAt);
    return RotationPlan(None, soonest, AllLimited);
  }

  method SoonestEnd(limited: map<string, int>, now: int, own: int) returns (t: int)
    ensures IsSoonestEnd(t, limited, now, own)
  {
    t := own;
    var todo := limited.Keys;
    while todo != {}
      invariant todo <= limited.Keys
      invariant t <= own && (t == own || exists id :: id in limited && limited[id] == t && t > now)
      invariant forall id | id in limited.Keys - todo && limited[id] > now :: t <= limited[id]
    {
      var id :| id in todo;
      todo := todo - {id};
      if limited[id] > now && limited[id] < t {
        t := limited[id];
      }
    }
  }

  /**
   * Rotation off, or nowhere to rotate to: wait for this account. Within the cooldown of a
   * switch: try the account switched to, or if that one is spent wait the cooldown out.
   * Otherwise switch if anything is eligible, else wait for the limit that ends soonest.
   */
  ghost predicate IsPlan(plan: RotationPlan, accounts: seq<Account>, current: Option<string>, state: RotationState,
                         now: int, ownResetAt: int, enabled: bool, identityOf: IdentityOf) {
    if !enabled then plan == RotationPlan(None, ownResetAt, Disabled)
    else if |accounts| < 2 then plan == RotationPlan(None, ownResetAt, SingleAccount)
    else if now - state.lastSwitchAt < SWITCH_COOLDOWN_MS then
      if CurrentIsSpent(accounts, current, state, now, identityOf)
      then plan == RotationPlan(None, state.lastSwitchAt + SWITCH_COOLDOWN_MS + SWITCH_SETTLE_MS, CooldownLimited)
      else plan == RotationPlan(None, now + SWITCH_SETTLE_MS, Cooldown)
    else
      && IsNext(plan.switchTo, accounts, current, state, now, identityOf)
      && (if plan.switchTo.Some? then plan.retryAt == now + SWITCH_SETTLE_MS && plan.why == Switched
          else IsSoonestEnd(plan.retryAt, state.limited, now, ownResetAt) && plan.why == AllLimited)
  }

  /** A refused turn always waits, and never much longer than its own limit does. */
  lemma PlanIsTimely(plan: RotationPlan, accounts: seq<Account>, current: Option<string>, state: RotationState,
                     now: int, ownResetAt: int, enabled: bool, identityOf: IdentityOf)
    requires IsPlan(plan, accounts, current, state, now, ownResetAt, enabled, identityOf)
    requires state.lastSwitchAt <= now < ownResetAt
    ensures now < plan.retryAt
    ensures plan.retryAt <= ownResetAt || plan.retryAt <= now + SWITCH_COOLDOWN_MS + SWITCH_SETTLE_MS
    ensures plan.switchTo.Some? ==>
              plan.switchTo.value in accounts && Usable(plan.switchTo.value, state, now, identityOf)
  {
    hide FindCurrent, CurrentIsSpent;
  }

  // ---------- at the end of the wait ---------------------------------------------------

  /** The account to move to before a retry: None to stay. */
  ghost predicate IsForRetry(target: Option<Account>, accounts: seq<Account>, current: Option<string>,
                             state: RotationState, now: int, enabled: bool, identityOf: IdentityOf) {
    var at := FindCurrent(accounts, current);
    if !enabled || |accounts| < 2 || (at >= 0 && Usable(accounts[at], state, now, identityOf)) then target == None
    else IsNext(target, accounts, current, state, now, identityOf)
  }

  method AccountForRetry(accounts: seq<Account>, current: Option<string>, state: RotationState, now: int,
                         enabled: bool, identityOf: IdentityOf)
    returns (target: Option<Account>)
    ensures IsForRetry(target, accounts, current, state, now, enabled, identityOf)
  {
    hide FindCurrent, Usable, IsNext;
    if !enabled || |accounts| < 2 {
      return None;
    }
    var at := FindCurrent(accounts, current);
    if at >= 0 && Usable(accounts[at], state, now, identityOf) {
      return None;
    }
    target := NextUsableAccount(accounts, current, state, now, identityOf);
  }

  /** After the retry's choice of account, the one in use has room. */
  ghost predicate RetryHasRoom(target: Option<Account>, accounts: seq<Account>, current: Option<string>,
                               state: RotationState, now: int, identityOf: IdentityOf) {
    var at := FindCurrent(accounts, current);
    if target.Some? then target.value in accounts && Usable(target.value, state, now, identityOf)
    else at >= 0 && Usable(accounts[at], state, now, identityOf)
  }

  ghost predicate DistinctKeys(accounts: seq<Account>) {
    forall i, j | 0 <= i < j < |accounts| :: AccountKey(accounts[i].configDir) != AccountKey(accounts[j].configDir)
  }

  /** Waking finds room exactly when some listed account has room by then. */
  lemma RetryFindsRoom(target: Option<Account>, accounts: seq<Account>, current: Option<string>,
                       state: RotationState, now: int, identityOf: IdentityOf)
    requires |accounts| >= 2 && DistinctKeys(accounts)
    requires IsForRetry(target, accounts, current, state, now, true, identityOf)
    ensures RetryHasRoom(target, accounts, current, state, now, identityOf)
       <==> exists i :: 0 <= i < |accounts| && Usable(accounts[i], state, now, identityOf)
  {
    var at := FindCurrent(accounts, current);
    if target.None? && !(at >= 0 && Usable(accounts[at], state, now, identityOf)) {
      forall i | 0 <= i < |accounts|
        ensures !Usable(accounts[i], state, now, identityOf)
      {
        assert !Eligible(accounts, accounts[i], current, state, now, identityOf);
      }
    }
  }

  /** A limit that has ended may be forgotten: it is ignored from then on anyway. */
  lemma ForgettingEndedLimits(a: Account, state: RotationState, now: int, later: int, identityOf: IdentityOf)
    requires now <= later
    ensures Usable(a, state.(limited := StillLimited(state.limited, now)), later, identityOf)
       <==> Usable(a, state, later, identityOf)
  {
  }

  /** So forgetting ended limits changes no choice. */
  lemma ForgettingKeepsChoice(target: Option<Account>, accounts: seq<Account>, current: Option<string>,
                              state: RotationState, now: int, identityOf: IdentityOf)
    ensures var kept := state.(limited := StillLimited(state.limited, now));
            && (IsForRetry(target, accounts, current, kept, now, true, identityOf)
                <==> IsForRetry(target, accounts, current, state, now, true, identityOf))
            && (RetryHasRoom(target, accounts, current, kept, now, identityOf)
                <==> RetryHasRoom(target, accounts, current, state, now, identityOf))
  {
    var kept := state.(limited := StillLimited(state.limited, now));
    forall a
      ensures Usable(a, kept, now, identityOf) <==> Usable(a, state, now, identityOf)
    {
      ForgettingEndedLimits(a, state, now, now, identityOf);
    }
    hide Usable, FindCurrent, StepsTo;
    assert forall a ::
        Eligible(accounts, a, current, kept, now, identityOf)
        <==> Eligible(accounts, a, current, state, now, identityOf);
    hide Eligible;
    forall i
      ensures IsFirst(i, accounts, current, kept, now, identityOf)
         <==> IsFirst(i, accounts, current, state, now, identityOf)
    {
    }
    hide IsFirst;
  }

  function StillLimited(limited: map<string, int>, now: int): map<string, int> {
    map id | id in limited && limited[id] > now :: limited[id]
  }

  /** Some listed login that still works has its limit end at `t`. */
  predicate EndsForSomeone(accounts: seq<Account>, state: RotationState, t: int, identityOf: IdentityOf) {
    exists a <- accounts ::
      var id := identityOf(a);
      id !in state.unusable && id in state.limited && state.limited[id] == t
  }

  /**
   * Waiting helps. A plan to wait for every account, made with this account's own limit
   * recorded, is kept until its retry: then the retry finds an account with room exactly
   * when the limit that ends soonest is one of a listed login that still works. Once it
   * does, it does at any later time.
   */
  lemma WaitingHelpsExactlyWhen(plan: RotationPlan, target: Option<Account>, accounts: seq<Account>,
                                current: Option<string>,
                                state: RotationState, now: int, ownResetAt: int, later: int, identityOf: IdentityOf)
    requires DistinctKeys(accounts)
    requires OwnLimitRecorded(accounts, current, state, ownResetAt, identityOf) && ownResetAt > now
    requires IsPlan(plan, accounts, current, state, now, ownResetAt, true, identityOf) && plan.why == AllLimited
    requires plan.retryAt <= later
    requires IsForRetry(target, accounts, current, state, later, true, identityOf)
    ensures EndsForSomeone(accounts, state, plan.retryAt, identityOf)
        ==> RetryHasRoom(target, accounts, current, state, later, identityOf)
    ensures later == plan.retryAt && RetryHasRoom(target, accounts, current, state, later, identityOf)
        ==> EndsForSomeone(accounts, state, plan.retryAt, identityOf)
  {
    RetryFindsRoom(target, accounts, current, state, later, identityOf);
    hide RetryHasRoom, IsForRetry, DistinctKeys, FindCurrent, CurrentIsSpent, IsNext, IsSoonestEnd, OwnLimitRecorded;
    if EndsForSomeone(accounts, state, plan.retryAt, identityOf) {
      var a :| a in accounts && identityOf(a) !in state.unusable && identityOf(a) in state.limited
            && state.limited[identityOf(a)] == plan.retryAt;
      assert Usable(a, state, later, identityOf);
    }
    if later == plan.retryAt && exists i :: 0 <= i < |accounts| && Usable(accounts[i], state, later, identityOf) {
      var i :| 0 <= i < |accounts| && Usable(accounts[i], state, later, identityOf);
      LimitedTillTheEnd(accounts, i, current, state, now, ownResetAt, plan.retryAt, identityOf);
      assert accounts[i] in accounts;
    }
  }

  /** In particular when every login still limited is listed and works. */
  lemma WaitingHelps(plan: RotationPlan, target: Option<Account>, accounts: seq<Account>, current: Option<string>,
                     state: RotationState, now: int, ownResetAt: int, later: int, identityOf: IdentityOf)
    requires DistinctKeys(accounts) && FindCurrent(accounts, current) >= 0
    requires OwnLimitRecorded(accounts, current, state, ownResetAt, identityOf) && ownResetAt > now
    requires forall id | id in state.limited && state.limited[id] > now ::
               id !in state.unusable && exists a <- accounts :: identityOf(a) == id
    requires IsPlan(plan, accounts, current, state, now, ownResetAt, true, identityOf) && plan.why == AllLimited
    requires plan.retryAt <= later
    requires IsForRetry(target, accounts, current, state, later, true, identityOf)
    ensures RetryHasRoom(target, accounts, current, state, later, identityOf)
  {
    WaitingHelpsExactlyWhen(plan, target, accounts, current, state, now, ownResetAt, later, identityOf);
    hide RetryHasRoom, IsForRetry, IsNext, DistinctKeys;
    var own := identityOf(accounts[FindCurrent(accounts, current)]);
    var id :| id in state.limited && state.limited[id] == plan.retryAt > now;
    assert exists a <- accounts :: identityOf(a) == id;
  }

  /** What onLimited has just noted: the refused account's own limit, under its identity. */
  ghost predicate OwnLimitRecorded(accounts: seq<Account>, current: Option<string>, state: RotationState,
                                   ownResetAt: int, identityOf: IdentityOf) {
    var at := FindCurrent(accounts, current);
    at >= 0 ==> identityOf(accounts[at]) in state.limited && state.limited[identityOf(accounts[at])] == ownResetAt
  }

  /** With nothing to switch to, every login that works is limited, and for no less than the wait. */
  lemma LimitedTillTheEnd(accounts: seq<Account>, i: nat, current: Option<string>, state: RotationState, now: int,
                          ownResetAt: int, retryAt: int, identityOf: IdentityOf)
    requires DistinctKeys(accounts) && i < |accounts| && |accounts| >= 2 && ownResetAt > now
    requires OwnLimitRecorded(accounts, current, state, ownResetAt, identityOf)
    requires IsNext(None, accounts, current, state, now, identityOf)
    requires IsSoonestEnd(retryAt, state.limited, now, ownResetAt)
    ensures var id := identityOf(accounts[i]);
            id in state.unusable || (id in state.limited && state.limited[id] > now && state.limited[id] >= retryAt)
  {
    assert !Eligible(accounts, accounts[i], current, state, now, identityOf);
    var at := FindCurrent(accounts, current);
    if AccountKey(accounts[i].configDir) == AccountKey(current) {
      assert i == at;
    }
  }

  /** The limit that ends soonest can be one of a login that no longer works: then the wait is for nothing. */
  lemma WaitForADeadLogin()
    returns (accounts: seq<Account>, state: RotationState, plan: RotationPlan, identityOf: IdentityOf)
    ensures DistinctKeys(accounts) && OwnLimitRecorded(accounts, None, state, 900_000, identityOf)
    ensures IsPlan(plan, accounts, None, state, 100_000, 900_000, true, identityOf) && plan.why == AllLimited
    ensures IsForRetry(None, accounts, None, state, plan.retryAt, true, identityOf)
    ensures !RetryHasRoom(None, accounts, None, state, plan.retryAt, identityOf)
  {
    identityOf := (a: Account) => AccountKey(a.configDir);
    accounts := [Account("own", None), Account("dead", Some("/dead"))];
    state := RotationState(map["" := 900_000, "/dead" := 500_000], {"/dead"}, 0);
    plan := RotationPlan(None, 500_000, AllLimited);
    assert FindCurrent(accounts, None) == 0;
    assert state.limited["/dead"] == 500_000;
    assert IsSoonestEnd(500_000, state.limited, 100_000, 900_000);
  }
}
