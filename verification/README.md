# The daemon's promises, as a Dafny model

claude-persist keeps Claude Code conversations alive in a daemon: chats are logged to disk and replayed, turns refused by a plan limit are held and sent again, accounts are rotated, transcripts follow the chat from account to account, files are uploaded in pieces, streamed text is gathered, and process trees are killed from a phone. This project models the parts of it that have a simple promise and a complicated body, in the form the code has (classes with fields where methods update an object, loops with invariants where the code loops, functions where it computes), and proves the promise for every input, every run or every reachable state.

`dafny verify dfyconfig.toml` checks all of it.

| module | models |
|---|---|
| `LineReader`, `LogStore`, `SessionLog` | the event log: chunked line reader, archives and rotation, capped tail, replay, retried messages |
| `ParkedTurn`, `Resends`, `Daemon` | the parked-turn machine as pure steps, how far its automatic resends go, and the sessions and the daemon (as objects that call each other) proved to take exactly those steps |
| `Rotation`, `Limits` | which account to use next, and how long to wait |
| `Coalesce` | the coalescing sender |
| `Uploads` | the resumable upload, with its client and a network that misbehaves |
| `Transcripts` | newest-copy-wins synchronisation between accounts |
| `StreamingMarkdown`, `CommonMark` | the splitter of half-received markdown, and its fence lines beside those of the spec |
| `Processes` | tree kill, protection, tree totals |
| `TokenFlow` | the sliding-window token meter |
| `Titler` | the memory that keeps a tab's name from flapping |
| `Common`, `OrderedMap` | shared vocabulary; JavaScript's insertion-ordered `Map` |

How to read it. A stateful class has a `Valid()` predicate or a function giving its whole state as a value (`State()`), and a specification on values. Every method's contract ties the new state to that specification, and the theorems are lemmas about the specification, or `Run` methods that drive the class through an arbitrary sequence of operations. Ghost fields (`log`, `input`, `past`, `ledger`) are what the specification remembers and the code does not. Answers of the outside world (a rename, a launch, the SDK, the status page, the clock) are inputs of the method that asks.

## What turned out not to hold

- **Waiting for every account** (`planAfterLimit`). The wait is the minimum over all running limits, including those of logins that rotation has given up on (`unusable`) or that are no longer listed. When such a limit is the one that ends first, the daemon wakes and finds no account with room: `Rotation.WaitForADeadLogin` is an instance, and `Rotation.WaitingHelpsExactlyWhen` and `Daemon.WaitedOut` give the exact condition at the wake-up time.
- **Automatic resends end** (`parkForLimit`). Giving up sets the retry count back to zero and, on a turn's result or a stall, leaves the query installed. A turn that the query is then refused for is parked as a first attempt, and a new budget begins: `Resends.BoundIsPassed` is a run with six resends and no overload, `Resends.RefusedAgainIsFirstAttempt` the step that makes it. `Resends.ResendsWithinBudgets` bounds every unattended run by one budget for each give-up; `Resends.ResendsEnd` shows that a refusal after a give-up is the only way past the bound, and `Resends.GiveUpIsFinalExactlyWhen` which give-ups are for good.
- **Sent only when due** (`watchStatusPage`). A real answer drops what is parked but neither stops the status poll nor forgets the incident it named. If the next turn is parked on a plan limit within a poll interval, the end of that incident sends it at once, before its retry time: `Resends.StaleIncidentSendsEarly` is such a run of a new session. The incident is forgotten only when a turn is sent, cancelled or given up or the daemon restarts, so it also outlives the poll: an overload hours later is sent again at the first answer, although its own wait has only begun (`Resends.OldIncidentSendsLaterTurn`). `ParkedTurn.ResentExactlyWhenDue` says exactly when a parked turn is sent.
- **A switch loses no turn** (`setAccount`). `ParkedTurn.SwitchLosesNoTurn` holds of every switch the daemon makes. An account chosen by hand tears the queries down and parks nothing. What was parked already is still sent; a turn that was not is lost, unless it was a running one whose watchdog is armed and the session's retry count is below five. That one the watchdog parks as stalled after twenty silent minutes; with five retries or more, which a run of overloads uses up in ten minutes, it gives up instead. `Resends.ChosenAccountLosesTurnExactlyWhen` is the condition; `Resends.ChosenAccountLosesTurn` and `Resends.ChosenAccountLosesOverloadedTurn` are runs of a new session that lose their turn.
- **A kill that would cut the way in is refused** (`killProcess`). The verdict is looked up by pid in a snapshot. A target that is not in it has no verdict, and a tree kill of it considers this daemon: `Processes.UnlistedTargetIsNotRefused`. An unrefused kill spares the daemon and everything above it exactly when the target is in the snapshot or is no such process itself: `Processes.KillRequest`, `Processes.SparesExactlyWhen`.
- **A launch resumes with everything** (`ensureSdkTranscript`). It needs the dir of the newest copy to be among those scanned: `Transcripts.ResumesAllExactlyWhen`, with `Transcripts.ForgottenDirLosesTurn` as the instance where it is not.
- **Fences as in CommonMark** (`openFenceStart`). The code is looser than section 4.5 of the CommonMark Spec in both directions. It takes a tab or other white space for indentation (`CommonMark.TabIndented`), accepts a backtick after an opening run of backticks (`CommonMark.BacktickInInfo`), and closes a fence that has any white space after it, not only spaces and tabs (`CommonMark.NoBreakSpaceAfter`). A text can therefore be settled to its end inside a fence of the spec's (`CommonMark.SettledInsideSpecFence`). `CommonMark.ReadAlikeExactlyWhen` is the exact condition on a line, and where all lines meet it `CommonMark.StableIsClosedInSpec` gives the promise as the spec has it. The other results are about the fences of the code.
- **A report without tokens uses up its message id** (`TokenMeter.record`). The id is noted before the report is found empty, so the full report of that message that follows is not counted: `TokenFlow.EmptyThenFull`. `TokenFlow.CountedExactlyWhen` says which reports count.

## Model

| member | source | states |
|---|---|---|
| `LineReader.ReadLines` | daemon/src/logStore.ts:95-127 | Whatever the chunk size and however short each read falls, the callback receives exactly the lines of the content split at newlines (a last unterminated one only if not blank), up to and including the first after which it asks to stop. |
| `LineReader.SplitUnique` | daemon/src/logStore.ts:113-123 | The split is the only way to write the content as newline-free lines, each ended by a newline, and a newline-free rest. |
| `LineReader.GivenUnique` | daemon/src/logStore.ts:95-127 | What the callback receives is determined by the content and the callback alone, so chunk boundaries cannot matter. |
| `LogStore.LoadTailAndCount` | daemon/src/logStore.ts:152-169 | Over all files in order: the newest `maxTail` valid events, the number of all of them, and the number in each file. |
| `LogStore.ReadRange` | daemon/src/logStore.ts:177-191 | The events at positions `[start, end)` of the concatenated files, although reading stops in the middle of a file and skips the files after it. |
| `LogStore.RangeStops` | daemon/src/logStore.ts:182-188 | A reader that stops once the range is complete has read a prefix of the events, never past the range, and all of the file unless the range was completed. |
| `LogStore.AppendGlues` | daemon/src/session.ts:415 | What an append does to any file, also one whose last line is torn: the line is glued to whatever follows the last newline, and the file is whole afterwards. |
| `LogStore.AppendedLine` | daemon/src/session.ts:415 | On a file that ends in a newline an append adds exactly the one event, and the file ends in a newline again. |
| `LogStore.SessionFiles.ListArchiveGenerations` | daemon/src/logStore.ts:37-51 | The archive generations lowest first, each once, in whatever order the directory lists them. |
| `LogStore.SessionFiles.AllLogFiles` | daemon/src/logStore.ts:54-57 | The archives by generation, then the active file. |
| `LogStore.SessionFiles.RotateActiveLog` | daemon/src/logStore.ts:66-77 | Whether or not the rename succeeds, the events on disk are the same sequence as before, and no archive is changed or overwritten. |
| `LogStore.RotationKeepsEvents` | daemon/src/logStore.ts:66-77 | Renaming the active file to a generation above all others leaves the concatenated events as they were. |
| `LogStore.ListingUnique` | daemon/src/logStore.ts:50 | A set of generations has one ascending listing, so sorting decides the order of the history. |
| `SessionLog.SessionLog.constructor` | daemon/src/session.ts:312-323 | A session starting on whatever is on disk has exactly those events as its log, with tail and counters to match; if the rename works, it starts with fewer than 2000 events in the active file. |
| `SessionLog.SessionLog.RotateIfNeeded` | daemon/src/session.ts:369-376 | Exactly past the threshold, and if the rename works, the active file becomes the generation above all others; the log, the tail and all other archives stay as they were. |
| `SessionLog.SessionLog.AppendEvent` | daemon/src/session.ts:378-419 | The log grows by exactly this event, numbered by its position, on disk and in memory. The append that fills the active file, and no other, turns it with this line into the next archive if the rename works; otherwise the line is the active file's last. |
| `SessionLog.RetryMeans` | daemon/src/session.ts:434-438 | A message is a retry exactly when one of the newest thousand events is a message with its id. |
| `SessionLog.SessionLog.SendMessage` | daemon/src/session.ts:434-460 | Accepted and recorded exactly when no event among the newest thousand carries the message's id; otherwise nothing changes. |
| `SessionLog.SessionLog.EventsSince` | daemon/src/session.ts:348-360 | The newest `limit` of the events from `since` on, and `hasEarlier` exactly when some of those were cut, from memory or from disk. |
| `SessionLog.SessionLog.EventsBefore` | daemon/src/session.ts:336-346 | The newest `limit` (at least one) events before a position, and `hasEarlier` exactly when older ones remain, on either side of the tail's start. |
| `SessionLog.RetriesRecordedOnce` | daemon/src/session.ts:434-460 | In every run of records, sends and restarts, two user messages with one id are more than a thousand positions apart; the log only grows and stays numbered by position. |
| `SessionLog.ResendIgnored` | daemon/src/session.ts:427-442 | Conversely, a resend within a thousand steps of the recorded message changes nothing. |
| `SessionLog.Run` | daemon/src/session.ts:312-419 | Any run of appends, sends and restarts, with renames succeeding or failing, ends with files, tail and counters that hold exactly the specified log; if all renames work, the active file never holds 2000 events between steps. |
| `SessionLog.ScrollBack` | daemon/src/session.ts:336-346 | A client paging back until `hasEarlier` is false ends up with exactly the log before its start, once and in order, although events are appended and files rotated between its pages. |
| `Coalesce.CoalescingSender.Send` | daemon/src/coalesce.ts:53-71 | With the text still held back, every chat shows what direct sending would show; a non-delta goes out at once and last; text is held back only while a timer is armed. |
| `Coalesce.CoalescingSender.Tick` | daemon/src/coalesce.ts:41-48 | All held text goes out and every chat is up to date; the timer stays armed exactly if there was something to send. |
| `Coalesce.CoalescingSender.FlushAll` | daemon/src/coalesce.ts:35-38 | One delta per gathered chat, in the order gathered, and nothing left. |
| `Coalesce.CoalescingSender.Close` | daemon/src/coalesce.ts:73-77 | Nothing more is sent, nothing is held and no timer is left. |
| `Coalesce.HeldBack` | daemon/src/coalesce.ts:60 | Adding text to what is held for a chat shows every chat the same as sending it would. |
| `Coalesce.Released` | daemon/src/coalesce.ts:64-70 | Sending what is held for one chat changes no chat's view. |
| `Coalesce.ViewShowsAll` | daemon/src/coalesce.ts:24-79 | What a chat's view holds is every character of its text and every other message of it, each in its place. |
| `Coalesce.ViewIsMerged` | daemon/src/coalesce.ts:24-79 | In a view no two pieces of text stand side by side. |
| `Coalesce.Run` | daemon/src/coalesce.ts:24-79 | Any interleaving of messages and ticks, then one last tick: every chat's messages with adjacent text merged are those of the input, character by character and in place, and all other messages went out in the input's order across chats. |
| `ParkedTurn.EveryRunIsSound` | daemon/src/session.ts:845-996 | In every run of all handlers, restarts and crashes included: a turn is parked in memory exactly when its file exists, a parked turn has its timer armed no earlier than its retry time, and parks equal resends plus deliberate drops plus what is parked now. |
| `ParkedTurn.StepIs` | daemon/src/session.ts:529-745 | For each handler: it keeps the above, sends at most one parked turn, parks a refused turn exactly within the budget of its cause, and otherwise leaves an unattended session's parked turn and retry count alone. |
| `ParkedTurn.ResentExactlyWhenDue` | daemon/src/session.ts:724-738 | A parked turn is sent exactly when its timer fires, then at or after its retry time, or when the incident it waits out is over; it is sent once and nothing is parked afterwards. |
| `Resends.ResendsWithinBudgets` | daemon/src/session.ts:529-569 | From a zero retry count, in every run in which no turn is answered and no one intervenes: resends, and a turn still parked, come to at most one budget for each time the session gave up plus the retries since; refusals to one more each. |
| `Resends.ResendsEnd` | daemon/src/session.ts:529-569 | In every such run: at most 5 resends if no refusal is an overload and at most 360 otherwise, and nothing parked after giving up, unless a turn is refused after a give-up; only that gets a run past the bound. |
| `Resends.GivenUpForGood` | daemon/src/session.ts:539-569 | Unless something is refused afterwards, a session gives up once and then has nothing parked. |
| `Resends.BoundIsPassed` | daemon/src/session.ts:539-555 | A run in time, without an overload, of six resends: after giving up, one more refusal on the query that is still there begins a new budget. |
| `Resends.RefusedAgainIsFirstAttempt` | daemon/src/session.ts:539-555 | Of any session whose budget is used up and whose query is installed: refused twice more, it has a turn parked as its first attempt. |
| `Resends.GiveUpIsFinalExactlyWhen` | daemon/src/session.ts:1342-1368 | After a give-up some unattended run sends again exactly when it was given up on a result, or on a stall with the query left; never when the query had thrown. |
| `Resends.ResendsAgainExactlyWhen` | daemon/src/session.ts:529-569 | Of any session: some unattended run in time sends something exactly when a turn is parked, a query is installed, or a running turn has its watchdog and fewer than five retries. |
| `Resends.BoundIsReached` | daemon/src/session.ts:529-622 | The bounds are tight: with the clock running forward there are runs of every number of resends up to 5 by limits and up to 360 by overloads, before any give-up. |
| `ParkedTurn.ParkedIsRefused` | daemon/src/session.ts:529-622 | A refused turn is parked, with the next attempt number and the cause's retry time, exactly while the retry count is below the cause's budget; otherwise nothing is parked. |
| `ParkedTurn.ParkedLeaves` | daemon/src/session.ts:529-622 | A turn parked as stalled, not launched or switched away has no query left, any other keeps it; an overload starts the status page being asked, giving up stops it. |
| `ParkedTurn.SwitchedAwayLeaves` | daemon/src/main.ts:303-311 | A switch leaves no session with a query of the account left, and changes nothing else but what it parks. |
| `ParkedTurn.SentLeaves` | daemon/src/session.ts:477-495 | A message leaves nothing parked and no retry due, and runs in a query unless there is none and none can be started. |
| `ParkedTurn.ResentLeaves` | daemon/src/session.ts:845-861 | After a switch the turn goes into a new query or nowhere, never into the one of the account left. |
| `ParkedTurn.MovedLeaves` | daemon/src/session.ts:1679-1682 | An expired login leaves the turn parked for the other account, counted, and its query gone. |
| `ParkedTurn.EndedLeaves` | daemon/src/session.ts:1663-1738 | A turn answered leaves nothing parked, no retry due and no retries counted; a turn refused is parked or given up by its budget, a retry used by an expired login counted. |
| `ParkedTurn.RebornLeaves` | daemon/src/session.ts:964-978 | A session starts anew with the turn its file holds, its retry count and its timer, and with nothing else. |
| `ParkedTurn.BusyWhile` | daemon/src/session.ts:509-516 | A session is at work while running, for less than 45 seconds after the SDK spoke, and up to 45 seconds after an agent did. |
| `ParkedTurn.EndedIsSound` | daemon/src/session.ts:1663-1738 | However a turn's result is taken (expired login, limit, overload, answer, or two of them at once), memory, file, timer and ledger still agree and nothing is sent. |
| `ParkedTurn.ResentSendsAgain` | daemon/src/session.ts:845-861 | Sending the parked turn counts one resend and no drop, leaves nothing parked and the retry count as it was, also when the account is switched just before. |
| `ParkedTurn.SwitchLosesNoTurn` | daemon/src/session.ts:924-938 | An account switch leaves every session at work with a parked turn: its own if it had one, otherwise one due five seconds later. |
| `ParkedTurn.RestartKeepsParked` | daemon/src/session.ts:895-978 | A parked turn survives a restart or crash with its retry time and attempts, and a restart parks every session at work. |
| `Resends.StaleIncidentSendsEarly` | daemon/src/session.ts:657-675 | A run of a new session, in time and with the status page still watched, in which a limit-parked turn is sent 59 minutes before its retry time by the end of an incident named for an earlier, answered turn. |
| `Resends.ChosenAccountLosesTurnExactlyWhen` | daemon/src/main.ts:772-781 | An account chosen by hand parks nothing; afterwards some unattended run sends something exactly when a turn was parked before, or a running one had its watchdog armed and fewer than five retries. |
| `Resends.ChosenAccountLosesTurn` | daemon/src/main.ts:772-781 | A run of a new session, in time, that ends idle and at work only through a subagent: chosen by hand, another account loses the turn, where an automatic switch would have parked it. |
| `Resends.ChosenAccountLosesOverloadedTurn` | daemon/src/main.ts:772-781 | A run of a new session, in time, with five overloads: its running, watched turn is lost too. |
| `Resends.OldIncidentSendsLaterTurn` | daemon/src/session.ts:657-687 | A run of a new session in which the page is no longer asked after an answer, and ten hours later the first answer to a new overload, that nothing is open, sends the turn at once. |
| `Daemon.DaemonSession.ParkForLimit` | daemon/src/session.ts:529-622 | The session takes the machine's parking step, with the wait planned from windows, notice and its own id and the daemon's answer to it: parked within the budget, its query gone if it stalled, did not launch or was switched away; past the budget nothing is parked. All other sessions are switched away if that answer switched account and unchanged otherwise. A stall, an overload or a launch failure marks no account and switches none. |
| `Daemon.DaemonSession.RunPendingRetry` | daemon/src/session.ts:845-861 | The session takes the resend step on the account chosen for the retry; if that was a switch, into a new query, or it ends idle without one. Other sessions change only if the account was switched. |
| `Daemon.DaemonSession.OnRetryTimer` | daemon/src/session.ts:731-734 | The timer handler is the machine's step. |
| `Daemon.DaemonSession.OnPollAnswer` | daemon/src/session.ts:640-676 | The status page's answer is the machine's step: only a named incident's end sends the parked turn, and the timer is then off. |
| `Daemon.DaemonSession.OnResult` | daemon/src/session.ts:1663-1738 | The result handler is the machine's step for what the text was taken for. With a sign-in needed the login in use is given up, and the turn moves to the next account, five seconds out, exactly when rotation is on and some account is eligible without it. A limit counts only if the windows agree, and is waited out as they and the notice say. An answer leaves nothing parked or counted. |
| `Daemon.DaemonSession.OnQueryError` | daemon/src/session.ts:1342-1368 | A thrown overload or launch failure is parked, anything else is not, and no query is left; no account and no other session is touched. |
| `Daemon.DaemonSession.OnStallTick` | daemon/src/session.ts:700-712 | Twenty silent minutes in a running turn park it as stalled; no account and no other session is touched. |
| `Daemon.DaemonSession.SendMessage` | daemon/src/session.ts:477-495 | A message supersedes what is parked, and starts a query or leaves the session idle. |
| `Daemon.DaemonSession.ParkForAccountSwitch` | daemon/src/session.ts:924-938 | Queued exactly when the session is at work, and then something is parked. |
| `Daemon.DaemonSession.MoveTo` | daemon/src/session.ts:948-961 | Refused exactly while the session is at work; for the folder it is in nothing changes; otherwise the folder is the new one and the query is gone. |
| `Daemon.DaemonSession.OnQueryEnd` | daemon/src/session.ts:1341-1368 | A query that ends leaves the session idle without one, and whatever is parked stays. |
| `Daemon.DaemonSession.OnPollStart` | daemon/src/session.ts:640-644 | The status page is asked exactly while something is parked; otherwise watching stops. |
| `Daemon.Restart` | daemon/src/session.ts:895-978 | Stopping one daemon and starting the next is the machine's restart step. |
| `Daemon.Daemon.ActivateAccount` | daemon/src/main.ts:299-316 | Afterwards no session has a query, whatever the order, and each is parked five seconds out if it was at work and not parked already; the switch is dated now. |
| `Daemon.Daemon.NoTurnDies` | daemon/src/main.ts:303-311 | After a switch every session that was at work has a parked turn, on disk too, and an armed timer. |
| `Daemon.Daemon.OthersStaySound` | daemon/src/main.ts:299-316 | A handler that keeps its own session sound keeps all of the daemon's sessions sound. |
| `Daemon.Daemon.Handle` | daemon/src/session.ts:529-996 | Whatever happens to one session, switching account or not, or to the account itself, every session of the daemon stays sound and its switches stay spaced. |
| `Daemon.Daemon.Run` | daemon/src/main.ts:299-316 | So does any interleaving of all sessions' handlers and of account changes; and with the clock not running back, no switch driven by a limit comes within thirty seconds of an earlier switch by the daemon. |
| `Daemon.Daemon.ChooseAccount` | daemon/src/main.ts:772-781 | An account chosen by hand takes every session's query and parks nothing. |
| `Daemon.Daemon.OnLimited` | daemon/src/main.ts:440-471 | The limit is recorded under the login in use, the plan is the rotation's plan with it recorded, it is carried out in account and sessions alike, and a switch is at least thirty seconds after the last one. |
| `Daemon.Daemon.OnAuthFailure` | daemon/src/main.ts:423-438 | The login is given up, and the next usable account (if rotation is on and one exists) is in use, never one given up. |
| `Daemon.Daemon.BeforeRetry` | daemon/src/main.ts:476-490 | Ended limits are forgotten, and the account in use is the one to retry on. |
| `Daemon.WaitedOut` | daemon/src/main.ts:440-490 | Across the two callbacks, with nothing changed but time: when everything was limited, the retry at or after the promised time has room if the limit that ends first is one of a listed login that still works; at exactly that time it has room only if so. |
| `Daemon.AuthMovesEnd` | daemon/src/main.ts:423-438 | Moves away from expired logins, which nothing counts, are still no more than there are accounts until someone signs in. |
| `Daemon.MoveLandsOnWorking` | daemon/src/main.ts:425-437 | Each such move gives up exactly the login it leaves and lands on a listed one not given up. |
| `Rotation.NextUsableAccount` | daemon/src/rotation.ts:90-112 | Of all eligible accounts the one the fewest places after the current, going round; null exactly when none is eligible or there is no second account. |
| `Rotation.NextIsUnique` | daemon/src/rotation.ts:104-110 | There is only one such answer. |
| `Rotation.NextMeans` | daemon/src/rotation.ts:104-111 | There is one exactly when some account is eligible, and it is listed, another directory and login, neither given up nor limited. |
| `Rotation.StepLands` | daemon/src/rotation.ts:105 | The k-th step of the wrap-around scan lands on the account k places after the current one, so the scan passes each account once. |
| `Rotation.PlanAfterLimit` | daemon/src/rotation.ts:120-158 | All six outcomes with their times: off, single account, cooldown, cooldown on a spent account, switch, and the earliest running limit when nothing is eligible. |
| `Rotation.PlanIsTimely` | daemon/src/rotation.ts:134-157 | A refused turn always waits, never past its own limit's end or the cooldown's, and a switch goes to a listed account with room. |
| `Rotation.AccountForRetry` | daemon/src/rotation.ts:167-180 | Stay on an account with room; otherwise the next usable one. |
| `Rotation.RetryFindsRoom` | daemon/src/rotation.ts:160-180 | The retry ends up on an account with room exactly when some listed account has room. |
| `Rotation.WaitingHelpsExactlyWhen` | daemon/src/rotation.ts:151-180 | Planned to wait for every account: at or after the planned time there is room if the limit that ends first is one of a listed login that still works, and at that time only if so. |
| `Rotation.WaitingHelps` | daemon/src/rotation.ts:151-180 | With every limited login listed and still able to sign in, waiting always helps. |
| `Rotation.WaitForADeadLogin` | daemon/src/rotation.ts:154-157 | An instance where the wait ends with the limit of a dead login and nothing has room. |
| `Rotation.ForgettingKeepsChoice` | daemon/src/main.ts:478 | Deleting ended limits changes neither the account chosen for a retry nor whether it has room. |
| `Limits.PlanRetry` | daemon/src/limits.ts:287-325 | Which of the three sources decides, and the time: a minute past the reset waited for (or the back-off's end), at the session's own place in the minute that follows, no sooner than half a minute and no later than six hours from now. |
| `Limits.SoonestIs` | daemon/src/limits.ts:298-303 | The reset waited for is the earliest future one among the rejecting windows, or among all if no rejecting one has any; none exactly when no reset is to come. |
| `Limits.ParseResetTime` | daemon/src/limits.ts:231-249 | An answer exactly when UTC and a real time of day are named, and then the first instant after now that shows this time. |
| `Limits.TwelveHourClock` | daemon/src/limits.ts:239-240 | The twelve-hour clock is read as the clock has it: twelve at night is 0, twelve at noon is 12. |
| `Limits.SpreadMs` | daemon/src/limits.ts:265-271 | The loop computes, within the window, the remainder of the id read as a number in base 31. |
| `Limits.HashIsRemainder` | daemon/src/limits.ts:266-269 | Reducing at every character gives the remainder of the whole number. |
| `Limits.PlannedWithin` | daemon/src/limits.ts:321-323 | A planned retry falls within the minute after the time it waits for, unless the six-hour cap cuts in. |
| `Limits.LookLimitedExactlyWhen` | daemon/src/limits.ts:216-222 | The windows look limited exactly when none is known, or one refuses work or is 95 percent used. |
| `Limits.BackoffLadder` | daemon/src/limits.ts:252-255 | Five, fifteen and thirty minutes, then an hour each time. |
| `Uploads.UploadServer.UploadBytes` | daemon/src/uploads.ts:45-72 | The answer is always what is held afterwards; a chunk in place is added and, if the last, completes the file; too much throws the part file away; anything else changes nothing. |
| `Uploads.IdIsAName` | daemon/src/uploads.ts:46-47 | An accepted id has no separator, dot or space in it. |
| `Uploads.UploadSafeAndLive` | daemon/src/uploads.ts:53-71 | With one file's chunks dropped, repeated, reordered or cut by a crash: the part file is always a prefix, a final file is the file, each exchange that gets through brings the client forward, and after one more than there are bytes it is done. |
| `Uploads.PieceKeepsIntact` | daemon/src/uploads.ts:57-70 | Any piece of the file, in any order, handled or crashed upon, keeps the part a prefix and the final file right, and loses nothing held. |
| `Uploads.StepAgrees` | daemon/src/uploads.ts:60 | The client never believes more than the server holds, and is told complete only when the file is. |
| `Uploads.FinishedStays` | daemon/src/uploads.ts:53-54 | Once final, the file never changes again. |
| `Uploads.FinalIsForGood` | daemon/src/uploads.ts:53-71 | For arbitrary chunks, not only those of one file: a final file stays, and nothing over the limit is ever held or finished. |
| `Uploads.TooLargeNeverFinishes` | daemon/src/uploads.ts:63-66 | A file over the limit is never finished, however its pieces arrive. |
| `Uploads.CompletesExactlyWithinLimit` | daemon/src/uploads.ts:45-72 | A file can be uploaded exactly when it is within the limit. |
| `Transcripts.TranscriptStore.FindTranscripts` | daemon/src/accounts.ts:170-196 | Every copy in the scanned dirs, each once, with its stat. |
| `Transcripts.TranscriptStore.EnsureSdkTranscript` | daemon/src/accounts.ts:271-292 | A newest copy of those scanned ends up, time and all, where the launch looks; nothing else changes. |
| `Transcripts.ResumesAllExactlyWhen` | daemon/src/accounts.ts:281-292 | The launch resumes with the whole history exactly when a scanned dir holds a copy that is all of it. |
| `Transcripts.LaunchKeepsAll` | daemon/src/session.ts:1201-1206 | With every dir scanned, the launch finds everything and the copies stay prefixes of the history ordered by age. |
| `Transcripts.TurnKeepsAll` | daemon/src/accounts.ts:125-128 | A turn written under a clock that does not run back makes its copy the newest and the longest, also when times are equal. |
| `Transcripts.Run` | daemon/src/session.ts:1201-1206 | Any run of launches under any account and folder, and turns between: the active copy holds every turn. |
| `Transcripts.ForgottenDirLosesTurn` | daemon/src/accounts.ts:284-286 | Launched under one account and then another, a turn each, and again under the first with the other's dir not scanned: the last launch resumes without the last turn, which the other copy still holds. |
| `StreamingMarkdown.OpenFenceStart` | extension/media/streamingMarkdown.js:17-41 | The loop computes the line-by-line scan. |
| `StreamingMarkdown.SplitStreamingMarkdown` | extension/media/streamingMarkdown.js:43-56 | Stable and tail make up the input, and stable has the specified length. |
| `StreamingMarkdown.StableOnlyGrows` | extension/media/streamingMarkdown.js:43-56 | For every text and continuation, the stable part of the text is a prefix of the stable part of the whole. |
| `StreamingMarkdown.EqualLengthEqualText` | extension/media/chat.js:1038-1044 | Equal length of the stable part means equal text, which the renderer relies on. |
| `StreamingMarkdown.StableIsClosed` | extension/media/streamingMarkdown.js:50-53 | The stable part has no open fence and ends at the end of a line. |
| `StreamingMarkdown.StableIsMaximal` | extension/media/streamingMarkdown.js:43-56 | It is the longest such part up to the last blank line. |
| `StreamingMarkdown.ScanFindsEndlessBlock` | extension/media/streamingMarkdown.js:17-41 | The one-pass scan finds exactly the block that a block-by-block reading (section 4.5 of the CommonMark Spec: opening line to first closing line, all between is content) leaves without an end. |
| `StreamingMarkdown.ScanInTwo` | extension/media/streamingMarkdown.js:20-39 | The scan can pause at any line start and go on from what it found, so a prefix's scan decides the rest. |
| `CommonMark.ReadAlikeExactlyWhen` | extension/media/streamingMarkdown.js:25-36 | For every line and fence state, the code and section 4.5 of the CommonMark Spec do the same exactly when the line, if it acts for the code, is indented by spaces, opens without a further backtick, or closes with spaces or tabs only. |
| `CommonMark.FenceIsSpecFence` | extension/media/streamingMarkdown.js:10 | A fence line of the code is one of the spec's, with the same mark and length, exactly when only spaces indent it, and the spec has no others. |
| `CommonMark.ScansAgree` | extension/media/streamingMarkdown.js:17-41 | Where all lines read alike, the scan finds the fence the spec leaves open. |
| `CommonMark.StableIsClosedInSpec` | extension/media/streamingMarkdown.js:50-53 | The stable part never ends inside a fence of the spec's, if its lines read alike. |
| `CommonMark.SettledInsideSpecFence` | extension/media/streamingMarkdown.js:50-53 | A text whose stable part is all of it and ends inside a fence of the spec's. |
| `CommonMark.TabIndented` | extension/media/streamingMarkdown.js:10 | Three backticks after a tab are a fence to the code and none to the spec. |
| `CommonMark.BacktickInInfo` | extension/media/streamingMarkdown.js:27-28 | So are three backticks with another backtick after them. |
| `CommonMark.NoBreakSpaceAfter` | extension/media/streamingMarkdown.js:29-34 | A no-break space after the marks: closed for the code, open for the spec. |
| `Processes.TreeWalk.Visit` | daemon/src/processes.ts:319-326 | The recursive walk adds what lies below, each once and after all its children. |
| `Processes.KillOrder` | daemon/src/processes.ts:317-329 | Exactly the processes reachable from the target, each once, the target last, and (the parent map being acyclic) each after all its children. |
| `Processes.DescendantsFirst` | daemon/src/processes.ts:296-298 | In such an order every process comes after all its descendants, at any depth. |
| `Processes.KillProcess` | daemon/src/processes.ts:303-345 | Refused exactly when the target is protected; otherwise `signalled` are the unprotected processes that took the signal and `failed` all others, in that order. |
| `Processes.FilterSplits` | daemon/src/processes.ts:331-343 | Signalled and failed partition the order: each process is in exactly the one its case says, once. |
| `Processes.Ancestors` | daemon/src/processes.ts:192-193 | The parent chain holds exactly the processes above pid 1 that this daemon descends from. |
| `Processes.KillRequest` | daemon/src/processes.ts:303-345 | On one snapshot: refused are exactly the listed targets that are the container, this daemon, above it, or the way in, and none of these is ever signalled. An unrefused kill goes through exactly the target, or the tree under it, each once; those that take the signal and are none of these are signalled, all others failed. Its order spares this daemon and what it descends from exactly when the snapshot lists the target or the target is none of these. |
| `Processes.ProtectedOnes` | daemon/src/processes.ts:150-158 | The verdict by pid is about exactly these processes. |
| `Processes.SparesExactlyWhen` | daemon/src/processes.ts:310-329 | Of any order of an unprotected target and what is below it: it spares this daemon and its ancestors exactly when the target is in the snapshot or is none of them itself. |
| `Processes.NothingAboveSelfBelow` | daemon/src/processes.ts:150-158 | Nothing at or below an unprotected process is this daemon or above it: the ancestor chain and child reachability are inverse. |
| `Processes.UnlistedTargetIsNotRefused` | daemon/src/processes.ts:310-316 | A target absent from the snapshot is not refused although this daemon is below it. |
| `Processes.TreeTotals` | daemon/src/processes.ts:207-221 | The count and memory of exactly the processes below one, each counted once, cycles or not. |
| `Processes.TotalsAndKillAgree` | daemon/src/processes.ts:207-221 | What a tree's totals count is what a tree kill of it goes through, less the target. |
| `TokenFlow.TokenMeter.constructor` | daemon/src/tokenFlow.ts:57-61 | A new meter remembers nothing and has counted nothing. |
| `TokenFlow.TokenMeter.Record` | daemon/src/tokenFlow.ts:63-77 | What is counted, noted and pruned is exactly what the report adds to the complete past, with the ids kept being exactly those the past recalls; a message counted within the hour is never counted again, and two counted calls of one message are at least an hour apart. |
| `TokenFlow.RecallsExactlyWhen` | daemon/src/tokenFlow.ts:66-69 | In every run in time of reports and looks, an id is remembered exactly when some report noted it and no look or counted report came an hour or more after that. |
| `TokenFlow.CountedExactlyWhen` | daemon/src/tokenFlow.ts:63-77 | After any such run, a report counts exactly when it holds tokens and has no message id, or one that no report keeps remembered. |
| `TokenFlow.FirstReportCounts` | daemon/src/tokenFlow.ts:63-77 | The first report of a message counts if it holds tokens. |
| `TokenFlow.EmptyThenFull` | daemon/src/tokenFlow.ts:66-74 | After any run without the message, an empty report of it keeps the full report that follows from being counted; without it, the full report is. |
| `TokenFlow.Run` | daemon/src/tokenFlow.ts:63-110 | A new meter through any run in time has counted exactly what the run comes to, although it keeps only an hour of it. |
| `TokenFlow.TokenMeter.Prune` | daemon/src/tokenFlow.ts:104-110 | Only calls at least an hour old are dropped and all kept are younger; what is kept still tracks the complete history. |
| `TokenFlow.TokenMeter.Snapshot` | daemon/src/tokenFlow.ts:79-102 | Hour and minute totals, call counts and the five busiest chats are those of the complete history, although only an hour of it is kept. |
| `TokenFlow.WindowOfKept` | daemon/src/tokenFlow.ts:104-108 | No window shorter than an hour misses a dropped call. |
| `TokenFlow.SortedIsTopFive` | daemon/src/tokenFlow.ts:98-100 | At most five chats, each with its sum, busiest first, and none left out is busier than one listed. |
| `TokenFlow.SumIsTotal` | daemon/src/tokenFlow.ts:48-54 | A sum of calls holds each of the five figures of every call. |
| `TokenFlow.SumForIsTotal` | daemon/src/tokenFlow.ts:92 | A chat's sum is the new work of all its calls, and there is none exactly for a chat without calls. |
| `TokenFlow.SinceIsSuffix` | daemon/src/tokenFlow.ts:86-93 | A window of calls in order is the newest ones, cut exactly where its time falls. |
| `TokenFlow.CountsMean` | daemon/src/tokenFlow.ts:70-75 | The counts are those reported, all but cache reads is work, and a report is empty exactly when none is above zero. |
| `TokenFlow.Totals` | daemon/src/tokenFlow.ts:82-93 | The loop's accumulators are the sums over the windows of the calls kept. |
| `Titler.IsMaterialChange` | daemon/src/titler.ts:588-610 | Counting shared words in any order decides whether fewer than half of the new name's significant words were already said. |
| `Titler.MaterialMeans` | daemon/src/titler.ts:602-609 | That is, whether more of them are new than not. |
| `Titler.DecideRename` | daemon/src/titler.ts:792-804 | The five outcomes in their order of precedence. |
| `Titler.RememberTitle` | daemon/src/titler.ts:807-810 | The names that differ from the one left, then that one, the newest twenty. |
| `Titler.SessionName.MaybeRetitle` | daemon/src/session.ts:784-843 | One look: that there has been one is noted, also when the namer has nothing; title, past names and held proposal afterwards. |
| `Titler.Run` | daemon/src/session.ts:784-843 | A session through any looks and clears has the name the story of these runs tells. |
| `Titler.EveryRunIsSound` | daemon/src/session.ts:816-842 | In every run of looks and clears: no name comes back within twenty renames, even reworded; the past names are exactly the newest twenty left behind; a held proposal is what the last answered look proposed; and a session knows exactly whether it has been looked at since the last clear. |
| `Titler.PastIsApart` | daemon/src/titler.ts:807-810 | The current title is a material change from every remembered name, so remembering drops names only through the cap. |
| `Titler.RenamesAreAgreed` | daemon/src/titler.ts:796-802 | After any run with a look since the last clear, a look renames only if the answered look before it, since that clear, proposed the name, up to rewording, and the name differs from the current and all remembered ones. |
| `Titler.FirstLookNames` | daemon/src/titler.ts:796 | The first answered look takes effect at once, if it is the first look since the start or a clear. |
| `Titler.TurnsDoNotRename` | daemon/src/titler.ts:772-791 | A tab once named keeps its name when two subjects take turns. |
| `Titler.EmptyLookKeeps` | daemon/src/session.ts:809 | A look without an answer changes nothing but that there has been one. |
| `Titler.TwoLooksAgree` | daemon/src/titler.ts:792-804 | Two looks in a row proposing a name, an empty one between them or not, give it to the tab exactly when it is materially different from the title and every remembered name (or is the title already). |

## Left out

- Sockets, HTTP and WebSocket gateway, push messages, the Agent SDK, the status page's request, the user interface: what they deliver is an input.
- Patterns over prose (limit, overload, sign-in and launch-failure notices, the clock time in a reset notice, title cleaning, a name's significant words, the way in's command line): their verdicts and captured groups are inputs.
- JSON is an abstract printer and parser: one non-blank line that parses to itself. A torn last line of a log and a log rewritten by hand are excluded by the precondition that the active file ends in a newline and events are numbered; `AppendGlues` says what a torn line would do.
- UTF-8 decoding, path spelling, symbolic links, realpath and the rounding of modification times: texts are characters, uploads bytes, places and times exact.
- `Uploads`: one upload id and one name; cleaning the name, and a name that changes between chunks, are not modelled.
- `Transcripts`: the sidecar trees beside a transcript, and copies that fail half-way.
- `Processes`: CPU, users, orphans and the texts of refusals; all processes are read at one moment.
- `ParkedTurn`: the text of a pending turn and of notices, the events these handlers append (the log is modelled in `SessionLog`), permission prompts, and a late message of a query that was torn down. Writing and removing the pending-turn file succeed. An agent's activity is the newest sign of any agent.
- `ParkedTurn`: the poll's request in flight is modelled by letting its answer come at any time at all; deletion of a session and the shut-down's last moments after parking are not steps.
- `Daemon.DaemonSession.OnSdkMessage`: only what a message does to status, watchdog and activity; its content is not modelled.
- `Daemon.Daemon.ActivateAccount`: the set of sessions is fixed (sessions that load lazily are not added), the default account's twin is not resolved, and what is broadcast is not modelled.
- `Daemon.AuthMovesEnd`: between two moves nothing else changes: nobody signs in again, no limit is recorded or forgotten, no other switch happens, no account comes or goes.
- `Rotation.WaitingHelpsExactlyWhen`: stated as an equivalence at the promised time; later than that a further limit may have ended, so only the one direction is claimed.
- `Titler`: a rename by the user, a clear that lands while the namer is at work, when a look is due, and the project tag.
- `TokenFlow`: a clock that runs backwards.
- `CommonMark`: containers (lists, block quotes) and indented code around a fence, and a carriage return that is not part of a line ending at a newline; lines are compared as the code splits them.
- `Limits`: dates beyond what a date object can hold; one session's spread is modelled, not that different sessions get different ones.
- Lock and ownership takeover, shared set-up, usage polling, file serving, server statistics, the registry: single-branch reading or file plumbing.
