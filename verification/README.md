# Attendance system: verified model

A Dafny model of the rules behind an employee attendance service: leave quotas, the manager hierarchy, the login limiter
and refresh tokens, attendance and its corrections, work schedules, daily standings, reports and the audit log. Run
`dafny verify dfyconfig.toml` in this directory to check all of it.

## How it is built

Each stateful part is written twice. A *specification* module holds the state as a value, a `Step` function for one
atomic database step and a `Run` over any sequence of steps; the theorems are about `Run`, so they hold for every
history and, where calls are cut into steps, for every interleaving. A *store* class then updates fields in place as the
repositories do, and each of its methods ensures that its new state is `Step` of the old one. Loops that fill maps or
fold lists are methods with invariants, proved against functions or quantified statements over the tables.

| file | part |
|---|---|
| `Leave.dfy`, `LeaveStore.dfy` | rule C, the quota protocol, the life of a leave request |
| `Hierarchy.dfy`, `Directory.dfy` | the recursive subtree query; creating, moving and removing users |
| `Limiter.dfy`, `Sessions.dfy` | login attempts in two nested fixed windows; rotating refresh tokens |
| `Schedule.dfy`, `Shift.dfy` | rule A; shifts on the clock and the shift a check-in belongs to |
| `Attendance.dfy`, `AttendanceStore.dfy` | check-in, check-out and corrections, interleaved |
| `WhosIn.dfy`, `Report.dfy` | rule B in batch; totals |
| `Roster.dfy`, `RosterStore.dfy` | roster and holiday writes with their audit log |
| `Codecs.dfy`, `Text.dfy` | `smallint[]` and `time` columns; the weekday list |
| `Geofence.dfy` | the office a mark is placed at |
| `Common.dfy`, `Calendar.dfy` | options, results, roles; dates, instants, years |

Dates are days, instants are microseconds, and the company zone is a constant offset of less than a day. The Gregorian
year is modelled, since a quota is charged by year. PostgreSQL runs at READ COMMITTED: a read after a lock sees all that
was committed by then. Constraints of the schema are guards of the steps: one attendance per user and work date, a
check-out after its check-in, one pending correction per user and work date, one roster row per user and date, unique
holiday dates, unique token hashes, foreign keys, and no two live leaves of one person on one date
(`internal/db/migrations/00006_leave.sql:70`). History such as the leave log, the token chains, the moment of each
check-in and the order of approvals is kept beside the state and no step reads it.

## What came out

- The quota holds although decisions and cancellations take no lock. It rests on two facts together: a balance read under
  the user's lock can only be an overestimate of what is charged until the insert, because unlocked steps only release
  days; and whoever else has read a balance meanwhile holds another user's lock.
- A login counts against its IP and then, in a second round trip, against its email. If no time passed in between, one IP
  that never succeeds could take 49 of an email's 100 attempts in an hour, and 49 can be taken. But attempts may be held
  between the two counts: within two microseconds 59 are possible, and in general
  `10 * ceil((60 min + gap) / 15 min) + 9`, which is reached. The IP cannot use up the email alone as long as none of its attempts waits more than 75 minutes; with two
  microseconds more it can. The limit of 100 password checks holds in every interleaving.
- The audit log of the holiday calendar is not proof against concurrent edits. Editing and deleting a holiday read the
  row, and decide whether to log, before the transaction that writes by id alone
  (`internal/api/server/modules/schedule/service.go:198-208`); a change that lands in between can leave a past date changed
  with no entry. The log is right about a past date at every moment of a run if and only if every write that takes finds
  what its call had read of that date. The roster always replays; its entries can name a wrong earlier state only where a
  slot found empty was filled since, or a row to remove was written over since.
- Detecting a stolen refresh token does not always end the session. The update that revokes the owner's tokens waits for a
  trade under way and never sees the token that trade inserts (`internal/api/server/modules/auth/repository.go:96` against
  115). It ends a login exactly when no token drawn since the update began is left unrevoked; a login that has ended that
  way, or any other, has ended for good. Chains stay linear and tokens single-use in every interleaving.
- Nobody can leave the company without an active super_admin while callers are what their claims say. Access tokens keep
  the role they were issued with, and then two super_admins can demote each other; `LosesTheLastExactlyWhen` says when.
- `standings` looks a schedule up with `pick` (`internal/api/server/modules/attendance/whosin.go:183-189`), which reads an
  id that was not loaded as a zero schedule, while `Days` uses `lookup`
  (`internal/api/server/modules/schedule/service.go:441-451`), which reads it as none. The two agree exactly when the
  roster row's schedule exists; a dangling default makes no difference, since a zero schedule works on no weekday.
  `Standings` therefore requires the roster's foreign key and nothing more of the tables.
- Rule B calls someone absent from the very end of the grace, while a check-in counts as late only a whole minute after
  it; within that minute one who was listed absent still checks in on time.
- The one-day-early bound of `Staff` is both enough and needed.
- A check-out may come between two approved corrections, so a correction continues its predecessor's check-in always and
  its check-out only where the predecessor left one.

## Model

| member | source | states |
|---|---|---|
| Leave.AcceptedFilingHasOneYear | internal/api/server/modules/leave/validation.go:43-63 | a filing accepted under a quota type lies whole in one calendar year, the one it is charged to, and never in a closed one |
| Leave.StoredRequestsAreWithinLimits | internal/api/server/modules/leave/validation.go:14-63 | over every run each stored request, whatever became of it, is within the range and working-day limits of its type and has the attachment it needs, and every date of one under a quota type falls in the year it is charged to |
| Leave.HeldIsContributed | internal/api/server/modules/leave/repository.go:322-338 | what the balance query sums for a person, type and year is exactly the working days of their live requests charged to that key |
| Leave.SettlingOnlyReleases | internal/api/server/modules/leave/repository.go:293-304 | a decision or cancellation written without any lock never raises what any key is charged |
| Leave.InsertKeepsCall | internal/api/server/modules/leave/repository.go:237-257 | an insert never invalidates a balance another call has read: whoever else has read one holds another user's lock, or charges another type |
| Leave.StepKeepsSafe | internal/api/server/modules/leave/repository.go:237-257 | every step of every call keeps each quota key within its allowance, and every balance read under a lock an upper bound until its insert |
| Leave.QuotaIsNeverExceeded | internal/api/server/modules/leave/service.go:97-107 | in every interleaving of lock, read, insert, cancel, decide and settle steps, pending plus approved days of a person, quota type and year stay within the person's quota plus carried-over days, or without those the type's quota |
| Leave.RowsEvolve | internal/api/server/modules/leave/repository.go:293-304 | one step only appends requests or moves one along pending to approved, rejected or cancelled, or approved to cancelled, and never changes what was filed |
| Leave.RunEvolves | internal/api/server/modules/leave/repository.go:293-304 | so does every run, from any state a run can be in |
| Leave.NewSettlingIsFair | internal/api/server/modules/leave/service.go:140-195 | what a cancellation or decision sets out to write is a legal move for its actor when it reads the request |
| Leave.EveryMoveIsFair | internal/api/server/modules/leave/service.go:140-195 | over every run, with read and compare-and-set apart, no owner cancels an approved leave that had started at the check, and only someone else decides, and only what is pending |
| Leave.RemainingIsAllowanceLessFiledPlusReleased | internal/api/server/modules/leave/repository.go:84-86 | over every run, remaining days equal allowance less all days filed plus all days released by rejection or cancellation |
| Leave.BalanceIsItsHistory | internal/api/server/modules/leave/repository.go:322-338 | over every run the used and the pending days of a balance are each the days that entered that status less the days that left it |
| Leave.RunKeepsLocksHeld | internal/api/server/modules/leave/repository.go:237-257 | over every run a user's row is locked only by a call that is filing for that very user: nobody is locked out for good by a call that has ended |
| Leave.AStepChargesOneKey | internal/api/server/modules/leave/repository.go:322-338 | one step changes what at most one person, type and year is charged: other leave types are untouched |
| Leave.NobodyIsOnTwoLeavesAtOnce | internal/api/server/modules/leave/repository.go:356-371 | under the exclusion constraint no run leaves a person two live requests sharing a date |
| LeaveStore.CountWorking | internal/api/server/modules/leave/service.go:66-71 | the loop counts the dates that work |
| LeaveStore.FilingAlone | internal/api/server/modules/leave/repository.go:237-257 | a filing nothing interferes with is stored as it was filed, pending or approved at once as its type says, exactly when it fits its type's limits, what remains of a quota covers it and its dates are free |
| LeaveStore.DecisionAlone | internal/api/server/modules/leave/service.go:163-195 | a decision nothing interferes with leaves the request approved when told to approve and rejected otherwise, naming the decider and changing nothing else, exactly when it is pending and the caller a supervisor or above who reaches the owner and is not the owner |
| LeaveStore.CancellationAlone | internal/api/server/modules/leave/service.go:140-160 | a cancellation nothing interferes with takes back exactly a pending request, or an approved one that has not started, of one's own, or any live one of someone else for hr_admin |
| LeaveStore.Store.Request | internal/api/server/modules/leave/service.go:49-95 | refuses exactly what the filing rules refuse, and otherwise starts a call holding a pending or auto-approved request |
| LeaveStore.Store.LockUser | internal/api/server/modules/leave/repository.go:240-244 | takes the user's row exactly when no other call holds it |
| LeaveStore.Store.ReadBalance | internal/api/server/modules/leave/repository.go:246-250 | reads the allowance less everything charged at that moment |
| LeaveStore.Store.Insert | internal/api/server/modules/leave/repository.go:251-256 | stores the request or refuses: more days than remain is invalid, a clash is a conflict; either way the lock goes and a refusal leaves the rows alone |
| LeaveStore.Store.Cancel | internal/api/server/modules/leave/service.go:140-160 | refuses exactly what may not be cancelled and otherwise remembers the request, the status read and the caller |
| LeaveStore.Store.Decide | internal/api/server/modules/leave/service.go:163-195 | refused exactly unless a supervisor or above decides who reaches the owner and is not the owner, and remembers approved to approve and rejected to reject |
| LeaveStore.Store.Settle | internal/api/server/modules/leave/repository.go:293-304 | writes status and actor onto one row exactly when it is still in the status read, and is a conflict without change otherwise |
| Hierarchy.Subtree | internal/api/server/modules/user/repository.go:104-109 | the cycle-detecting recursive query ends on every finite manager graph, loops included, with exactly the live users below the top through live users |
| Hierarchy.NextRound | internal/api/server/modules/user/repository.go:104-109 | each round of the query adds exactly the rows whose path is one longer, each loopless but for its last id |
| Hierarchy.JoinIsComplete | internal/api/server/modules/user/repository.go:104-109 | no loopless path is lost by joining only the last round's rows and stopping at marked ones |
| Hierarchy.DistinctFits | internal/api/server/modules/user/repository.go:102-108 | a path that repeats no id is no longer than there are users: why the query ends |
| Hierarchy.ShortestPath | internal/api/server/modules/user/repository.go:102-109 | whoever is below is reached by a path visiting nobody twice, so stopping at cycles loses nobody |
| Hierarchy.InSubtree | internal/api/server/modules/user/repository.go:121-127 | answers whether one user is below another |
| Hierarchy.Reach | internal/api/server/modules/user/service.go:338-354 | rule D: oneself, anyone below a supervisor, anyone for hr_admin |
| Hierarchy.BelowIsTransitive | internal/api/server/modules/user/repository.go:102-109 | being below composes |
| Directory.HiredIsValid | internal/api/server/modules/user/service.go:311-335 | a new user under a manager who passes the check keeps the graph of live users well-founded |
| Directory.MovedIsValid | internal/api/server/modules/user/service.go:311-335 | so does moving someone under a manager who passes the check: the check refuses every loop |
| Directory.RemovedIsValid | internal/api/server/modules/user/repository.go:183-204 | so does removing someone and moving their reports up |
| Directory.HierarchyStaysSound | internal/api/server/modules/user/service.go:311-335 | from a company without users, every sequence of create, replace, delete and role changes leaves nobody above themselves and every manager live |
| Directory.ReachIsOneWay | internal/api/server/modules/user/service.go:338-354 | no such sequence lets two people without an admin's role reach each other |
| Directory.RemovedKeepsEveryoneElse | internal/api/server/modules/user/repository.go:180-204 | a removal leaves "is above" unchanged, both ways, for every remaining pair |
| Directory.RemovedIsOut | internal/api/server/modules/user/repository.go:183-204 | and nobody is above or below the one removed |
| Directory.MovedChangesTheBranchOnly | internal/api/server/modules/user/repository.go:135-158 | a move leaves everyone outside the moved branch as they were, and puts whoever moved below exactly the new manager and those above |
| Directory.MovedTakesTheBranchAlong | internal/api/server/modules/user/repository.go:135-158 | and leaves above everyone in the moved branch exactly whoever was between, the one who moved, and that one's new line |
| Directory.LosesTheLastExactlyWhen | internal/api/server/modules/user/service.go:186-196 | an edit leaves nobody in charge exactly when a caller whose claims say super_admin removes, disables or demotes the only active super_admin and is not that one |
| Directory.SomeoneStaysInCharge | internal/api/server/modules/user/service.go:186-196 | so no sequence of edits by callers who are what their claims say leaves the company without an active super_admin |
| Directory.StaleClaimsLoseTheLast | internal/api/server/modules/user/service.go:204-228 | an input where claims outlive the role: two super_admins demote each other |
| Directory.Repository.CheckManagerFor | internal/api/server/modules/user/service.go:311-335 | refuses exactly oneself, someone not live, and someone below |
| Directory.Repository.Create | internal/api/server/modules/user/service.go:76-123 | stores a live employee under that manager, or refuses, exactly when the role or the manager does not allow it, and changes nothing |
| Directory.Repository.Replace | internal/api/server/modules/user/service.go:127-176 | sets manager and activity of exactly one user, and exactly when the caller's role, the target and the manager allow it, with the error for the first that does not |
| Directory.Repository.ChangeRole | internal/api/server/modules/user/service.go:204-228 | only super_admin, never on oneself, and only a known role |
| Directory.Repository.Delete | internal/api/server/modules/user/service.go:180-200 | removes exactly a live user of no higher role, never oneself |
| Directory.Repository.SoftDelete | internal/api/server/modules/user/repository.go:183-204 | the two updates together mark the leaver and reparent exactly their live reports |
| Limiter.AtMost100ReachThePassword | internal/api/server/modules/auth/service.go:39-54 | however the two counts and the check of any number of logins interleave, and from any number of IPs, of those counted on an email in one window exactly the first hundred reach the password check |
| Limiter.OneIpTakesItsShare | internal/api/server/modules/auth/service.go:39-54 | in every interleaving one IP that never succeeds contributes to one email window at most 10 * ceil((60 min + gap) / 15 min) + 9 counted attempts, gap being the longest any of its attempts took between its two counts |
| Limiter.OneIpCannotExhaustAnEmail | internal/api/server/modules/auth/constant.go:17-20 | so at most 49 without a gap, 59 within 15 minutes and 99 within 75 minutes |
| Limiter.ShareIsReached | internal/api/server/modules/auth/service.go:123-136 | the bound is met: for every number of IP windows from five up a run of one IP that never succeeds contributes exactly that many, its attempts waiting between their counts |
| Limiter.NoGapGives49 | internal/api/server/modules/auth/service.go:39-54 | 49 is met without any gap: an hour of the email ends while a window of the IP is under way |
| Limiter.TwoMicrosecondsGive59 | internal/api/server/modules/auth/service.go:39-54 | an input with 59 where each attempt waits two microseconds at most: 49 is no bound once any time may pass |
| Limiter.OverAnHourAndAQuarterExhausts | internal/api/server/modules/auth/service.go:39-54 | an input where one IP alone uses up the email's 100, its attempts waiting two microseconds over 75 minutes |
| Limiter.ShareBoundGrows | internal/api/server/modules/auth/service.go:125-136 | one more attempt within the IP's limit raises its bound by one |
| Limiter.ShareBoundCap | internal/api/server/modules/auth/constant.go:17-20 | and the bound stays below what the span allows while it lasts |
| Limiter.CountedInsideItsWindow | internal/api/server/modules/auth/service.go:123-136 | in every interleaving each counted attempt lies inside the hour of its window: counting never extends one |
| Limiter.WindowsDoNotOverlap | internal/api/server/modules/auth/service.go:123-136 | two windows of one email are the same or an hour or more apart |
| Limiter.Service.CountAttempt | internal/api/server/modules/auth/service.go:125-136 | opens a window or counts in the one open, leaving its end where it was |
| Limiter.Service.BeginLogin | internal/api/server/modules/auth/service.go:35-53 | the first step: refused exactly when the IP's window is open and holds ten already |
| Limiter.Service.GoOn | internal/api/server/modules/auth/service.go:39-54 | the second step, at a time of its own: refused exactly when the email's window is open and holds a hundred already |
| Limiter.Service.CheckPassword | internal/api/server/modules/auth/service.go:56-72 | the last step: a match frees the IP's key and nothing else |
| Limiter.Service.Login | internal/api/server/modules/auth/service.go:35-81 | undisturbed, the three steps one after another: refused by exactly the count that is over, logged in only on a match |
| Sessions.OneLiveTokenPerLogin | internal/api/server/modules/auth/repository.go:63-102 | over every run, the tokens of one login share owner and expiry and at most one is unrevoked |
| Sessions.TokensAreSingleUse | internal/api/server/modules/auth/repository.go:63-102 | over every run each token is traded in at most once, and the tokens of a login form one chain that never forks |
| Sessions.StepKeepsHeld | internal/api/server/modules/auth/repository.go:69-78 | the conditional update is a lock: until its trade commits a token taken by it stays usable and no other trade takes it |
| Sessions.RefreshSucceedsWhen | internal/api/server/modules/auth/repository.go:65-102 | in every reachable state a trade begins exactly on a token stored, unrevoked, unexpired and held by nobody, and commits exactly when its owner is active by then and the new hash unused, changing only the two tokens |
| Sessions.NoLoginOutlivesThirtyDays | internal/api/server/modules/auth/repository.go:74-96 | over every run each trade under way, and each that could begin, is within thirty days of the sign-in its token descends from, however many trades lie between |
| Sessions.TradedStaysDead | internal/api/server/modules/auth/repository.go:65-102 | a token traded in is never usable again, whatever happens after |
| Sessions.OverIsForGood | internal/api/server/modules/auth/repository.go:65-117 | once no token of a login is unrevoked, no later run makes any hash of that login usable, whatever ended it |
| Sessions.TheftEndsASessionExactlyWhen | internal/api/server/modules/auth/repository.go:65-117 | whatever comes between the start of the revoking update and its commit, a detected theft ends a login of the owner exactly when no token drawn since is left unrevoked |
| Sessions.TheftEndsEverySession | internal/api/server/modules/auth/repository.go:104-117 | so it ends every login of the owner for which no trade committed in between |
| Sessions.ATradeUnderWaySurvives | internal/api/server/modules/auth/repository.go:74-96 | otherwise it need not: a revocation waits for a trade under way and then misses the token the trade has drawn, which stays usable |
| Sessions.ASessionOutlivesTheft | internal/api/server/modules/auth/repository.go:65-117 | from nothing to such a session |
| Sessions.RevokingTheLastEndsIt | internal/api/server/modules/auth/repository.go:88-122 | so does signing out with an unrevoked token, or a trade that finds its owner no longer active |
| Sessions.ReplayWithinGrace | internal/api/server/modules/auth/repository.go:104-117 | a replay within the grace is refused and changes nothing |
| Sessions.ReplayPastGrace | internal/api/server/modules/auth/repository.go:104-117 | one more than thirty seconds after the revocation, with none of the owner's tokens held by a trade, leaves them all revoked and touches nobody else's |
| Sessions.Repository.CreateRefreshToken | internal/api/server/modules/auth/repository.go:53-61 | stores the login's token for thirty days and drops exactly that user's expired ones, waiting for one that is held |
| Sessions.Repository.BeginRotate | internal/api/server/modules/auth/repository.go:69-86 | takes a token exactly when it is stored, unrevoked and unexpired; starts a revocation of the owner's unrevoked tokens exactly when it was revoked over thirty seconds before; otherwise refuses and changes nothing |
| Sessions.Repository.EndRotate | internal/api/server/modules/auth/repository.go:88-96 | trades for a token of the same owner and expiry, finds the owner inactive, or rolls the whole trade back on a hash already drawn |
| Sessions.Repository.RotateRefreshToken | internal/api/server/modules/auth/repository.go:65-102 | undisturbed, succeeds exactly on a token stored, unrevoked and unexpired of an active owner with an unused next hash, and detects reuse exactly on one revoked over thirty seconds before |
| Sessions.Repository.SeeReused | internal/api/server/modules/auth/repository.go:105-114 | reuse is a token revoked longer ago than the grace |
| Sessions.Repository.EndRevoke | internal/api/server/modules/auth/repository.go:115-116 | revokes every token seen and no other, once none of them is held |
| Sessions.Repository.RevokeRefreshToken | internal/api/server/modules/auth/repository.go:119-122 | waits for a trade under way; otherwise revokes that token and no other, and its first revocation time stands |
| Schedule.WorkingCarriesHours | internal/api/server/modules/schedule/resolve.go:27-49 | a day works exactly when it has planned hours no observed holiday turns off, exactly then carries them, and its reason says which |
| Schedule.RuleAByTheTables | internal/api/server/modules/schedule/resolve.go:27-58 | off the tables alone, a person works some hours on a date exactly when the roster row names them, or there is no row, they are the person's own and the date's weekday, Monday being 1, is among their workdays, and no named holiday they observe falls on it |
| Schedule.AWeekHasItsWorkdays | internal/api/server/modules/schedule/resolve.go:51-58 | in any seven dates the roster and observed holidays leave alone, a person works on exactly as many as their own schedule lists workdays |
| Schedule.OneMoreWeekday | internal/api/server/modules/schedule/resolve.go:51-58 | each weekday of the list is one date of the seven, and different weekdays are different dates |
| Schedule.IndexByDate | internal/api/server/modules/schedule/service.go:74-84 | the map filled row by row answers every date as the rows do, and every schedule named is asked for |
| Schedule.IndexHolidays | internal/api/server/modules/schedule/service.go:90-93 | the map names the holiday of every date |
| Schedule.IndexedDayIsRuleA | internal/api/server/modules/schedule/service.go:55-105 | loading only the span's rows and the schedules they name loses nothing for any date of it |
| Schedule.ResolveDates | internal/api/server/modules/schedule/service.go:95-103 | the loop lists every date of the span once, in order |
| Schedule.Days | internal/api/server/modules/schedule/service.go:55-105 | one day per date of the span in order, each rule A over the whole tables; refused exactly for a bad span or someone gone |
| Shift.MinutesIsLength | internal/api/server/modules/attendance/shift.go:89-91 | a placed shift runs exactly length(start, end) minutes, wrap included, between 1 and 1440 |
| Shift.PlacedByTheClock | internal/api/server/modules/attendance/shift.go:18-33 | a shift starts at its start time on its date in the zone, and ends at its end time within a day after |
| Shift.LateExactlyWhen | internal/api/server/modules/attendance/shift.go:71-77 | a check-in is late exactly from a whole minute past the grace on |
| Shift.EarlyExactlyWhen | internal/api/server/modules/attendance/shift.go:79-86 | a check-out is early exactly with a whole minute or more left |
| Shift.MinutesAreExact | internal/api/server/modules/attendance/shift.go:71-86 | late minutes are exactly the whole minutes past the grace, none before and at most the shift; early minutes exactly the whole minutes left, the whole shift before its start and none after its end |
| Shift.LatePlusEarlyFitsTheShift | internal/api/server/modules/attendance/shift.go:72-91 | late and early-leave minutes of a check-in and a later check-out never exceed the shift together |
| Shift.MinutesFollowTheClock | internal/api/server/modules/attendance/shift.go:72-86 | checking in later is never less late, leaving later never earlier |
| Shift.OnlyThreeDaysCanHold | internal/api/server/modules/attendance/shift.go:35-51 | only yesterday's, today's or tomorrow's window can hold a moment |
| Shift.HoldsByTheClock | internal/api/server/modules/attendance/shift.go:44-47 | a day holds a moment exactly from four hours before its start time to its end time on the clock of the zone |
| Shift.NearestByTheClock | internal/api/server/modules/attendance/shift.go:48-50 | no other date that holds a moment starts nearer to it than the one it counts for |
| Shift.PickShift | internal/api/server/modules/attendance/shift.go:38-62 | over those three days, returns the nearest start, earliest on ties, among every date of the roster whose window holds the moment; else today, or refuses |
| Attendance.StepKeepsDerived | internal/api/server/modules/attendance/service.go:86-117 | every check-in, check-out read, conditional write and approval keeps all derived columns right, those in flight included |
| Attendance.StoredMinutesAreNeverStale | internal/api/server/modules/attendance/correction.go:125-145 | in every interleaving, stored late and early minutes are exactly the whole minutes that work date, kept schedule and current times give, and fit the shift |
| Attendance.TrailGrows | internal/api/server/modules/attendance/repository.go:314-340 | an approval appends itself to the history: it records what it replaced and leaves what it stores |
| Attendance.TrailIgnoresTheRest | internal/api/server/modules/attendance/repository.go:357-368 | filing, rejecting or withdrawing leaves every history alone |
| Attendance.CorrectionsAreTheirOwnAuditTrail | internal/api/server/modules/attendance/repository.go:297-343 | the approved corrections of a work date form an unbroken chain from the check-in made, or nothing, to what is stored |
| Attendance.RunKeeps | internal/api/server/modules/attendance/repository.go:297-343 | over every run work dates keep their hours, a check-out once set stays set, and a settled correction never changes or is settled by its own employee |
| Attendance.RunKeepsOnePending | internal/api/server/modules/attendance/repository.go:261-264 | a work date never has two corrections pending |
| Attendance.RunKeepsClaims | internal/api/server/modules/attendance/validation.go:50-82 | over every run no correction names a time more than twelve hours from its work date's midnights, no time at all, or a check-out before its check-in |
| Attendance.CheckOutsAreInTime | internal/api/server/modules/attendance/service.go:86-117 | over every run a check-out no correction has touched is past its check-in, at most a day after it and at most eight hours past the shift's end |
| AttendanceStore.RosterOfIsRoster | internal/api/server/modules/schedule/service.go:53-105 | rule A over every date is a roster in the sense picking a shift needs |
| AttendanceStore.CheckInIsLateExactlyWhen | internal/api/server/modules/attendance/service.go:70-79 | a check-in just made is late exactly on a date rule A works, from a whole minute past the grace of the hours it gives there |
| AttendanceStore.ApprovableIsApproved | internal/api/server/modules/attendance/correction.go:93-144 | an approval goes through exactly for a supervisor or above who reaches the employee and is not them, on a pending correction whose times hold together and whose date has an attendance or an employee to take hours from |
| AttendanceStore.ApprovalMeasures | internal/api/server/modules/attendance/correction.go:125-144 | it stores the proposed times over those held, measured exactly against the schedule kept or else rule A's, changes no other row, and names who decided and the times replaced |
| AttendanceStore.Store.CheckIn | internal/api/server/modules/attendance/service.go:52-84 | opens the attendance of the nearest shift over all dates with that shift's schedule and exact late minutes, no check-out and nothing early; refused, changing nothing, exactly when the person is gone, today has not opened and nothing else holds the moment, or that date has its check-in |
| AttendanceStore.Store.OpenCheckIn | internal/api/server/modules/attendance/repository.go:121-129 | the latest open check-in of the last day, or none exactly when there is none |
| AttendanceStore.Store.BeginCheckOut | internal/api/server/modules/attendance/service.go:88-112 | reads a closable open check-in and remembers exactly the whole minutes left of its shift; refused only without an open one, or with one among the latest past its closing |
| AttendanceStore.Store.EndCheckOut | internal/api/server/modules/attendance/repository.go:132-153 | writes exactly when the row is still open and the check-out after its check-in |
| AttendanceStore.Store.RequestCorrection | internal/api/server/modules/attendance/correction.go:25-61 | files a pending correction, for oneself or as hr_admin, or refuses exactly what the proposal rules, the times or a pending one forbid |
| AttendanceStore.Store.ApproveCorrection | internal/api/server/modules/attendance/repository.go:300-343 | writes times, minutes, snapshot and status together; any refusal leaves attendance and correction as they were |
| AttendanceStore.Store.SettleCorrection | internal/api/server/modules/attendance/correction.go:77-122 | withdraws exactly a pending correction for its employee or filer, rejects exactly one for a supervisor above who is not them, and touches no attendance |
| AttendanceStore.Store.HoursFor | internal/api/server/modules/attendance/correction.go:151-164 | without an attendance the hours are rule A's for that one date, refused for nobody employed |
| AttendanceStore.Store.DecideCorrection | internal/api/server/modules/attendance/correction.go:93-145 | a verdict to approve stores what was asked and one to reject stores nothing, each exactly from someone who may decide |
| WhosIn.StandingOnlyTurnsAbsent | internal/api/server/modules/attendance/whosin.go:151-164 | as time passes not_yet can only turn into absent and nothing else moves |
| WhosIn.NotYetIsNotLate | internal/api/server/modules/attendance/whosin.go:151-164 | whoever is not_yet and checks in at that moment is 0 minutes late; absent and yet not late is exactly the first minute after the grace |
| WhosIn.StandingFollowsRuleA | internal/api/server/modules/attendance/whosin.go:149-164 | the statuses of a day without attendance or leave are rule A's reasons: not_yet or absent exactly when it works, holiday when observed, off exactly otherwise |
| WhosIn.RuleBByTheTables | internal/api/server/modules/attendance/whosin.go:118-164 | off the tables and whatever requests any run of leave led to: late or present by the attendance, else on leave exactly with one approved request over the date, else absent from the end of rule A's grace on and not_yet before, else a holiday or off |
| WhosIn.AwayIsApproved | internal/api/server/modules/attendance/repository.go:175-185 | the leaves read cover a person and date exactly when an approved request does |
| WhosIn.LateIsByTheClock | internal/api/server/modules/attendance/whosin.go:129-133 | after any interleaving of check-ins, check-outs and corrections a stored attendance stands as late exactly when its check-in is a whole minute past the grace of the hours it kept, and as present otherwise, leave or not |
| WhosIn.SlotsExact | internal/api/server/modules/attendance/whosin.go:118-146 | one entry per person and date employed and no other, by people then by date |
| WhosIn.StaffDropsNobody | internal/api/server/modules/attendance/repository.go:241-247 | the prefilter keeps everyone employed on some date of the span, in any zone within a day of UTC |
| WhosIn.TheDayEarlyIsNeeded | internal/api/server/modules/attendance/repository.go:244-246 | without the day early it would drop someone |
| WhosIn.OnlyADanglingRosterDiffers | internal/api/server/modules/attendance/whosin.go:183-189 | the batch's lookup and rule A's give the same day exactly when the roster row's schedule exists |
| WhosIn.IndexAttended | internal/api/server/modules/attendance/whosin.go:92-95 | the map answers every person and date as the rows do |
| WhosIn.IndexLeaves | internal/api/server/modules/attendance/whosin.go:96-99 | each person's list is their leaves in order |
| WhosIn.IndexRoster | internal/api/server/modules/attendance/whosin.go:104-109 | the map answers every person and date as the roster does |
| WhosIn.Load | internal/api/server/modules/attendance/whosin.go:75-116 | rows of the span and scope, and every schedule they or the people name |
| WhosIn.IndexedIsRuleB | internal/api/server/modules/attendance/whosin.go:127-142 | for each person and date the batch gives rule B over that person's own rule A day |
| WhosIn.IndexedDatesAnswer | internal/api/server/modules/attendance/whosin.go:121-144 | the entries of one person answer their dates employed, one by one |
| WhosIn.Standings | internal/api/server/modules/attendance/whosin.go:72-147 | the whole batch answers every slot with rule B straight from the tables |
| Report.Totals | internal/api/server/modules/report/service.go:83-104 | one total per person listed, in order, whose counts and worked minutes are the sums over that person's days |
| Report.WorkedIsWholeMinutes | internal/api/server/modules/report/service.go:107-113 | worked minutes are the whole minutes between check-in and check-out |
| Report.TotalsLoseUnderAMinuteADay | internal/api/server/modules/report/service.go:83-113 | a person's total is the time itself to within a minute for each day listed |
| Report.EveryDayHasOneStatus | internal/api/server/modules/report/service.go:90-100 | a person's four counts plus holiday, off and not_yet days are all their listed days |
| Report.TotalsCoverEveryDay | internal/api/server/modules/report/service.go:82-104 | the listed days of the people totalled add up to every day of the report |
| Report.StandingsAreGrouped | internal/api/server/modules/report/service.go:82-86 | the standings come grouped by person, which the fold relies on |
| Report.FilterKeepsGrouped | internal/api/server/modules/report/service.go:58-60 | dropping the other statuses keeps them grouped |
| Report.Attendance | internal/api/server/modules/report/service.go:49-62 | lists exactly the standings with the status asked for, and totals those same days |
| Roster.UpsertedAt | internal/api/server/modules/schedule/repository.go:273-279 | a bulk write sets exactly the slots it names, rows keeping their ids |
| Roster.OneEntryPerPastRow | internal/api/server/modules/schedule/service.go:283-317 | a batch is logged row by row: exactly its rows on a date already past, in order, each with what was found and what was assigned |
| Roster.BatchOrderIsIrrelevant | internal/api/server/modules/schedule/service.go:281-317 | two orders of one batch leave every slot alike |
| Roster.WriteIsAccountedExactlyWhen | internal/api/server/modules/schedule/service.go:187-227 | the log accounts for a write, replaying to what is stored and naming what it replaced, if and only if the row the call read outside its transaction and the row it writes over say the same of the date |
| Roster.HolidayWrites | internal/api/server/modules/schedule/service.go:187-227 | and for a holiday replaying alone stays right exactly when the write puts one on the date, or both rows stood there, or neither, or only the one read and by now nothing does |
| Roster.AssignWrites | internal/api/server/modules/schedule/repository.go:257-303 | for a bulk assign replaying always stays right, and the entries name what they replaced exactly when what was found on the slot is still what is there |
| Roster.UnassignWrites | internal/api/server/modules/schedule/service.go:319-335 | for a removal replaying always stays right, and the entry names what it replaced exactly when the schedule read is the one removed |
| Roster.TheRosterAlwaysReplays | internal/api/server/modules/schedule/service.go:281-359 | in every interleaving, once a date is past, replaying the log over its roster gives the schedule it has |
| Roster.StepIsAccountedExactlyWhen | internal/api/server/modules/schedule/service.go:165-359 | any step, of any call, is accounted for exactly when it is no write that takes or its call had read what it writes over |
| Roster.ThePastIsAudited | internal/api/server/modules/schedule/service.go:165-359 | over every interleaving, once a date is past, the log accounts for its schedule and holiday at every moment of the run if and only if every write that takes finds what its call had read of the date |
| Roster.AnyHistoryIsAudited | internal/api/server/modules/schedule/service.go:165-359 | the same after any history at all up to the day the date was past |
| Roster.UndisturbedIsFresh | internal/api/server/modules/schedule/service.go:187-227 | a condition that needs no look at what was read: it is enough that no write that takes meets another call in flight on a slot or holiday |
| Roster.AnEditInBetweenEscapesTheLog | internal/api/server/modules/schedule/service.go:198-208 | otherwise it is not: an edit that lands between another edit's read and its write leaves a past change unlogged, and the log with a holiday on a date that has none |
| Roster.TwoAssignsBothFindItEmpty | internal/api/server/modules/schedule/repository.go:289-303 | two bulk assigns that find a slot empty lock nothing there and both log that it was |
| Roster.AHolidayTheDateLacks | internal/api/server/modules/schedule/service.go:189-209 | from nothing, in five steps, to a log that keeps a holiday on a date that has none |
| Roster.AnEntryThatIsWrong | internal/api/server/modules/schedule/service.go:283-317 | from nothing, in four steps, to a log whose second entry says of a filled slot that it was empty |
| RosterStore.CheckAssignments | internal/api/server/modules/schedule/validation.go:104-131 | refuses exactly an empty or oversized batch, a missing user or date, and someone assigned twice on a date |
| RosterStore.Store.BeginAssign | internal/api/server/modules/schedule/service.go:283-311 | checks the batch and, for one with a past date, waits for or takes the locks on the rows it will replace |
| RosterStore.Store.LockAssignments | internal/api/server/modules/schedule/repository.go:289-303 | the loop reads exactly the rows present on the batch's slots |
| RosterStore.Store.EndAssign | internal/api/server/modules/schedule/repository.go:260-287 | the loop writes the override and the entries built from the rows read, or waits and changes nothing |
| RosterStore.Store.BeginUnassign | internal/api/server/modules/schedule/service.go:319-333 | reads the row to remove |
| RosterStore.Store.EndUnassign | internal/api/server/modules/schedule/repository.go:314-321 | removes it exactly if that same row is still there, with an entry of what was read exactly if its date was past |
| RosterStore.Store.CreateHoliday | internal/api/server/modules/schedule/service.go:165-185 | adds a holiday exactly as hr_admin, named, dated and on a free date, with an entry exactly when the date is past |
| RosterStore.Store.BeginReplaceHoliday | internal/api/server/modules/schedule/service.go:189-207 | refused exactly for a lower role, no name, no date or no such holiday, and otherwise remembers the holiday as read |
| RosterStore.Store.EndReplaceHoliday | internal/api/server/modules/schedule/repository.go:193-209 | writes over it by id alone, refused exactly on a date taken or a row gone, with an entry exactly when either date is past |
| RosterStore.Store.BeginDeleteHoliday | internal/api/server/modules/schedule/service.go:211-225 | reads the holiday and settles what to log |
| RosterStore.Store.EndDeleteHoliday | internal/api/server/modules/schedule/repository.go:211-218 | removes it by id alone, with an entry of what was read exactly when its date was past |
| Text.SplitOfJoin | internal/api/server/modules/schedule/workdays.go:31-53 | splitting undoes joining when no part holds the separator |
| Text.ParseOfItoa | internal/api/server/modules/schedule/workdays.go:34-51 | parsing undoes printing for every integer in range |
| Codecs.WriteArray | internal/api/server/modules/schedule/workdays.go:44-54 | the loop writes the array literal |
| Codecs.ReadArray | internal/api/server/modules/schedule/workdays.go:14-42 | the loop reads every part or fails at the first that is no int16 |
| Codecs.ArrayRoundTrip | internal/api/server/modules/schedule/workdays.go:14-54 | reading undoes writing for every int16 sequence |
| Codecs.LiteralsAsPostgresWritesThem | internal/api/server/modules/schedule/workdays.go:44-54 | the literal on three examples, character by character |
| Codecs.ParsedClockIsClock | internal/api/server/modules/schedule/clock.go:19-31 | whatever parses is a minute of the day |
| Codecs.ClockRoundTrip | internal/api/server/modules/schedule/clock.go:19-56 | parsing undoes both text forms for every minute of the day |
| Codecs.ClockTextIs | internal/api/server/modules/schedule/clock.go:34-56 | a time is two digits, a colon and two digits, with ":00" after them for the column |
| Codecs.ClockParts | internal/api/server/modules/schedule/clock.go:19-31 | two numbers parted by a colon parse exactly when they are an hour and a minute of the day, seconds or not |
| Codecs.Compact | internal/api/server/modules/schedule/validation.go:61 | drops the repeats of a sorted list and nothing else |
| Codecs.CheckWorkdays | internal/api/server/modules/schedule/validation.go:54-71 | strictly increasing with exactly the input's days, or refused exactly when empty or out of 1..7 |
| Codecs.SameDaysSameList | internal/api/server/modules/schedule/validation.go:51-53 | so two lists of the same days are stored alike |
| Geofence.Locate | internal/api/server/modules/attendance/geofence.go:20-31 | nearest of the offices holding the point, else nearest of all, first on ties, none only without offices |

## Left out

- Leave.QuotaIsNeverExceeded: leave types and quota rows are held fixed, because `SetQuota` may lower a quota below what is already held and `ReplaceType` may give a type one after filings; those two edits and their audit entries are not modelled.
- LeaveStore.Store.LockUser: a wait for another call's lock is an attempt that answers `false` and may be repeated; deadlock and fairness are not modelled.
- LeaveStore.Store.Decide: rule D's answer is a parameter (`Hierarchy.Reach` computes it), as it is for corrections, because the hierarchy may change between the check and the write.
- Hierarchy.Subtree: gives the set of ids; the query may also list an id once more as a marked cycle row, which its callers' `IN` does not see.
- Directory.HierarchyStaysSound: one call after another only; `checkManagerFor` runs outside the write's transaction, so two concurrent moves could form a loop.
- Directory.Repository.Create: email, names, passwords, join dates, departments and default schedules and their checks are not modelled.
- Limiter.Service.Login: the loop over the two limits is unrolled into its two steps, so that other logins can come between; Redis keys are pairs rather than concatenated strings, a key is gone at the very end of its window, and the password check is an oracle. A store that fails is a login that takes no further step.
- Sessions.Repository.CreateRefreshToken: hashes are opaque ids, and a draw is one never drawn or one still stored, since a hash already deleted coming up again is the collision random tokens rule out; the same holds for the next hash in `Sessions.Repository.EndRotate`.
- Sessions.TheftEndsASessionExactlyWhen: signing in and out are one step each that waits for held tokens, and a revocation takes the locks on what it saw when it commits; deadlock is not modelled.
- Attendance.StoredMinutesAreNeverStale: work schedules are held fixed, because `ReplaceSchedule` rewrites hours in place.
- AttendanceStore.Store.ApproveCorrection: holds both rows for its whole transaction, so it is one step; when no attendance exists there is no row to lock, and a check-in landing meanwhile makes the approval fail without change, which is the refusal already possible.
- AttendanceStore.Store.BeginCheckOut: rows of one person with the same check-in moment are not told apart, as the query's order leaves them; the exact refusal is for the latest when it is alone.
- AttendanceStore.Store.CheckIn: the photo and its one-use key, the location evidence and the enforced geofence are not modelled; `Geofence.Locate` stands alone.
- AttendanceStore.Store.RequestCorrection: reading the attendance and inserting are one step.
- Directory.SomeoneStaysInCharge: starts from a company that has an active super_admin; how the first one comes about is not modelled.
- Roster.ThePastIsAudited: `today` is the date each call looked at, and a call in flight across midnight is one that looked too early: the statement starts when none of those is left.
- RosterStore.Store.BeginAssign: the rows of a batch are read and locked in one instant, and a wait is an attempt that answers so and may be repeated; deadlock is not modelled.
- RosterStore.Store.EndAssign: a foreign key that fails rolls the call back, which is an abort; notes are not modelled, and entries hold values where the log holds JSON.
- RosterStore.Store.BeginUnassign: names the row by its slot, where the service names it by its id.
- WhosIn.Standings: the moment is a parameter and the queries are functions of the tables at one time; who is listed (`People`, the filters of `Staff`) comes in as `people`.
- Report.Attendance: role and span checks, the CSV and the PDF are not modelled.
- Codecs.CheckWorkdays: the library sort is a function with the same result.
- Geofence.Locate: the distance is any function; haversine, floating point and an infinite or undefined distance are not modelled.
- Daylight saving and real zone databases: one fixed offset.
- HTTP handlers, generated API code, middleware, storage and uploads, migrations, offices, departments and schedule editing: plumbing or simple edits with no further property.
- String lengths, notes, reasons and break minutes: checks on one field each.
