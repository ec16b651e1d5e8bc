# Verified model of a remote monitoring and management system

A Dafny model of the stateful core of an RMM server and its agent, with proofs over whole runs.
SQL statements are atomic guarded updates on tables; a tenant transaction is one atomic step;
goroutines, workers, the network and crashes are state machines whose steps interleave freely.
Where the source changes things step by step (stores, loops, slices, files) the model is a class
or a method proved against a specification function, and the properties are proved about that.

| component | files |
|---|---|
| command delivery: job table, gateway, agent journal, end to end | `Commands`, `JobTable`, `AgentJournal`, `CommandDelivery`, `Gateway` |
| crash-safe signed self-update, its watchdog and concurrent offers | `SelfUpdate`, `Updater`, `Watchdog`, `UpdateRace` |
| alert engine: policy merge, evaluation, reconciliation, outbox | `Policies`, `AlertRules`, `AlertEngine`, `AlertWorker`, `Outbox` |
| cron schedules and app deployment | `Scheduler`, `Deployments` |
| rate limiter, connection registry, authorization | `RateLimiter`, `Registry`, `Authorization` |
| shared vocabulary | `JsonNames`, `Identifiers`, `Wrappers` |

`dafny verify dfyconfig.toml` checks everything.

## What is proved, and where the code falls short of its own documentation

- Exactly-once execution is not what the code gives: proto/rmm/v1/agent.proto:92-94 asks the agent to
  persist a command id before running it, agent/internal/conn/conn.go:400-407 records it afterwards.
  `RunsAreBounded` gives the bound that does hold, `RunsAfterDurableIff` the exact condition under
  which a journalled command runs once more, `OverlapRunsTwice` a run in which it does.
- The comment at conn.go:400-402 promises a duplicate send after a crash between recording and
  replying.  The code sends nothing at all (`CrashAfterRecordingSilences`), and such a job is closed
  by the sweep alone (`UnansweredJobIsOnlySwept`).
- "Succeeded" means executed with exit code 0 for exactly the specs the agent can parse
  (`SuccessAlwaysExecutedIff`).  Scripts packed by the gateway and package specs written by the
  API always parse (the two round trips).
- A crash between the two renames of Apply leaves the executable only at `.prev`; the invariant is
  "path or `.prev`".  Apply is safe exactly when it starts on a complete executable, confirmation
  exactly when there is one or no marker is pending (`ApplyIsSafeIff`, `ConfirmIsSafeIff`), two
  Applies at once exactly when `.prev` is never deleted while the executable is away
  (`PairSurvivesIff`); the ways to lose the last executable are given as runs.
- MarkDeliveryError has no status guard: a late error undoes "sent".  `SettledForeverIff` says exactly
  when a settled delivery stays settled; with one claim at a time the documented retry budget holds.
  The backoff cast overflows at the 32nd claim of a row without any outcome, and that one row
  then fails the claim statement for the whole tenant (`ClaimTakesIff`, `StuckRowStopsTheTenant`).
- A schedule update computes its next run before its transaction starts; `UpdateNeverReplaysIff` and
  `UpdateNeverRepeatsIff` are the exact conditions for no replay and no repetition.
- Two workers reconciling different rules at the same moment can both create an install job, exactly
  when both check before either commits (`OverlappingPassesPileUpIff`); serial passes cannot.
- The rate limiter reads its clock before taking its lock.  With ordered readings the bound holds at
  every instant; in any order it holds exactly for a limit of at most one (`BoundInAnyOrderIff`).
- The write path validates decoded rules but stores the bytes.  The dashboard tells the truth exactly
  where `DashboardAgreesIff` says; an explicit null, a key in another case and two spellings of a
  key are the ways it does not.
- A script killed at its deadline is reported as failed, a package run as timed out, because the two
  runners look at exit status and deadline in opposite orders.

## Model

| member | source | states |
|---|---|---|
| `RateLimiter.Compact` | `server/internal/api/httputil.go:90-95` | the in-place filter leaves exactly the hits after the cutoff, in order, at the front of the slice; no unread hit is overwritten |
| `RateLimiter.NeverOverLimit` | `server/internal/api/httputil.go:85-102` | with a clock that never goes back, at most `limit` admitted calls lie in (t-window, t], counted one by one, at every instant t |
| `RateLimiter.DeniedExactlyAtLimit` | `server/internal/api/httputil.go:96-99` | the next call is refused exactly when that count has reached the limit, and else becomes part of the history |
| `RateLimiter.AfterIsInWindow` | `server/internal/api/httputil.go:88-95` | what the filter keeps is the admitted calls of the window, counted independently |
| `RateLimiter.PruneAgrees` | `server/internal/api/httputil.go:90-95` | pruning and then recording a hit leaves a list that answers every later cutoff as the full history does |
| `RateLimiter.OrderedCallsAgree` | `server/internal/api/httputil.go:85-102` | with a clock that never goes back the pruned list decides like the complete history |
| `RateLimiter.BoundInAnyOrderIff` | `server/internal/api/httputil.go:86-88` | the clock is read before the lock: over all orders of entry the bound holds iff the limit is at most one (or the window empty) |
| `RateLimiter.Limiter.Allow` | `server/internal/api/httputil.go:85-102` | the method answers and records what the history of its own key says, leaves every other key's history alone, and keeps every key's history within the limit at every instant |
| `RateLimiter.Limiter.Step` | `server/internal/api/httputil.go:89-100` | compaction, decision and append on one key's slice agree with the key's full history |
| `RateLimiter.Limiter.Store` | `server/internal/api/httputil.go:97-100` | writing a slice back keeps every key backed by its own array |
| `RateLimiter.Limiter.Append` | `server/internal/api/httputil.go:100-100` | append in place or into a larger array adds one element and keeps the rest |
| `Registry.TableIsNewest` | `server/internal/gateway/registry.go:32-49` | over every interleaving a device maps to its most recently added connection, or to nothing once that one's cleanup ran |
| `Registry.StaleRemoveIsHarmless` | `server/internal/gateway/registry.go:43-49` | an old connection's deferred cleanup never drops a newer one |
| `Registry.DisplacedAreClosed` | `server/internal/gateway/registry.go:32-40` | every connection an add displaced is closed once that add has returned |
| `Registry.SupersededWereDisplaced` | `server/internal/gateway/registry.go:32-49` | a connection that is no longer the newest was displaced by a later add or had cleaned up itself |
| `Registry.ClosedHasACause` | `server/internal/gateway/registry.go:32-79` | a connection is closed exactly if its peer dropped it, a kick hit it or an add that displaced it has returned |
| `Registry.OneConnectionsLife` | `server/internal/gateway/gateway.go:70-74` | undisturbed, an add takes the entry over and closes the displaced connection, and the cleanup empties the entry again |
| `Registry.KickClosesTheNewest` | `server/internal/gateway/registry.go:71-79` | a kick closes the connection that was the newest of the device at its lookup, whatever happens before its Close, and otherwise nothing |
| `Registry.RunKeepsInv` | `server/internal/gateway/gateway.go:70-74` | the invariant behind the three, over add, deferred remove, Kick and dropped connections in any order |
| `Registry.ConnTable.Swap` | `server/internal/gateway/registry.go:32-40` | the locked half of add returns the device's most recently added connection, unless that one's cleanup has run, and extends the legal history by one add |
| `Registry.ConnTable.Remove` | `server/internal/gateway/registry.go:43-49` | the cleanup takes out this connection and no other; if it is not the newest the table is unchanged |
| `Registry.ConnTable.Get` | `server/internal/gateway/registry.go:61-79` | Send and Kick find the newest connection of the device, or nothing once it cleaned up |
| `Authorization.RequireMeansCovered` | `server/internal/auth/authz.go:81-105` | with a resolver that does not fail, the loop over the grants is the question whether some grant covers the target |
| `Authorization.RequireSpelledOut` | `server/internal/api/org_handlers.go:20-25` | Require succeeds iff the permission is held tenant-wide, at exactly the target, or, for a site, at the customer the sites table gives it; stated on the table, without the resolver |
| `Authorization.SiteGrantsReachTheirSites` | `server/internal/auth/authz.go:88-103` | grants on sites reach exactly those sites |
| `Authorization.RequireIsFirstDecision` | `server/internal/auth/authz.go:88-103` | with failing queries Require succeeds iff some grant decides for it and every earlier one leaves the question open |
| `Authorization.FailingResolverNeverAllowsMore` | `server/internal/auth/authz.go:96-101` | failing closed: a truthful resolver that sometimes fails never allows more |
| `Authorization.BearerReach` | `server/internal/api/tokens_handlers.go:98-121` | a tenant token reaches everything, a customer token that customer and its sites, a site token that site, each for its own permissions only |
| `Authorization.MintingSpelledOut` | `server/internal/api/tokens_handlers.go:53-121` | a token may be minted iff it is well-formed, the minter holds tokens.manage tenant-wide and every permission of the token where the token will hold it |
| `Authorization.CoverageReachesInside` | `server/internal/api/org_handlers.go:20-25` | coverage of a scope extends to everything that scope contains |
| `Authorization.MintingNeverWidens` | `server/internal/api/tokens_handlers.go:98-121` | whatever a minted token may do, its minter may do, at every target |
| `Authorization.ChainNeverWidens` | `server/internal/api/tokens_handlers.go:53-137` | along any chain of tokens minted from tokens, everything Require allows a token it allows its minter and the user at the root |
| `Authorization.MintersAreTenantWide` | `server/internal/api/tokens_handlers.go:98-121` | only the last token of a chain can be narrower than the tenant |
| `Authorization.CustomerIDsWith` | `server/internal/auth/principal.go:28-36` | the customers with a customer-wide grant of the permission, exactly |
| `Authorization.ListDevices` | `server/internal/api/devices_handlers.go:65-82` | the list's fast path shows exactly the devices for which Require succeeds at their site, in order |
| `Authorization.FastPathIsAllowed` | `server/internal/api/devices_handlers.go:65-82` | tenant flag, customer set and site check together are the same question as Require |
| `Authorization.AuthorizeTarget` | `server/internal/api/dispatch.go:37-53` | the memoised target check succeeds iff Require succeeds for every resolved device |
| `Policies.NearestIsWinner` | `server/internal/alerts/rules.go:183-208` | the search from the top rank down finds the last-listed offer of maximal rank in 0..4, none iff there is no offer |
| `Policies.LastAtIsLast` | `server/internal/alerts/rules.go:186-206` | the last value of a rank, and none iff the rank offers nothing |
| `Policies.ReorderKeepsNearest` | `server/internal/alerts/rules.go:183-208` | any reordering that keeps the relative order of equal ranks leaves the winner unchanged |
| `Policies.Merge` | `server/internal/alerts/rules.go:183-208` | the rank-by-rank overwrite yields, for each rule type, the winner and its policy |
| `Policies.MergeIgnoresCrossRankOrder` | `server/internal/alerts/rules.go:183-208` | Merge's result is the same for all such reorderings |
| `Policies.EffectiveFor` | `server/internal/worker/alerts.go:124-144` | each rule type gets the rule of a policy that reaches the device, of the narrowest scope that gives one (device, tag, site, customer, tenant), the last listed of that scope; none only if no policy gives one |
| `Policies.NearestIsNarrowest` | `server/internal/alerts/rules.go:131-208` | the winner of the numeric ranks is that policy: the ranks order the scopes as device over tag over site over customer over tenant |
| `Policies.RulesRoundTrip` | `server/internal/alerts/rules.go:57-63` | rules encoded under their five json names decode to themselves, field by field |
| `Policies.SpellingsMerge` | `server/internal/worker/alerts.go:131-134` | however a rule is spelled and however often it stands, it is read field by field from the last object that gives the field, and is none iff no object follows its last null |
| `Policies.LeftOutIsZero` | `server/internal/alerts/rules.go:31-63` | fields left out of a stored rule are read as zero values |
| `Policies.DecodesIff` | `server/internal/worker/alerts.go:131-134` | a stored object decodes iff no entry read as one of the five rules is neither null nor an object, or has a field of a wrong type |
| `Policies.EffectiveRulesJSON` | `server/internal/api/inventory_handlers.go:106-160` | each key shows the last entry of a policy that reaches the device, of the narrowest scope that stores the key, the last listed of that scope, with its id, name and scope |
| `Policies.NearestIsNarrowestEntry` | `server/internal/api/inventory_handlers.go:125-160` | the same for the dashboard: its winner by rank is the entry of the narrowest scope |
| `Policies.CandidatesKeepLasts` | `server/internal/api/inventory_handlers.go:107-124` | the dashboard's pre-filtered candidate list loses no last-of-rank entry |
| `Policies.OffersCompared` | `server/internal/worker/alerts.go:124-144` | what one stored policy offers worker and dashboard, compared: same rank, and the same rule iff the exactly named entry is what the whole object decodes to |
| `Policies.DashboardAgreesIff` | `server/internal/api/inventory_handlers.go:106-160` | the two merges give the same rule and policy for a type iff the dashboard's winning entry is what the worker reads from that policy and the worker's winner stores its rule under the exact name |
| `Policies.CleanRulesAgree` | `server/internal/api/inventory_handlers.go:106-160` | they always agree on policies that decode, hold no null rule and spell every rule key exactly, once |
| `Policies.NullEntryMisleadsDashboard` | `server/internal/api/policy_handlers.go:62-68` | an explicit null entry, which the API accepts, makes the dashboard report as replaced a rule the worker still applies |
| `Policies.FoldedKeyHidesARule` | `server/internal/api/policy_handlers.go:62-68` | a rule stored under a key in another case is applied by the worker and missing from the dashboard |
| `Policies.TwoSpellingsMisleadDashboard` | `server/internal/api/policy_handlers.go:62-68` | of two spellings the worker merges both, the dashboard shows one |
| `AlertRules.DedupKeyInjective` | `server/internal/alerts/evaluate.go:56-62` | equal dedup keys mean equal device, rule type and extra |
| `AlertRules.Evaluate` | `server/internal/alerts/evaluate.go:69-195` | the findings are those of the declarative description and the assessed list names exactly the rule types with fresh data |
| `AlertRules.CheckOffline` | `server/internal/alerts/evaluate.go:70-93` | the offline check |
| `AlertRules.CheckPct` | `server/internal/alerts/evaluate.go:95-131` | the CPU and memory checks |
| `AlertRules.FullDisks` | `server/internal/alerts/evaluate.go:132-165` | the disk loop with its watched set |
| `AlertRules.DownServices` | `server/internal/alerts/evaluate.go:168-192` | the service loop |
| `AlertRules.FindingsAreWhatHolds` | `server/internal/alerts/evaluate.go:56-195` | a finding with a given type and extra exists iff the condition holds on the telemetry; findings carry key, policy, channels and severity of the merged rule, and "warning" where it names none |
| `AlertRules.HoldingIsAssessed` | `server/internal/alerts/evaluate.go:69-195` | a condition holds only for an assessed rule type |
| `AlertEngine.FiringAfterPass` | `server/internal/worker/alerts.go:32-119` | exact post-state: the keys firing on an active device are those of its findings plus previously firing alerts whose rule is configured but was not assessed |
| `AlertEngine.OpenMeansHolds` | `server/internal/alerts/evaluate.go:56-195` | the keys of the findings are the keys of the conditions that hold |
| `AlertEngine.NoAlertOnInactiveDevice` | `server/internal/store/alerts.go:184-190` | after a pass nothing fires on a device that is not active |
| `AlertEngine.SecondPassIsNoop` | `server/internal/worker/alerts.go:32-119` | an immediate second pass on the same inputs changes no alert and queues nothing |
| `AlertEngine.PassMoves` | `server/internal/worker/alerts.go:35-113` | conservation: a pass adds to the outbox exactly one row per channel of each alert it opened and of each alert it closed as cleared, and moves alerts only from firing to resolved |
| `AlertEngine.PassDecidesFates` | `server/internal/worker/alerts.go:35-116` | what closes an alert, on policy and telemetry alone: it stays while its condition holds or cannot be judged, closes silently when its rule is gone or its device inactive, and closes with one notice per existing channel only when fresh data shows the condition gone |
| `AlertEngine.TurnDecidesFates` | `server/internal/worker/alerts.go:89-115` | the same for one device's turn, which leaves every other alert alone |
| `AlertEngine.NewAlertsTellOfConditions` | `server/internal/worker/alerts.go:63-87` | every alert a pass opens tells of a condition that holds, with the merged rule's policy, channels and severity, and gets one "fired" row per existing channel |
| `AlertEngine.DevicePassMoves` | `server/internal/worker/alerts.go:50-116` | the same law for one device's turn |
| `AlertEngine.PassKeepsInv` | `server/internal/worker/alerts.go:32-119` | one pass keeps the table invariants |
| `AlertEngine.RunKeepsInv` | `server/internal/store/alerts.go:131-190` | over all runs: one firing alert per key, at most one fired and one resolved row per alert and channel |
| `AlertEngine.NoticesAreForClearedAlerts` | `server/internal/worker/alerts.go:98-112` | over all runs a resolved row exists only for an alert that some pass, on fresh data and with its rule still configured, saw no longer to hold |
| `AlertEngine.ResolvedIsForever` | `server/internal/store/alerts.go:156-167` | an alert goes from firing to resolved at most once and then never changes |
| `AlertWorker.AlertStore.OpenAlert` | `server/internal/store/alerts.go:131-152` | inserts unless a firing row with the key exists |
| `AlertWorker.AlertStore.ResolveAlert` | `server/internal/store/alerts.go:156-167` | closes one firing alert |
| `AlertWorker.AlertStore.ResolveAlertsForDecommissioned` | `server/internal/store/alerts.go:184-190` | closes the alerts of devices that are not active |
| `AlertWorker.AlertStore.EnqueueDeliveries` | `server/internal/store/alerts.go:295-305` | one row per listed channel that still exists |
| `AlertWorker.AlertStore.ListFiringAlertsForDevice` | `server/internal/store/alerts.go:109-126` | the firing alerts of one device |
| `AlertWorker.AlertStore.OpenFindings` | `server/internal/worker/alerts.go:63-87` | the firing loop computes Fire |
| `AlertWorker.AlertStore.ResolveStale` | `server/internal/worker/alerts.go:89-115` | the resolving loop computes the closing whose effect TurnDecidesFates spells out |
| `AlertWorker.AlertStore.EvaluateDevice` | `server/internal/worker/alerts.go:50-116` | one device's turn computes DevicePass |
| `AlertWorker.AlertStore.EvaluateAlerts` | `server/internal/worker/alerts.go:32-119` | the whole pass computes Pass on the effective policy of each device, with inputs that cover the active devices |
| `AlertWorker.CloseInTurnIsClose` | `server/internal/worker/alerts.go:89-115` | resolving one by one equals resolving the set at once |
| `AlertWorker.InputsAreDetermined` | `server/internal/worker/alerts.go:32-58` | a pass depends on clock, policies and telemetry alone |
| `AlertWorker.InputsCover` | `server/internal/store/alerts.go:216-221` | on the list of active devices the inputs of a pass cover them, as the results about passes ask |
| `Outbox.RunIsPaced` | `server/internal/store/alerts.go:323-335` | over every run: 60, 120, 240, 480, 960, 1920 and then 3600 seconds at least between one claim of a row and the next, and the row is due exactly that long after its last claim |
| `Outbox.DueAgainWithinTheHour` | `server/internal/store/alerts.go:325-327` | a claimed row is due again between one minute and one hour later |
| `Outbox.PendingUntilAnOutcome` | `server/internal/store/alerts.go:319-335` | a row with no recorded outcome stays pending and is due again within the hour; its own backoff fits the cast iff it has been claimed at most 30 times |
| `Outbox.ClaimTakesIff` | `server/internal/store/alerts.go:323-335` | a claim takes a row iff it is due and unlocked, fewer than the limit of such rows are older, and no row of that batch has been claimed more than 30 times |
| `Outbox.StuckRowStopsTheTenant` | `server/internal/store/alerts.go:323-335` | one overflowing row that fits the batch makes every later claim fail, so no row of the tenant is ever claimed again |
| `Outbox.StuckIff` | `server/internal/store/alerts.go:323-335` | a pending row is stuck iff it was claimed 31 times and fewer pending rows than the limit are older |
| `Outbox.TableStepOnRows` | `server/internal/store/alerts.go:295-372` | what sends, failures and new deliveries do to the rows, one by one |
| `Outbox.ThirtyOneLostOutcomesStickARow` | `server/internal/store/alerts.go:326-327` | after 31 claims without an outcome the integer cast of the backoff overflows and no claim can take the row again |
| `Outbox.SettledForeverIff` | `server/internal/store/alerts.go:351-372` | a sent or failed row stays so in every continuation iff no claim is still waiting for its outcome |
| `Outbox.LateErrorSendsAgain` | `server/internal/store/alerts.go:360-372` | a late error outcome turns a sent row back to pending and it is sent again |
| `Outbox.SerialRun` | `server/internal/worker/alerts.go:202-252` | when each claim is over before the next: sent iff a send succeeded, failed iff attempt five or later was refused, at most five claims plus one per lost outcome, counted on the run |
| `Outbox.SerialRunEndsSettled` | `server/internal/store/alerts.go:351-372` | in such runs sent and failed are absorbing |
| `Outbox.SelectedIsOldestDue` | `server/internal/store/alerts.go:328-334` | a claim takes only due unlocked rows, oldest first, and leaves one only if the batch is full of older ones |
| `Outbox.BatchIsRowEvents` | `server/internal/worker/alerts.go:202-252` | when no row of the batch overflows, a worker's batch is a claim followed by that row's outcome, for each row it took |
| `Outbox.BatchLeavesOthers` | `server/internal/worker/alerts.go:202-252` | and rows outside the batch stay as they were |
| `Outbox.Deliveries.ClaimDueDeliveries` | `server/internal/store/alerts.go:323-349` | each selected row gets one attempt more and its next time after the backoff written out, no other row changes, the result lists ids and attempts; nothing changes when a selected row was claimed more than 30 times |
| `Outbox.Deliveries.MarkDeliverySent` | `server/internal/store/alerts.go:351-356` | marks sent without looking at the status |
| `Outbox.Deliveries.MarkDeliveryError` | `server/internal/store/alerts.go:360-372` | pending or failed by attempt number, without looking at the status |
| `Outbox.Deliveries.DeliverNotifications` | `server/internal/worker/alerts.go:202-252` | claims a batch and records each outcome, touching no other row |
| `Scheduler.EveryFiringIsDue` | `server/internal/worker/worker.go:150-161` | over every run, whatever clock readings updates use, each firing is for a cron slot after the creation that had come, and the next one is the first slot after the last reading |
| `Scheduler.FiresOnlyWhileEnabled` | `server/internal/store/schedules.go:113-128` | a schedule fires only while its last update, or else its creation, left it enabled, and not before its slot |
| `Scheduler.FiringsFollowTheCron` | `server/internal/worker/worker.go:150-161` | over every run whose updates schedule past the last firing, each fired slot lies after every earlier firing: none repeats and no missed slot is replayed |
| `Scheduler.FiringsNeverExceedSlots` | `server/internal/worker/worker.go:99-115` | over such runs a schedule fired, up to any time, at most as often as there were cron slots since its creation, counted one by one |
| `Scheduler.UpdateNeverReplaysIff` | `server/internal/api/schedules_handlers.go:166-202` | whatever clock reading an update used, no slot repeats and no missed slot is replayed from then on iff the slot it schedules lies after the last firing |
| `Scheduler.UpdateNeverRepeatsIff` | `server/internal/api/schedules_handlers.go:166-202` | no slot fires twice from then on iff the slot it schedules has not fired |
| `Scheduler.FreshUpdateIsTimely` | `server/internal/api/schedules_handlers.go:166-202` | an update that reads the clock at or after the last firing schedules past it |
| `Scheduler.StaleUpdatesMisfire` | `server/internal/api/schedules_handlers.go:166-202` | the next run is computed before the transaction: a firing in between makes a slot fire twice, or a missed slot fire late |
| `Scheduler.ClaimedScheduleFires` | `server/internal/store/schedules.go:113-145` | a claimed row with a parsable cron takes exactly the firing step |
| `Scheduler.DueIsClaimed` | `server/internal/store/schedules.go:113-128` | a due, enabled, unlocked schedule is passed over only if the batch is full of schedules due no later |
| `Scheduler.TickTouchesOnlyClaimed` | `server/internal/worker/worker.go:150-161` | a tick disables claimed schedules with a dead cron and touches no row it did not claim |
| `Scheduler.JobsAreForTargets` | `server/internal/worker/worker.go:163-187` | a tick creates jobs for exactly the devices its live claimed schedules target |
| `Scheduler.OneJobPerDevice` | `server/internal/worker/worker.go:163-187` | one job per resolved device, in order, and an error exactly when a live firing cannot resolve its target |
| `Scheduler.Schedules.FireSchedule` | `server/internal/worker/worker.go:150-202` | advances the next run and returns one job per target device, or disables a schedule with a dead cron |
| `Scheduler.Schedules.FireDueSchedules` | `server/internal/worker/worker.go:99-115` | the firing transaction: all claimed rows and their jobs, or nothing at all on an error |
| `Commands.ScriptSpecRoundTrip` | `server/internal/gateway/gateway.go:298-306` | the agent parses back exactly the script the gateway packed |
| `Commands.PackageSpecRoundTrip` | `agent/internal/exec/exec.go:55-61` | and the package list the server stored |
| `Commands.ReadListIs` | `agent/internal/exec/exec.go:55-61` | which members the decoder accepts for the package list and which list it reads: the last one, null as empty |
| `Commands.ParsePackagesIs` | `agent/internal/exec/exec.go:55-61` | the package spec is that list of an object, none from a null, and an error from anything else |
| `Commands.ReadTextIs` | `agent/internal/exec/exec.go:39-45` | the same for a string field: the last string counts, nulls are passed over |
| `Commands.ReadMapIs` | `agent/internal/exec/exec.go:39-45` | the same for the parameters: later objects add to earlier ones and a null clears |
| `Commands.ParseSpecIs` | `agent/internal/exec/exec.go:39-45` | the script spec is these three fields of an object, zero values from a null, and an error from anything else |
| `JsonNames.MatchesIff` | `agent/internal/exec/exec.go:39-61` | which keys Go's decoder takes for a field: equal letter by letter up to ASCII case, the long s and the Kelvin sign |
| `Commands.TextsIs` | `server/internal/gateway/gateway.go:298-306` | stored parameters are usable iff they are null or an object of strings and nulls |
| `Commands.ReportedStatus` | `agent/internal/conn/conn.go:389-398` | succeeded iff exit code 0 (and, for packages, no error at the deadline); timed out and failed characterised for both runners, which look at exit and deadline in opposite orders; and the exit code in each case |
| `JobTable.ClosedForever` | `server/internal/store/jobs.go:233-300` | terminal states are absorbing: a closed job's row and output never change, whatever arrives; no job's work ever changes, and none goes back from sent to pending |
| `JobTable.OneEventDecides` | `server/internal/store/jobs.go:279-300` | exactly one event of the run decides a closed job: a sweep past its expiry, or a report whose status, times and output are the job's for ever |
| `JobTable.OutputMeansReported` | `server/internal/store/jobs.go:289-299` | a job has an output row iff a report closed it rather than the sweep |
| `JobTable.SweepLeavesNothingOverdue` | `server/internal/store/jobs.go:235-240` | after a sweep later than its expiry a job is closed and stays so |
| `JobTable.ReportCloses` | `server/internal/store/jobs.go:279-300` | a report closes an open job with its command whatever came before |
| `JobTable.ReportsClose` | `server/internal/gateway/gateway.go:207-289` | what a result frame reports: each wire status as its own terminal state, an unknown one as failed, an exit code exactly for succeeded and failed, and the clock for missing times |
| `JobTable.SentIffMarked` | `server/internal/store/jobs.go:244-249` | over every run a job has a send time iff it was marked while open, and an open job is then sent, otherwise pending |
| `JobTable.MarkSentMarks` | `server/internal/store/jobs.go:244-249` | a mark makes an open job sent at that time and changes no closed job and no other row |
| `JobTable.RunKeepsInv` | `server/migrations/0004_scripts.up.sql:26-58` | command ids stay unique, output rows fit their jobs, and send and finish times are set in exactly the states that have them, over every run |
| `JobTable.DrainListsOpenJobs` | `server/internal/store/jobs.go:254-262` | the drain lists exactly the device's open unexpired jobs, oldest first |
| `JobTable.JobStore.CreateJob` | `server/internal/store/jobs.go:199-231` | one new pending row with the given work, times and device, exactly if the command id is not in use |
| `JobTable.JobStore.MarkJobSent` | `server/internal/store/jobs.go:244-249` | pending or sent becomes sent; a closed job is untouched |
| `JobTable.JobStore.ExpireQueuedJobs` | `server/internal/store/jobs.go:235-240` | expires the overdue queued jobs and counts them |
| `JobTable.JobStore.ListPendingJobsForDevice` | `server/internal/store/jobs.go:254-275` | the list loop |
| `JobTable.JobStore.CompleteJob` | `server/internal/store/jobs.go:279-300` | guarded update, then an insert that never overwrites |
| `JobTable.JobStore.HandleCommandResult` | `server/internal/gateway/gateway.go:207-235` | what reaches CompleteJob from a result frame |
| `AgentJournal.JournalsGrow` | `agent/internal/exec/exec.go:258-275` | over every run the journal on disk only grows and stays within the one in memory |
| `AgentJournal.LaunchesAreTimely` | `agent/internal/conn/conn.go:326-388` | over every run the runner is called for a command once per goroutine that decides no later than its expiry on a spec that parses, and never after the expiry |
| `AgentJournal.LateIsReportedExpired` | `agent/internal/conn/conn.go:326-344` | a decision past the expiry starts nothing, and its goroutine can only record the command and send the reply "expired" |
| `AgentJournal.TimelyIsRunOnce` | `agent/internal/conn/conn.go:326-420` | a decision no later than the expiry on a script or package request that parses starts it once, and its goroutine never reports it as expired |
| `AgentJournal.RunsAreAccepted` | `agent/internal/exec/exec.go:66-187` | whatever ran had a spec that parses, a known script language or a non-empty package list |
| `AgentJournal.OnlyStragglersRun` | `agent/internal/conn/conn.go:321-325` | once a command is journalled it is run at most by goroutines that had already passed the check |
| `AgentJournal.RunsAfterDurableIff` | `agent/internal/conn/conn.go:317-407` | a durably journalled command can still be run iff such a goroutine is left |
| `AgentJournal.OverlapIsReachable` | `agent/internal/conn/conn.go:250-250` | two deliveries of one request can both pass the journal check |
| `AgentJournal.OverlapRunsTwice` | `agent/internal/conn/conn.go:321-407` | from there the first runs the command and has it on disk while the second is still to run it, without any crash |
| `AgentJournal.RunsAreBounded` | `agent/internal/conn/conn.go:400-407` | without overlapping deliveries a command runs at most once plus once per crash, counted one by one, that hit before its id was on disk, and never once it is |
| `AgentJournal.EveryForgettingCrashCanCostARun` | `agent/internal/conn/conn.go:400-407` | and that bound is reached for every number of such crashes, by every command that can be run |
| `AgentJournal.LostReplyIsNeverResent` | `agent/internal/conn/conn.go:321-325` | a journalled command without goroutines is never answered again |
| `AgentJournal.CrashAfterRecordingSilences` | `agent/internal/conn/conn.go:400-420` | in particular after a crash between recording and replying |
| `AgentJournal.SoloRun` | `agent/internal/conn/conn.go:317-421` | undisturbed steps with the clock written out: past the expiry only "expired", in time one run and its reply, for a known command nothing |
| `AgentJournal.SoloReplySpelledOut` | `agent/internal/conn/conn.go:326-398` | which reply that is in each case |
| `AgentJournal.ExecuteCommand` | `agent/internal/conn/conn.go:317-421` | one undisturbed execution: it runs iff the command is new, the clock not past the expiry and the spec parses; past the expiry it answers expired; reply and journal accordingly |
| `AgentJournal.Journal.NewJournal` | `agent/internal/exec/exec.go:228-248` | loads exactly the ids on disk, or fails on an unreadable file |
| `AgentJournal.Journal.Contains` | `agent/internal/exec/exec.go:251-255` | membership |
| `AgentJournal.Journal.Record` | `agent/internal/exec/exec.go:258-275` | adds the id in memory and rewrites the file as a whole, or leaves it as it was |
| `CommandDelivery.SucceededWasExecuted` | `agent/internal/conn/conn.go:347-420` | end to end: a job recorded as succeeded was run by its own device under its own command id and that run ended with exit code 0 |
| `CommandDelivery.SuccessAlwaysExecutedIff` | `agent/internal/conn/conn.go:368-394` | the property holds for exactly the work whose spec the agent can parse |
| `CommandDelivery.MalformedSpecSucceeds` | `agent/internal/conn/conn.go:380-386` | a package spec that does not parse is recorded as succeeded without any run |
| `CommandDelivery.RequestCarriesTheWork` | `server/internal/gateway/gateway.go:291-345` | a frame carries its row's command, expiry and work: the script with its parameters, or the package spec verbatim as an install or a removal; only a script with malformed parameters has none |
| `CommandDelivery.ReplyIsForItsJob` | `server/internal/store/jobs.go:279-287` | unique command ids: a frame with a job's command was built from that job for that job's device |
| `CommandDelivery.UnansweredJobIsOnlySwept` | `server/internal/store/jobs.go:233-240` | a job whose reply was lost after journalling can be closed by nothing but the sweep |
| `CommandDelivery.UnansweredIsReachable` | `agent/internal/conn/conn.go:400-420` | and such a job is reachable for every runnable command and every end of its run |
| `CommandDelivery.RunKeepsInv` | `server/internal/gateway/gateway.go:127-235` | the invariant of the whole system, over every interleaving, loss, repetition and reordering of frames |
| `CommandDelivery.TablesFollowTheStore` | `server/internal/store/jobs.go:196-300` | the table part of a run is a run of the job table |
| `CommandDelivery.AgentsFollowTheCode` | `agent/internal/conn/conn.go:317-421` | each agent's part is a run of the journal machine |
| `Gateway.DrainPendingJobs` | `server/internal/gateway/gateway.go:170-204` | sends and marks the listed jobs in turn, skipping specs that do not build and stopping at the first failed write |
| `Gateway.DeliverJobs` | `server/internal/api/jobs_handlers.go:287-298` | pushes new jobs to online devices and marks those sent |
| `Gateway.DrainSendsOpenJobs` | `server/internal/gateway/gateway.go:170-204` | frames go out only for open unexpired jobs, to their own device |
| `Gateway.LoopSendsAll` | `server/internal/gateway/gateway.go:170-204` | each listed job that can be built and written is sent, and marked sent if its mark commits; the rows of the others stay as they were |
| `Gateway.FailedWriteStopsTheDrain` | `server/internal/gateway/gateway.go:170-204` | nothing is sent or marked after the first failed write of a drain |
| `Gateway.DeliveryHappens` | `server/internal/gateway/gateway.go:170-204` | the loops' sends and marks are events of the whole system |
| `Deployments.PassCreatesExactlyTheMissing` | `server/internal/worker/deployments.go:61-211` | a pass creates one pending install job for exactly the active devices in scope that match OS, tags and hostname, do not list the app and have no install of a shared package open or succeeded within 86400 seconds; none for a rule that cannot be carried out |
| `Deployments.ReconcilerJobsNeverPileUp` | `server/internal/store/apps.go:308-325` | over every serial run two open reconciler jobs on one device never share a package, as the agent reads their specs |
| `Deployments.OverlappingPassesPileUpIff` | `server/internal/worker/deployments.go:102-125` | over every interleaving of two workers' check and commit on one device, overlapping jobs are created iff the plans share a package and both checks precede either commit |
| `Deployments.PassesCanOverlap` | `server/internal/worker/deployments.go:102-125` | both kinds of interleaving exist for any two workers |
| `Deployments.RunsAreHourly` | `server/internal/store/apps.go:228-247` | consecutive runs of one rule are more than 3600 seconds apart, across edits and workers |
| `Deployments.ClaimIsARun` | `server/internal/store/apps.go:228-263` | a claimed rule takes exactly that claim step |
| `Deployments.DueRuleIsClaimed` | `server/internal/store/apps.go:228-247` | a due rule is passed over only if the batch is full of rules that ran no later |
| `Deployments.ClaimedRulesAreDue` | `server/internal/store/apps.go:228-247` | only enabled rules with a live package that have not run for 3600 seconds are claimed, at most the limit |
| `Deployments.BlocksSharedIff` | `server/internal/store/apps.go:312-318` | a job under way blocks every install that shares a package with it iff the database, which matches the key exactly, sees all its packages |
| `Deployments.WrittenIsVisible` | `server/internal/api/app_packages_handlers.go:63-63` | which holds of every spec the API writes |
| `Deployments.OtherSpellingIsInvisible` | `server/internal/store/apps.go:312-318` | and not of one whose key is in another case |
| `Deployments.TagsMatch` | `server/internal/worker/deployments.go:161-181` | any or all of the wanted tags |
| `Deployments.DeviceHasApp` | `server/internal/worker/deployments.go:186-211` | every detection name is in the inventory, ignoring case |
| `Deployments.DeviceMatchesRule` | `server/internal/worker/deployments.go:147-158` | OS, tags and hostname filters |
| `Deployments.DevicesInScope` | `server/internal/store/apps.go:268-301` | the active devices of the scope, in order |
| `Deployments.ScopedIsExact` | `server/internal/store/apps.go:268-301` | nothing else is listed and nothing is missing |
| `Deployments.ReconcileRule` | `server/internal/worker/deployments.go:61-142` | the loop computes Reconciled and returns the created ids in order |
| `Deployments.RuleTable.ReconcileDeployments` | `server/internal/worker/deployments.go:29-46` | claims the rules and reconciles them in turn |
| `SelfUpdate.ApplyKeepsABinary` | `agent/internal/update/update.go:144-190` | after every prefix of Apply, whatever fails, a complete executable is at the path or at .prev, and it is the old or the new one |
| `SelfUpdate.ApplyReturns` | `agent/internal/update/update.go:144-190` | nil iff the new executable is in place with the old at .prev; an error leaves the old one, in place or at .prev |
| `SelfUpdate.UndisturbedApply` | `agent/internal/update/update.go:144-190` | when nothing fails the update is in place, the old executable at .prev, the marker written and nothing staged left |
| `SelfUpdate.OneFaultIsContained` | `agent/internal/update/update.go:144-190` | the exact outcome for each single failing operation: a failed install is undone, staged files are removed, and a new executable in place can lack only its marker |
| `SelfUpdate.ApplyIsSafeIff` | `agent/internal/update/update.go:165-170` | Apply never costs the last executable iff it is complete at its own path at the start |
| `UpdateRace.PairSurvivesIff` | `agent/internal/update/update.go:165-176` | two Applies interleaved in any way keep an executable after every step iff .prev is never deleted while the executable is away from its path |
| `UpdateRace.PatientPairSurvives` | `agent/internal/update/update.go:165-176` | swaps that do not overlap, with restores that succeed, always keep one |
| `UpdateRace.OverlappingSwapsLoseTheBinary` | `agent/internal/conn/conn.go:252-252` | overlapping swaps lose it without any operation failing |
| `SelfUpdate.ConfirmIsSafeIff` | `agent/internal/update/update.go:220-225` | ConfirmHealthy is safe iff the executable is complete at its path or no marker is pending |
| `SelfUpdate.UndisturbedConfirm` | `agent/internal/update/update.go:220-225` | when nothing fails a confirmation removes .prev and the marker if one is pending, and otherwise changes nothing |
| `SelfUpdate.RollbackIsSafeIff` | `agent/internal/update/update.go:230-243` | Rollback is safe iff no marker is pending or .prev is not a torn file |
| `SelfUpdate.RollbackReturns` | `agent/internal/update/update.go:230-243` | Rollback succeeds iff a marker is pending, .prev exists and its operations succeed; a failure changes nothing |
| `SelfUpdate.RollbackUndoesApply` | `agent/internal/update/update.go:230-243` | Apply with its marker written, then Rollback, restores the old bytes exactly and clears the marker |
| `SelfUpdate.InstallationSurvives` | `agent/internal/update/update.go:133-243` | over every life of an installation, one operation at a time, an executable survives and no bytes get there but those of the start and of the updates |
| `SelfUpdate.WellStartedIffSafe` | `agent/internal/update/update.go:133-243` | what is asked of the start of each operation is exactly what makes it safe there |
| `SelfUpdate.LeftoverMarkerLosesTheBinary` | `agent/internal/update/update.go:171-176` | a marker left over, a failed update that cannot be undone, and the next confirmation delete the last executable |
| `Updater.Verify` | `agent/internal/update/update.go:73-91` | accepts iff the hash matches and some trusted key verifies the signature; never without keys |
| `Updater.Files.Apply` | `agent/internal/update/update.go:144-190` | the code goes through the steps proved safe, logging every disk state on the way |
| `Updater.Files.ConfirmHealthy` | `agent/internal/update/update.go:220-225` | the code goes through the confirmation steps, logging every disk state on the way |
| `Updater.Files.Rollback` | `agent/internal/update/update.go:230-243` | the code goes through the rollback steps, logging every disk state on the way |
| `Updater.HandleUpdateOffer` | `agent/internal/conn/conn.go:499-569` | files change only by the Apply of an accepted offer, bytes verified under a non-empty key set; every state in between keeps an executable; an acceptable offer is installed when no file operation fails |
| `Updater.EveryBinaryIsVouched` | `agent/internal/update/update.go:73-91` | over every life by offers each executable at the path or .prev was there at the start or passed Verify under a non-empty key set |
| `Watchdog.RaceIsHarmless` | `agent/internal/conn/conn.go:586-613` | for every interleaving the executable is never absent, .prev is renamed back or deleted but not both, and a restart happens only on the old executable |
| `Watchdog.PrevIsConsumedOnce` | `agent/internal/conn/conn.go:214-219` | without failing operations .prev is consumed exactly once by the time the marker is gone |
| `Watchdog.UnconfirmedUpdateIsRolledBack` | `agent/internal/conn/conn.go:586-613` | past the deadline an update nobody confirmed is undone and the agent restarts on the old executable |
| `Watchdog.ConfirmedUpdateStays` | `agent/internal/conn/conn.go:214-219` | a confirmation before the deadline keeps the new executable, and the watchdog finds nothing to undo |
| `Watchdog.FailedRollbackIsGivenUp` | `agent/internal/conn/conn.go:606-612` | a rollback that fails leaves the disk alone and is not retried before the next start |
| `Watchdog.BootStartsOver` | `agent/internal/conn/conn.go:586-596` | a restart loses unfinished rollbacks and confirmations, leaves the disk alone, and arms the watchdog iff the marker is found |
| `Watchdog.NothingStartsWithoutAMarker` | `agent/internal/conn/conn.go:214-219` | without a pending marker neither side ever touches the disk |
| `Watchdog.UpdateBeginsTheRace` | `agent/internal/update/update.go:178-190` | the state a successful Apply leaves is where that race starts |

## Left out

- Cryptography, base64 and hashing: functions passed to `Verify`; nothing is proved about them.
- WebSocket, HTTP, SMTP, S3, protobuf and the JSON text format: frames are messages, JSON text is the value it denotes, with members in order. Decoding into structs follows Go's key folding; a null element of a list given twice under two spellings, which Go may leave at its earlier value, is read as empty.
- Postgres concurrency below a transaction: statements and transactions are atomic, `FOR UPDATE SKIP LOCKED` is a set of locked rows given as a parameter, and rollback on an error restores the tables.
- The cron library and regular expressions: `next` is assumed to be the least slot after its argument, and to exist; a compiled regex is a predicate. A cron without any further slot, for which the library returns the zero time, is not modelled.
- `strings.ToLower` and `strings.EqualFold`: functions passed in.
- Durability below the file system call: a crash loses the process, not completed writes and renames; there is no power loss.
- Floating-point rounding of percentages: reals.
- Telemetry collection and decoding (evalState, CollectEvalDevices): the evaluator's input is the decoded state; a device's service snapshot comes with its freshness already decided.
- Human-readable alert messages, finding details, error texts, `sent_at` and `last_error`, audit entries and log lines.
- Token names and expiry times, token revocation: `MintingSpelledOut` is about scope and permissions.
- Rules.Validate, target resolution, blast-radius confirmation, channel and policy CRUD: single-branch checks.
- Inventory refresh uploads: fire and forget; only their effect on replies is modelled.
- Output truncation, process spawning and temporary files in RunScript and RunPackage: a run is an arbitrary outcome.
- A journal that is nil: the agent's main always creates one.
- Several update markers with different paths: the executable's path is the same for every process of an installation.
- TrustedKeys parsing and the download: their results are parameters of `HandleUpdateOffer`.
- Deletion of schedules and rules, and re-creation under new ids.
- The web interface, the MCP server, the assistant providers, collectors and platform code.
