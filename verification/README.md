# AidFlow: a model of the decision engines and proofs about them

AidFlow takes disaster reports from citizens, gathers reports of the same incident into clusters,
turns a cluster into a government case once enough different people agree, and leads the case through
review to its end. Its documentation promises that all of this is deterministic. This project models
the engines behind the Python API and proves what they keep over whole histories of service calls.

How the files fit together:

| file | subject |
|---|---|
| `Categories`, `CaseStates` | similarity, severities, the case state machine and the legal paths through it |
| `Cases`, `CaseCalls` | one case row with its event log; what every call on an existing case keeps, leads to, logs and stores |
| `Clustering` | the matching rules, unique reporters, the recount of a cluster |
| `Tables` | the three tables of one platform, each call as a function, the invariant |
| `TableLemmas`, `LedgerRuns` | every call keeps the invariant; what no later call undoes |
| `Attestation` | severities of clusters and cases come from their reports |
| `Ledger` | the services as methods that update the tables in place, equal to those functions |
| `Situation`, `Progress` | read-models: conservation of reports, the public map, figures, the progress bar |
| `LineSimplification`, `Polyline` | Ramer-Douglas-Peucker simplification and thinning |
| `RateLimiter`, `Accounts`, `LineBinding` | sliding-window limiter, staff accounts, LINE group binding |
| `Selection`, `SelectionFacts` | completing a module and layer selection |
| `LayerCache` | the official-layer cache as interleaved steps |

Conventions. Rows are identified by their position in a table that only grows. Times are integers in
microseconds (reals where the source uses the monotonic clock in seconds), coordinates are reals. Each
service call is one transaction: it commits or changes nothing. What comes from outside is a parameter:
the clock, the distance between two positions and the bounding-box test (about which nothing is assumed),
the order in which the database lists rows, whether a password matches, the answer of EMIC, the result of
an upstream fetch. A policy stays fixed during a history, because changing it does not recount existing
clusters.

Where the code falls short of a promise, the model follows the code:

- `clear_cache` drops an entry that a reader may still be using, so two fetches of one key can be in flight.
  `LayerCache.SingleFlight` holds per entry always, and per key as long as the cache is only cleared while
  nobody uses an entry of that key; `LayerCache.ClearMeetsReader` shows that any other clear can be followed
  by two fetches at once, and `LayerCache.ClearAllowsTwoFetches` is a run in which that happens.
- The docstring of `get_layer` says errors are cached briefly. The earthquake part of `_fetch_layer`
  (lines 144-148) catches two exception types only; any other leaves `get_layer` without storing
  anything. `LayerCache.FetchesAreSpaced` is therefore about fetches that returned;
  `LayerCache.CheckDecides` says exactly when a check fetches, and fetches that raised play no part in it;
  `LayerCache.RaisedFetchIsRepeated` is a run in which a failed fetch is repeated in the same moment.
- The same docstring says the cache key is the layer and the county; the code adds the hazards. The model
  treats the key as opaque.
- The thinning loop of `simplify_line` ends exactly when the line fits already or the cap is at least
  three (`Polyline.ThinningIsStuck`); a cap of zero divides by zero. Its recursion ends exactly when the
  tolerance is not negative or the line is nowhere flat (`LineSimplification.FlatPieceComesBack`).
- `simplify_line` says that only redundant collinear points are dropped. For its recursion that is so, for every
  line, exactly when the tolerance is not positive (`Polyline.OnlyRedundantExactly`): with any positive one a
  tent as high as the tolerance loses its top. Thinning picks positions without looking at the points.
- `allow` reads the clock before it takes its lock, so two threads can enter in the other order. What that does
  depends on the limit. Times that do not decrease do no harm (`RateLimiter.OrderedCallsAgree`), and with a limit
  of nought or less no times do (`RateLimiter.NoLimitAgrees`). With a limit of one no times do as long as at most
  10,000 keys have called (`RateLimiter.LimitOneAgrees`); with one more, a sweep can forget a hit
  (`RateLimiter.SweepForgets`). With a limit of two or more any step back, however small, can let through a hit
  above the limit (`RateLimiter.BackwardsClockForgets`), and can make a later call be refused below the limit
  (`RateLimiter.BackwardsClockRefuses`), after any history, once the key has rested for a window.
- Module registration does not keep layer keys unique, and then completing a selection twice can add modules
  or reorder layers. `SelectionFacts.ResolvingAgain` gives the exact condition: the key of every selected layer
  leads back to a selected module, and equal layer keys stand together in the answer.
  `SelectionFacts.SharedKeyAddsModule` and `SelectionFacts.SharedKeyMovesLayer` are registries for which each
  half fails.

## Model

| member | source | states |
|---|---|---|
| Categories.MaxSeverity | apps/api/app/domain/categories.py:97-102 | the result bounds every severity of the list and, for a non-empty list, is one of them |
| Categories.SimilarArePartners | apps/api/app/domain/categories.py:48-62 | two categories are similar exactly when they are the same or one is listed as a partner of the other |
| CaseStates.ChangesBounded | apps/api/app/domain/case_states.py:33-44 | along any legal path a case changes status at most five times plus twice per rejected community submission |
| CaseStates.FinishedIsLast | apps/api/app/domain/case_states.py:42-44 | closed and dismissed are absorbing, and nothing returns to pending review |
| CaseStates.EmicIsNeverLeft | apps/api/app/domain/case_states.py:33-44 | from an EMIC status a case only ever moves within the EMIC track or to closed |
| CaseStates.TrackFacts | apps/api/app/domain/case_states.py:80-88 | the track implied by a legal history: present for a closed case, absent while pending, EMIC exactly when the case was ever reported to EMIC, never EMIC for a dismissed case |
| CaseStates.TextsNameStatuses | apps/api/app/domain/case_states.py:23-30 | a text names a status exactly when it is what is stored for it |
| Cases.MovedOk | apps/api/app/services/case_service.py:264-302 | an allowed transition keeps the row in agreement with its log, extends the history by exactly the target, rewrites neither the stamp of the review nor that of the report to EMIC or of the closing, stamps a community submission with the latest time, and leaves the intake summary alone |
| Cases.ExecuteOk | apps/api/app/services/case_service.py:264-480 | every call an officer, a helper or EMIC can make keeps the row in agreement with its log, undoes nothing, leaves the intake summary alone and moves along the state machine or not at all |
| Cases.UnbrokenIsLegal | apps/api/app/services/case_service.py:277-302 | the status-change events in insertion order form an unbroken legal path from pending review |
| Cases.HistoryEvents | apps/api/app/services/case_service.py:91-138 | a status is in the history exactly when it is the first one or some event moved the case there |
| Cases.CaseFacts | apps/api/app/services/case_service.py:264-302 | for any consistent case: bounded number of changes, a closed case has a track and a closing stamp and no other has one, the review stamp exists exactly when the case has left pending review and is the time of the first logged change, the EMIC track goes with the EMIC stamp, the submission stamp is the time of the last logged submission |
| Cases.MovedStamps | apps/api/app/services/case_service.py:281-293 | the four stamps are the times the log gives: of the first change, the first report to EMIC, the last community submission and the closing |
| CaseCalls.WhereCallsLead | apps/api/app/services/case_service.py:264-480 | for every call: the status it leads to and exactly when it fails with which error; a review leads to EMIC, to the community or to dismissal as decided, a confirmation closes or reopens |
| CaseCalls.WhereTransitionsLead | apps/api/app/domain/case_states.py:33-113 | a direct transition succeeds exactly from the listed statuses of its target and then leads there; any other text is refused |
| CaseCalls.WhatCallsLog | apps/api/app/services/case_service.py:264-480 | the log grows by exactly the events of the call: the move with its two statuses, visibility and time, the answer of EMIC, the field update if a field changed, the note |
| CaseCalls.WhatCallsStore | apps/api/app/services/case_service.py:281-424 | the first move names the officer who reviewed the case; what EMIC answers replaces what is known unless empty; submitted fields are stored, cleared by an empty text or left alone; the synchronisation time moves only with a change |
| Clustering.PickCluster | apps/api/app/services/cluster_service.py:73-99 | nothing exactly when no candidate is similar, within the radius and within the window on both sides; otherwise one that is, than which every other such one is farther, as far and less recent, or as far, as recent and listed later |
| Clustering.PickIsFirstNearest | apps/api/app/services/cluster_service.py:73-99 | the same of the reference choice, written out in distances, times, radius and minutes |
| Clustering.TimePrefilterIsHarmless | apps/api/app/services/cluster_service.py:115-123 | the one-sided time condition of the query changes no choice |
| Clustering.OneMoreReport | apps/api/app/services/cluster_service.py:102-107 | no report counts as nobody; one report more, anywhere in the row order, adds nothing when its non-empty key is there already, one when the key is new, and without a key one exactly when such reports count |
| Clustering.CountIsHeadcount | apps/api/app/services/cluster_service.py:102-107 | however one report per key, and each report without key if those count, is picked: as many are picked as the function says |
| Clustering.RecountIsOrderIndependent | apps/api/app/services/cluster_service.py:130-147 | a recount depends only on the multiset of rows, not on the order in which the database returns them |
| Clustering.UniqueIsOrderIndependent | apps/api/app/services/cluster_service.py:102-107 | the unique count depends only on the multiset of keys |
| Clustering.RecountIsAccurate | apps/api/app/services/cluster_service.py:130-147 | a recounted summary has the number of rows, the number of people (one per key, and one per row without key if those count), the highest severity, the earliest and latest time and the mean position of the live reports; without live reports severity, times and position stay as they were |
| Clustering.CentroidAfterOneMore | apps/api/app/services/cluster_service.py:133-140 | one row more pulls the centroid towards its position by its share; a row without position leaves it |
| TableLemmas.JoinedOk | apps/api/app/services/cluster_service.py:195-201 | after a report joins and the cluster is recounted, everything holds again but the link of that report and the summary of the case, if there is one |
| TableLemmas.AttachedOk | apps/api/app/services/case_service.py:238-250 | attaching the report to the case repairs exactly that, and the case dominates the severity of each live member |
| TableLemmas.CaseOpenedOk | apps/api/app/services/case_service.py:150-225 | opening a case keeps the tables consistent, links each live report once, logs each arrival exactly once and, for the threshold trigger, records exactly as many people as required |
| TableLemmas.CaseOpenedMeans | apps/api/app/services/case_service.py:150-225 | the new case has category, severity, position and counts of its cluster, is as old as its latest live report (or now, by hand), ends its log with the creation, and exactly the live reports join it |
| TableLemmas.JoinedGrows | apps/api/app/services/cluster_service.py:195-201 | a report that joins a cluster raises its unique count by one, or by nought when a live report carries its key or keyless reports do not count |
| TableLemmas.LoggedReceived | apps/api/app/services/case_service.py:195-203 | the creation log names exactly the live reports of the cluster, each once |
| TableLemmas.ProcessedInv | apps/api/app/services/cluster_service.py:150-213 | taking in a stored report, whichever open cluster it joins, restores the whole invariant |
| TableLemmas.RefusedOk | apps/api/app/services/report_service.py:195-216 | rejecting any report, also again, keeps counts, severities, links and logs consistent |
| TableLemmas.RefusedPeople | apps/api/app/services/report_service.py:195-216 | a rejection takes away one report and the person who is behind no other live report of the cluster, and nothing from other clusters |
| TableLemmas.RefusedBelow | apps/api/app/services/report_service.py:195-216 | a rejection never leaves a cluster without a case at or above the threshold |
| TableLemmas.SettledOk | apps/api/app/services/case_service.py:294-297 | finishing a case and its cluster together keeps cluster status and case status in step |
| LedgerRuns.ChoiceIsNearest | apps/api/app/services/cluster_service.py:111-169 | over the whole cluster table and any row order: a new cluster is opened exactly when none is eligible, otherwise an eligible one is joined than which every other is farther, or as far and no more recent; written out in distances, times, radius and minutes |
| LedgerRuns.StepKeepsInv | apps/api/app/services/cluster_service.py:150-213 | every committed call keeps the whole invariant |
| LedgerRuns.ReachableInv | apps/api/app/services/cluster_service.py:130-213 | in every reachable state each cluster summary equals a recount of its live reports, case counts equal cluster counts, no live member is more severe than the case, a cluster is open exactly without a case and otherwise has the status of its case, live reports carry the case of their cluster, case logs agree with case rows |
| LedgerRuns.NothingIsUndone | apps/api/app/services/cluster_service.py:117-121 | between any two states of a history: no report changes cluster or case, rejection is permanent, clusters keep their case, cases keep their log and the stamps of review, report to EMIC and closing, and never get less severe, finished stays finished, no report joins a finished case |
| LedgerRuns.StepKeepsProfile | apps/api/app/services/cluster_service.py:141-147 | a call after which a cluster has no live report leaves its severity, times and position alone |
| LedgerRuns.EmptiedKeepsLast | apps/api/app/services/cluster_service.py:141-147 | in every reachable state a cluster without live reports carries the severity, times and position of the last state in which it had one, where they were a recount |
| LedgerRuns.SubmitAnswers | apps/api/app/services/report_service.py:131-140 | the report holds what was submitted; the cluster returned is the one it is in and the nearest eligible one; that has one person more or as many, and a case is made exactly when it had none and now has enough; the case is the only new one and has the summary of the cluster |
| LedgerRuns.SamePersonAddsNobody | apps/api/app/services/cluster_service.py:102-107 | a submission whose key a live report of the joined cluster carries leaves the unique count as it was and, where the cluster has no case, opens none |
| LedgerRuns.SubmitCompletes | apps/api/app/services/report_service.py:131-132 | storing and then processing a report is one step of a history |
| Attestation.SeverityIsReported | apps/api/app/services/cluster_service.py:141-143 | in every reachable state the severity of each cluster and each case is that of some report of the cluster, so it is never raised out of nothing |
| Ledger.Ledger.constructor | apps/api/app/services/platform_service.py:156-173 | a platform starts with empty, consistent tables |
| Ledger.Ledger.OpenCandidates | apps/api/app/services/cluster_service.py:111-127 | lists exactly the open and promoted clusters in the box that are recent enough, each once |
| Ledger.Ledger.Recount | apps/api/app/services/cluster_service.py:130-147 | replaces the summary of one cluster by an accurate one and touches nothing else: number of live reports, one person per key and one per keyless report if those count, highest severity, times, mean position |
| Ledger.Ledger.ProcessReport | apps/api/app/services/cluster_service.py:150-213 | the report joins the nearest eligible cluster, or a new one exactly when there is none; the new tables are those of the reference step; reports a new case exactly when one was made |
| Ledger.Ledger.ChooseCluster | apps/api/app/services/cluster_service.py:163-193 | the cluster of the reference choice among the open rows, or a new one at the end of the table |
| Ledger.Ledger.CreateCaseFromCluster | apps/api/app/services/case_service.py:150-225 | appends one case with the summary of the cluster, its creation times and the closing events of its log; exactly the live reports join it |
| Ledger.Ledger.AttachReportToCase | apps/api/app/services/case_service.py:238-250 | updates exactly the report, the counts of the case to those of the cluster, its severity to the higher of both, and the log by the arrival |
| Ledger.Ledger.PromoteCluster | apps/api/app/services/case_service.py:253-260 | returns the case of the cluster; with a case already there, returns it and changes nothing; otherwise opens one for the live reports |
| Ledger.Ledger.CreateReport | apps/api/app/services/report_service.py:63-140 | refused exactly for an archived platform or a category that is not allowed, without effect; otherwise the report is stored as submitted and joins the nearest eligible cluster, a person is counted once however often she reports there, and a case is made exactly when the cluster had none and now has enough people; the invariant holds |
| Ledger.Ledger.RejectReport | apps/api/app/services/report_service.py:195-216 | the report ends up rejected and no other report changes; its cluster loses it and the person behind no other live report, no other cluster loses anything; the invariant holds |
| Ledger.Ledger.Transition | apps/api/app/services/case_service.py:264-302 | succeeds exactly from the statuses the state machine lists for the target text, leads there and closes or dismisses the cluster with the case; otherwise InvalidTransition and no change |
| Ledger.Ledger.Review | apps/api/app/services/case_service.py:305-333 | "emic" ends in reported_emic, "community" in community_open, "dismiss" in dismissed; a second review and an unknown decision fail, exactly |
| Ledger.Ledger.ReportToEmic | apps/api/app/services/case_service.py:336-374 | exactly from pending review and the two community statuses; ends in reported_emic with the channel and what EMIC answered |
| Ledger.Ledger.UpdateEmic | apps/api/app/services/case_service.py:377-424 | exactly on a case reported to EMIC; stores or clears the submitted fields; closes or moves to processing where that is allowed, otherwise the edits are undone |
| Ledger.Ledger.CommunitySubmit | apps/api/app/services/case_service.py:427-444 | exactly from community_open, to community_submitted |
| Ledger.Ledger.CommunityConfirm | apps/api/app/services/case_service.py:447-462 | exactly from community_submitted; approval closes the case, refusal reopens it |
| Ledger.Ledger.Execute | apps/api/app/services/case_service.py:264-480 | any call on a case keeps the invariant, and a failing one changes nothing |
| Situation.ReportsAreConserved | apps/api/app/services/situation_service.py:133-176 | cluster counts plus unclustered live reports equal all live reports |
| Situation.PromotedExactlyOnce | apps/api/app/services/cluster_service.py:203-213 | a cluster without a case has fewer people than required, however one report per person is picked; no cluster has two cases; it is closed or dismissed exactly when its case is; every case opened by the threshold records exactly the required number of people, if at least one is required |
| Situation.PromotionIsStable | apps/api/app/services/case_service.py:253-260 | however much later, promoting a promoted cluster again changes nothing and gives the same case |
| Situation.CaseSummary | apps/api/app/services/case_service.py:242-245 | the counts on a case are the number of live reports of its cluster and of the people behind them, and its severity bounds theirs |
| Situation.MapCollection | apps/api/app/services/situation_service.py:279-313 | the features are the selected cases, clusters and reports, each once, newest first within a layer, and up to the caps no selected row is missing while an older one is there |
| Situation.MapShowsOnlyLiveIncidents | apps/api/app/services/situation_service.py:287-312 | on reachable tables the public map shows a live report exactly when the case its cluster became is unfinished, a cluster exactly when no case was made of it, a case exactly while it is unfinished, each only since the given time; the console map shows finished incidents as well |
| Situation.FinishedStaysOffTheMap | apps/api/app/services/situation_service.py:287-312 | from the moment a case is finished, it, its cluster and its reports are off the public map for good |
| Situation.FiguresAddUp | apps/api/app/services/situation_service.py:97-108 | open cases split into pending, active and community ones and into the four severity tiers; the high-risk ones are the upper two tiers; total is open plus closed |
| Situation.FiguresCount | apps/api/app/services/situation_service.py:97-108 | each figure is the number of the cases it speaks of, by status or by severity among the unfinished |
| Progress.Progress | apps/api/app/services/presenters.py:131-155 | the steps of the path, each with the time of the first listed event that moved the case there, if any did |
| Progress.ProgressIsAPrefix | apps/api/app/services/presenters.py:131-155 | for every consistent case and any selection of its events: exactly one step is current, it is the status, and the reached steps are a prefix that contains it |
| Progress.PathIsWalkable | apps/api/app/domain/case_states.py:145-150 | the path of a track is a legal one from pending review to closed through every status of the track, none twice |
| LineSimplification.RdpIsIdempotent | apps/api/app/utils/geo.py:167-181 | simplifying a simplified line changes nothing, for any line, tolerance and measure |
| LineSimplification.SplitSurvives | apps/api/app/utils/geo.py:173-178 | the first farthest vertex of the input is the first farthest vertex of the output |
| LineSimplification.RdpStaysWithinTolerance | apps/api/app/utils/geo.py:167-181 | the output is a subsequence with both ends, and every dropped vertex is within tolerance of the line through the kept ones around it |
| LineSimplification.FlatPieceComesBack | apps/api/app/utils/geo.py:167-181 | with a negative tolerance, on a line that is somewhere flat, the recursion comes to a piece for which it calls itself again; otherwise it ends and keeps every vertex |
| Polyline.Farthest | apps/api/app/utils/geo.py:170-178 | the scan finds the first farthest interior vertex, and 0 when none is off the chord |
| Polyline.SimplifyByDistance | apps/api/app/utils/geo.py:167-181 | equals the reference for the geometric distance, whenever the recursion ends |
| Polyline.DistanceIsToTheLine | apps/api/app/utils/geo.py:171-176 | the compared quantity is within the limit exactly when some point of the line is that near |
| Polyline.OnlyRedundantExactly | apps/api/app/utils/geo.py:167-181 | of every line the recursion drops only vertices on the line through the kept ones around them, exactly when the tolerance is not positive |
| Polyline.OneRound | apps/api/app/utils/geo.py:185-187 | one thinning round keeps both ends and the order; with a cap of three or more it shortens the line, with a smaller one it stays above the cap |
| Polyline.StrideIsNearest | apps/api/app/utils/geo.py:186-186 | the stride is the nearest whole number to the quotient, the even one of two, and at least two |
| Polyline.MultiplesAt | apps/api/app/utils/geo.py:186-187 | a round takes every stride-th vertex from the first on, all of them |
| Polyline.ThinDraws | apps/api/app/utils/geo.py:183-188 | thinning draws every vertex from the line, never going back, and keeps both ends |
| Polyline.ThinningIsStuck | apps/api/app/utils/geo.py:185-187 | where the loop does not end, each round leaves a line to which the same applies |
| Polyline.SimplifyLine | apps/api/app/utils/geo.py:156-188 | two vertices stay as they are; of more, whatever is dropped before thinning is within the tolerance of the line through the kept vertices around it, and nothing is dropped for a negative tolerance; thinned only if it does not fit, and then it meets the cap |
| Polyline.SimplifiedDraws | apps/api/app/utils/geo.py:156-188 | the whole output comes from the input in order, with both ends, within the cap |
| RateLimiter.SlidingWindowLimiter.Allow | apps/api/app/utils/ratelimit.py:24-37 | for any time: the new queues and the answer; for a time that is not before the last one: accepts exactly when a limiter that never forgets counts fewer than the limit in the last window |
| RateLimiter.SlidingWindowLimiter.Sweep | apps/api/app/utils/ratelimit.py:33-36 | forgets exactly the idle keys |
| RateLimiter.NextRefines | apps/api/app/utils/ratelimit.py:24-37 | pruning and sweeping keep the queues in agreement with the whole history, so no later answer depends on what was forgotten |
| RateLimiter.OrderedCallsAgree | apps/api/app/utils/ratelimit.py:24-37 | after any calls at times that do not decrease, the answer for any key is that of a limiter with an unbounded memory |
| RateLimiter.NoLimitAgrees | apps/api/app/utils/ratelimit.py:30-31 | with a limit of nought or less both refuse, at any times |
| RateLimiter.LimitOneAgrees | apps/api/app/utils/ratelimit.py:24-37 | with a limit of one they agree after any calls at any times, as long as at most 10,000 keys have called |
| RateLimiter.SweepForgets | apps/api/app/utils/ratelimit.py:33-36 | with a limit of one and one key more, any step back of the clock can bring a swept hit into the window: the call is accepted, at the limit |
| RateLimiter.EveryKeyRests | apps/api/app/utils/ratelimit.py:27-30 | whatever the history, a window after the last call nothing young is stored for any key, and there is nothing young to store |
| RateLimiter.BackwardsClockForgets | apps/api/app/utils/ratelimit.py:25-30 | with a limit of two or more, for any key that has rested and any step back: ordered calls after which a call that much earlier is accepted although the limit is reached |
| RateLimiter.BackwardsClockRefuses | apps/api/app/utils/ratelimit.py:25-31 | likewise: calls with that one step back after which a call not before any of them is refused although the limit is not reached |
| RateLimiter.AnyWindowHoldsAtMostLimit | apps/api/app/utils/ratelimit.py:24-37 | any half-open interval of window length holds at most the limit of accepted hits per key |
| RateLimiter.QueueIsWindow | apps/api/app/utils/ratelimit.py:27-30 | after pruning, the length of the queue is the number of hits in the window of the whole history |
| Accounts.AccountService.Login | apps/api/app/services/auth_service.py:117-152 | successful exactly when the account exists, its lock is over, it is active and the password matches, with a valid token for that account and a clean slate; blocked exactly while the lock lasts; a refusal counts, and locks for the configured minutes exactly when it is one too many; unknown exactly when no account has the name |
| Accounts.AccountService.Logout | apps/api/app/services/auth_service.py:155-159 | no token of the account that was valid before is valid after |
| Accounts.AccountService.ChangePassword | apps/api/app/services/auth_service.py:162-174 | succeeds exactly for a matching, acceptable and different password, with a token of the next version; otherwise the first error and no change |
| Accounts.AccountService.CreateUser | apps/api/app/services/auth_service.py:187-205 | exactly for a well-formed unused name, a known role and an acceptable password: one new active account at version nought; otherwise the first error and no change |
| Accounts.AccountService.BootstrapAdmin | apps/api/app/services/auth_service.py:258-273 | creates an administrator exactly when an initial password is configured and there is no account |
| Accounts.AccountService.UpdateUser | apps/api/app/services/auth_service.py:208-255 | all requested changes, one version further for each, or none, with the first objection: unknown role, own role, only administrator, own deactivation, only administrator, weak password |
| Accounts.UpdatedMeans | apps/api/app/services/auth_service.py:208-255 | the same of the reference update, for any accounts and any change |
| Accounts.LockoutBound | apps/api/app/services/auth_service.py:126-145 | within one lock length without success or reset, the unblocked failures are at most the threshold less those already counted, and none once locked to its end |
| Accounts.FailuresStayBelow | apps/api/app/services/auth_service.py:130-137 | between calls the stored failure count is below the threshold |
| Accounts.TokenLivesUntilRevoked | apps/api/app/services/auth_service.py:95-113 | versions never fall, and a valid token is valid after a history exactly when no call of it revoked it |
| Accounts.RevokedForever | apps/api/app/services/auth_service.py:155-243 | no token issued before a logout, password change, role change, deactivation or reactivation is ever valid after it |
| Accounts.AnAdminAlwaysRemains | apps/api/app/services/auth_service.py:208-255 | once there is an active administrator, no sequence of calls, combined changes included, leaves none |
| LineBinding.LineService.BindGroup | apps/api/app/services/line_service.py:78-101 | exactly for a well-formed group id: the platform has the group since then and the row points back; the platform that had the group forgets it, the groups the platform had are merely joined, nothing else changes |
| LineBinding.LineService.Unbind | apps/api/app/services/line_service.py:104-114 | the platform has no group and no time of binding any more, the row of the group it had is joined and points nowhere, nothing else changes |
| LineBinding.LineService.HandleEvent | apps/api/app/services/line_service.py:130-176 | joining makes or revives the row; leaving marks it, frees the platform it pointed to, and leaves no platform with the group; a code binds the first platform that shows it; whether it counts; nothing else changes |
| LineBinding.HandledMeans | apps/api/app/services/line_service.py:130-176 | the same of the reference, for any event and state |
| LineBinding.LineService.HandleWebhook | apps/api/app/services/line_service.py:127-176 | the events are handled one after the other, each at its own time, and as many are counted as are handled; the two sides keep agreeing and no other configuration key changes |
| LineBinding.HandledAllKeeps | apps/api/app/services/line_service.py:127-176 | the same of the reference, for any list of events |
| LineBinding.LineService.SetBinding | apps/api/app/services/line_service.py:43-51 | sets or removes the two binding keys of one platform |
| LineBinding.LineService.BindCode | apps/api/app/services/line_service.py:54-61 | keeps a code unless there is none or a new one is asked for, and changes nothing else |
| LineBinding.BindingIsOneToOne | apps/api/app/services/line_service.py:86-98 | no group serves two platforms and no platform has two groups |
| LineBinding.BindingSurvivesEveryRun | apps/api/app/services/line_service.py:78-176 | after any sequence of calls a platform is configured for a group exactly when the row of the group points at it, a row is bound exactly when it has a platform, and no other configuration key but the binding code changed |
| LineBinding.WebhookIsRun | apps/api/app/services/line_service.py:130-176 | handling a webhook body is the run of the events it brings, so what holds of runs holds of it |
| LineBinding.CodeSurvivesEveryRun | apps/api/app/services/line_service.py:54-61 | the binding code of a platform changes only when it is shown for the first time or renewed on request |
| Selection.ModuleRegistry.Register | apps/api/app/modules/registry.py:15-21 | rejects a repeated id and a layer without key, otherwise appends |
| Selection.ModuleRegistry.ValidateIds | apps/api/app/modules/registry.py:50-59 | succeeds exactly when all ids are registered, with the specs in the order in which their ids first occur; otherwise names the first unknown id |
| Selection.ModuleRegistry.CloseOver | apps/api/app/services/platform_service.py:85-93 | for any registry, cycles included, ends with the least set that contains the seed and is closed under registered dependencies |
| Selection.ModuleRegistry.ResolveSelection | apps/api/app/services/platform_service.py:60-99 | succeeds exactly for registered modules and layer keys; the answer lists the least set with the named modules, the core ones, the first module of each named layer and all registered dependencies |
| Selection.ClosureIsUnique | apps/api/app/services/platform_service.py:85-93 | there is one closure, so set iteration order cannot matter |
| Selection.ClosureIsLeast | apps/api/app/services/platform_service.py:82-93 | a closure of the seed is the least set that meets the request |
| SelectionFacts.ModulesInOrder | apps/api/app/services/platform_service.py:94-94 | the modules come out once each in registration order, exactly the selected ones |
| SelectionFacts.LayersInOrder | apps/api/app/services/platform_service.py:95-95 | without a request the keys of exactly the selected layers come out in registration order |
| SelectionFacts.SortIsGrouping | apps/api/app/services/platform_service.py:96-98 | the stable sort groups all copies of each requested key in the order of the request, then the rest as they were |
| SelectionFacts.SortPermutes | apps/api/app/services/platform_service.py:96-98 | sorting keeps the multiset of keys |
| SelectionFacts.RequestedLayersComeFirst | apps/api/app/services/platform_service.py:78-98 | with unique layer keys the requested layers come first in the caller's order, then the other selected ones in registration order, none twice |
| SelectionFacts.AnswerIsUnique | apps/api/app/services/platform_service.py:60-99 | a valid request has one answer |
| SelectionFacts.AgainSameModules | apps/api/app/services/platform_service.py:82-94 | completing a completed selection gives the same modules exactly when the key of every selected layer leads back to a selected module |
| SelectionFacts.AgainSameOrder | apps/api/app/services/platform_service.py:95-98 | sorting the layers by the order they came out in changes nothing exactly when equal keys stand together in it |
| SelectionFacts.ResolvingAgain | apps/api/app/services/platform_service.py:60-99 | completing a completed selection changes neither list exactly when both conditions hold |
| SelectionFacts.ResolvingAgainChangesNothing | apps/api/app/services/platform_service.py:60-99 | with unique layer keys both conditions hold |
| SelectionFacts.SharedKeyAddsModule | apps/api/app/modules/registry.py:38-42 | a registry with a shared layer key for which completing again adds a module |
| SelectionFacts.SharedKeyMovesLayer | apps/api/app/services/platform_service.py:96-98 | a registry with a shared layer key for which completing again moves a layer |
| LayerCache.StepKeepsInv | apps/api/app/services/official_data_service.py:168-186 | every atomic step of any reader keeps locks, entries and log consistent |
| LayerCache.SingleFlight | apps/api/app/services/official_data_service.py:176-186 | under any schedule at most one fetch per entry is in flight, and at most one per key if every clear so far found nobody using an entry of that key |
| LayerCache.ClearMeetsReader | apps/api/app/services/official_data_service.py:176-186 | from any consistent state, if a clear finds somebody using an entry of a key, at whatever stage, some continuation has two fetches of that key in flight |
| LayerCache.ClearAllowsTwoFetches | apps/api/app/services/official_data_service.py:241-243 | a run from the start in which clearing the cache lets two fetches of one key overlap |
| LayerCache.FetchesAreSpaced | apps/api/app/services/official_data_service.py:180-186 | after any fetch that returned, failed or not, unforced fetches of that entry start at least the shorter of the time to live and 60 seconds later |
| LayerCache.FetchesOfKeyAreSpaced | apps/api/app/services/official_data_service.py:176-186 | so do those of that key, if the cache was not cleared after some moment before that fetch returned at which all readers of the key used its current entry |
| LayerCache.EarlierClearSpoilsSpacing | apps/api/app/services/official_data_service.py:176-186 | a run with one clear, before both fetches, that met a reader: the key is fetched twice in one moment although the first fetch returned |
| LayerCache.CachedAnswersAreCurrent | apps/api/app/services/official_data_service.py:181-182 | a cached answer is the latest returned result of its entry and unexpired |
| LayerCache.CachedAnswersOfKeyAreCurrent | apps/api/app/services/official_data_service.py:176-182 | it is the result of the latest of all fetches of its key, if every clear found nobody using an entry of the key |
| LayerCache.CheckDecides | apps/api/app/services/official_data_service.py:181-183 | an unforced check fetches exactly when no fetch has returned yet or the latest that did has expired, and otherwise answers with that one |
| LayerCache.RaisedFetchIsNotRemembered | apps/api/app/services/official_data_service.py:144-148 | after a fetch that raised, forced or not, the next unforced reader of the entry is where it would be without that fetch: it fetches, however soon, exactly when nothing alive is stored |
| LayerCache.RaisedFetchIsRepeated | apps/api/app/services/official_data_service.py:144-148 | a run from the start, without force or clear, in which a key is fetched again in the moment in which its fetch failed |
| LayerCache.LayerService.LookUp | apps/api/app/services/official_data_service.py:176-179 | finds the entry of the key or adds one, and touches no other; keeps the invariant |
| LayerCache.LayerService.TryLock | apps/api/app/services/official_data_service.py:180-180 | the lock of an entry is taken exactly when it is free |
| LayerCache.LayerService.CheckEntry | apps/api/app/services/official_data_service.py:181-183 | answers from the entry exactly when it is not forced and a result is stored that has not expired; otherwise the reader is fetching |
| LayerCache.LayerService.Store | apps/api/app/services/official_data_service.py:184-186 | the entry holds the result, for the time to live if it is fit, otherwise for at most a minute, and is free; no other entry changes; keeps the invariant |
| LayerCache.LayerService.Abandon | apps/api/app/services/official_data_service.py:180-183 | a fetch that raises gives up the lock and stores nothing; keeps the invariant |
| LayerCache.LayerService.ClearCache | apps/api/app/services/official_data_service.py:241-243 | drops every key and no entry; keeps the invariant |

## Left out

- Tables and case rows are values inside the sequences that the `Ledger` methods reassign; aliasing between two loaded copies of one row is not modelled.
- Case numbers, titles, location labels, towns, photos and outbox events: they follow from the modelled data and decide nothing.
- The order of the report.received events of a new case is table order; the source inserts them by report time, and readers sort the log by time.
- `policy_from_dict` and `escalate`: the policy and the triaged severity of a report are inputs; severities are the four known ones.
- Cases.MovedStamps: a call reads one clock once; in the source the time of an event without an explicit time is set by the database, a moment after the stamp.
- Situation.MapCollection: ties between rows of the same time are broken arbitrarily by the database, here in table order; the fields of a feature are left out.
- Trends, medians and the groupings by category and town.
- Polyline.SimplifyLine: uses exact reals in place of floating point and squared distances in place of distances; inputs on which the source does not end are excluded.
- Accounts.AccountService.Login: leaves out password hashing, the normalisation of user names and the audit trail.
- Accounts.RevokedForever: leaves out the expiry and the signature of tokens, which only invalidate more of them.
- Accounts.AccountService.CreateUser: whether the characters of a name are allowed is an input.
- LineBinding.LineService.HandleWebhook: leaves out replies, the recognition of the binding command in a text and the trimming of a group id typed by hand; platforms are searched for a code in table order.
- LayerCache.FetchesAreSpaced: says nothing about fetches that raised, for the reason given above; `LayerCache.CheckDecides` does. The spacing per key needs that no reader of the key was left behind by an earlier clear.
- Selection.ModuleRegistry.ResolveSelection: the default modules and layers of a scenario profile are inputs.
- Deleting platforms and their rows, seeding and pruning of demonstrations, and configuration overrides that write the LINE or policy keys directly.
- Concurrent transactions on one platform or account, and the bounded retry on a case-number collision.
- Distances on the sphere, coordinate conversion, privacy masking, slugs, connectors, mail, LINE and EMIC transport, the web front end.
