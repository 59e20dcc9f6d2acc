# ModelKeyGuard: a verified model

ModelKeyGuard sits between callers and model providers. It admits a request by reserving its estimated cost in every
quota lane it touches (principal, user, key, token; several periods each), settles the actual cost later, and keeps
its state in an append-only graph store. This project models the parts of it in which something can go wrong quietly:
concurrent admissions and settlements, stores that must load back, logs and caches that must agree. It states what
these parts guarantee, for every input and every interleaving, and where they guarantee less than one would expect it
says exactly when.

Verify everything with `dafny verify dfyconfig.toml` (Dafny 4.11).

## How it is organised

- **The quota protocol.** `Reservations` has the reservation table and its rewrites, `Protocol` the step system: a
  call is a small program, one step is one read, one comparison, one compare-and-swap or one ledger append of one
  call, the clock moves between any two steps, and a call can be lost anywhere. No lock is assumed. `Settlement`,
  `CrashRepair`, `Admission`, `AdmissionBound`, `SweepReport` and `RowLife` prove what holds in every run; `Charging` says
  which lanes a request is charged in, `CallEffects` what each call does, in terms of requests, lanes and rows alone, and
  `CallEnds` how calls end; `Counterexamples` has two runs that show why the side conditions are there. `Guard` is the imperative code of the same operations, proved
  against the outcomes that `SoloRuns` shows the protocol's uninterrupted calls to have. `Calendar` has the quota
  periods.
- **The stores.** `ProjectionSwap` (the two loops of the compare-and-swap), `GraphState` (log, replay, restart),
  `UsageLedger` (the linked usage ledger), `VersionedSwap` (the Postgres swap with version numbers), `RevisionLog`
  and `RevisionHistory` (the Kogwistar revision log).
- **Quota policies.** `QuotaPolicy` (revisions, the search for a free revision id, the cached list), `QuotaRuns`.
- **Smaller protocols.** `Idempotency` and `IdempotencyClaims`, `ReviewWindows` and `ReviewRuns`, `HistoryWindow`,
  `KeyLifecycle` and `KeyRuns`, `SealedPayload` and `Base64` (RFC 4648, sections 3.2, 4 and 5).
- `Prelude`, `FiniteSums`, `Text` and `TextOrder` are shared vocabulary.

Money is counted in whole units of 1e-8 USD, the precision to which the counters are rounded. The clock is an input
that never goes back. Calls into code outside the repository (HMAC, hashing, JSON) are arbitrary functions with only
the properties named in the contracts.

## What it found

- A settlement whose reservation has expired can take a lane over its limit, because admission has stopped counting
  the reservation (`Counterexamples.LateSettlementOverdraws`). `AdmissionBound.RiseExactly` says exactly which
  settlements and updates raise a lane's load; on a lane where none does, the bound holds in every run.
- Two settle calls of one request that both stand before the append of its ledger event leave two events
  (`Counterexamples.OverlappingSettlesBookTwice`). That is the only way: a request can get a second event if and only
  if two of its calls stand there at the same moment (`CrashRepair.SecondEventExactly`).
- The stale-reservation sweep returns its counts even when every attempt of its swap lost, so the report is true
  exactly when there was nothing to sweep or an attempt found the table it read (`SweepReport.ReportTrueExactly`).
- An operator who keeps a request uncertain takes it off the queue of uncertain requests, while it goes on holding its
  estimate in every lane without ever lapsing (`RowLife.ResolutionEffect`, `RowLife.AbandonedKeepsHolding`).
- A quota registered under an empty name is never superseded or revoked (`QuotaRuns.EmptyNameKeepsAll`). The
  registration functions and the `set-quota` command built on them accept such a name; the admin routes refuse it
  (modelkeyguard/routers/admin_policy.py:593, 618, 727).
- Completing a review run compares the target with a cursor read under field names the checkpoint does not have, so
  overlapping runs can move the checkpoint back without any swap meeting a conflict
  (`ReviewRuns.OverlapTakesCheckpointBack`); completing keeps the windows a partition exactly if the checkpoint is
  still the one the run started from.
- A claimant that writes its outcome, or removes its record, after its idempotency claim has expired can end its
  successor's claim early (`IdempotencyClaims.LateWriteBreaksExclusion`). Claims are exclusive exactly when every
  write and removal that lands while the latest claim lasts comes from a claimant whose own claim still lasts
  (`IdempotencyClaims.ClaimsAreExclusiveExactly`).
- Rotating a key accepts an empty secret, and the new ref then never resolves (`KeyRuns.RotatedResolves`).
- Two ledger subjects that differ only in colons and underscores overwrite each other's events. An event survives
  exactly if no later append lands on its usage node (`UsageLedger.EventSurvivesExactly`), and the ledger is the
  history of the appends exactly if all subjects stay apart (`UsageLedger.LedgerIsHistoryExactly`).
- Removing an idempotency record restarts its versions in Postgres. A reader that waits through the removal and a new
  claim can then swap by version over a record it never read (`VersionedSwap.RemovalHidesAChange`);
  `VersionedSwap.VersionsConfuseExactly` says which readings are open to this.

## Model

| member | source | states |
|---|---|---|
| AdmissionBound.AdmissionBound | modelkeyguard/core.py:337-382 | in every run with fresh request ids, a lane that no settlement and no update raises keeps usage in the current period plus live reservations within each limit of each of its policies, through retries, crashes and period rollovers |
| AdmissionBound.OrderlyRunsStayBounded | modelkeyguard/core.py:234-382 | the same for every lane at once, when settlements and updates touch reservations that still count and actual costs stay within the estimates |
| AdmissionBound.RiseExactly | modelkeyguard/core.py:249-322 | a step that is not an admission raises a lane's load if and only if it is a settlement that debits more than the hold it gives back, or an update that revives a row that no longer counted |
| AdmissionBound.SettleBalance | modelkeyguard/core.py:287-317 | a settlement moves each lane's load by exactly the debit that falls in the current period less the hold of the reservation it closes |
| AdmissionBound.EditRaises | modelkeyguard/reconciliation.py:133-158 | sweeps and reconciliations never raise any lane's reserved total; an update raises it exactly when it revives a lapsed or closed row that lists the lane |
| AdmissionBound.OrderlyNeverRaises | modelkeyguard/core.py:384-400 | no orderly settlement or update raises any lane |
| AdmissionBound.NothingAdded | modelkeyguard/core.py:249-322 | over a run without raising steps nothing is added to the lane's allowance |
| Admission.AlwaysSafe | modelkeyguard/core.py:346-382 | in every run with fresh ids each lane's load stays within its limits plus what steps other than admissions added to it, and every open reserve call still has the room it established or can no longer succeed |
| Admission.AdmitBounded | modelkeyguard/core.py:354-378 | the admission swap itself keeps the bound: if the table is the one the call read, its checks cover every policy of every lane of the new row |
| Admission.AdmitLoad | modelkeyguard/core.py:366-377 | an admission changes no counter and adds at most the estimate to the lanes of the new row, nothing to others |
| Admission.AdmitRows | modelkeyguard/core.py:349-375 | the table an admission swap leaves is the current one without closed rows plus the one new reservation |
| Admission.StaleDiffers | modelkeyguard/graph_state.py:318-330 | a table that shows a newly admitted or newly settled request is not the one an earlier reader saw |
| Admission.StaleStays | modelkeyguard/core.py:410-433 | once a snapshot is stale it stays stale whatever runs next: the reservation row never returns to an old value |
| Admission.SettledIsStale | modelkeyguard/core.py:305-322 | a settlement that closes a row makes every earlier snapshot of the table stale |
| Admission.OthersObliged | modelkeyguard/core.py:356-365 | an action of another call leaves a reserve call's established room intact, up to its own rise, or makes its snapshot stale |
| Admission.ActObliged | modelkeyguard/core.py:356-365 | reading the usage and passing the comparisons builds up room policy by policy |
| Admission.UsedFalls | modelkeyguard/graph_state.py:270-273 | when the clock moves, also into a new period, a lane's current usage does not grow |
| Admission.LoadFalls | modelkeyguard/core.py:435-448 | passing time alone never raises a lane's load |
| Admission.EveryPolicyChecked | modelkeyguard/core.py:354-356 | a request that touches a lane is checked against every policy of that lane |
| Admission.FreshIdsStep | modelkeyguard/core.py:346-348 | with fresh request ids a request being reserved has not been admitted and no other call is reserving it |
| Admission.KnownStep | modelkeyguard/core.py:305-322 | rows belong to admitted requests, a settlement time on a row implies the request's marker, and pending writes drop no row |
| Settlement.CountersRebuildable | modelkeyguard/core.py:268-321 | in every reachable state each counter equals the sums over exactly the markers that list its lane and were settled in its period |
| Settlement.DebitedAtMostOnce | modelkeyguard/core.py:245-322 | in every run a request is debited at most once, and it is debited exactly if its marker stands |
| Settlement.MarkersArePermanent | modelkeyguard/core.py:251-256 | a marker once written is never changed or removed, also after its reservation is pruned |
| Settlement.DebitIsOncePerLane | modelkeyguard/core.py:268-322 | in every run the debiting step adds the actual amounts and one request once to each lane of the reservation found, or without one to each lane the caller is charged in, whatever duplicates the lane list holds; it touches no other counter, closes the reservation it found and changes no other row |
| Settlement.AnswersAreTrue | modelkeyguard/core.py:249-335 | a call that answers False changed neither store nor ledger; a settlement that answers True leaves the request settled |
| Settlement.LanesAlwaysCovered | modelkeyguard/core.py:276-290 | lanes still to read and lanes read are together the lanes of the call |
| Settlement.StoreCases | modelkeyguard/core.py:245-433 | the store changes in three ways only: an admission swap, a settlement swap, an edit swap |
| Settlement.SettleCounters | modelkeyguard/core.py:291-303 | a settlement bumps a counter exactly if its lane is debited and it is the one of the settlement's own period |
| Settlement.SettleMarks | modelkeyguard/core.py:309-321 | a settlement writes the marker of a request that had none and touches no other marker |
| CrashRepair.LedgerRepaired | modelkeyguard/core.py:253-330 | in every run in which no two calls stand before the append of a request's event together, whatever crashes, the ledger never has two events of it and an event always carries the marker's amounts |
| CrashRepair.SecondEventExactly | modelkeyguard/core.py:253-330 | for every run: no two calls ever stand before the append of the request's event together if and only if at no moment of the run two further actions could leave it with two events |
| CrashRepair.TwoPendingBookTwice | modelkeyguard/core.py:256-330 | two calls that both stand before the append leave two events as soon as both go on |
| CrashRepair.NoOverlapIsEnough | modelkeyguard/core.py:253-330 | a request whose settle calls never overlap never has two events |
| CrashRepair.TrueMeansOneEvent | modelkeyguard/core.py:253-333 | when besides no append raises and a ledger subject is known, every settlement that answers True leaves exactly one event |
| CrashRepair.ActKeepsMarkers | modelkeyguard/core.py:253-268 | no action changes a standing marker, and the settlement swap adds one saying what was debited |
| SweepReport.ReportTrueExactly | modelkeyguard/reconciliation.py:87-158 | over the whole call with all its retries and any steps of other workers in between: the counts a sweep returns are the rows its own actions changed if and only if there was nothing to sweep or one of its attempts found the table it read |
| SweepReport.SwapChanges | modelkeyguard/reconciliation.py:103-119 | one attempt changes all the rows that were counted, or none |
| SweepReport.ReportCountsRows | modelkeyguard/reconciliation.py:143-155 | the counts add up to the number of rows the sweep rewrites |
| RowLife.ReservationHoldsUntilDeadline | modelkeyguard/core.py:346-382 | over every run with fresh ids a reservation that no settlement or edit of its own id touches is neither dropped nor altered by other calls before its deadline; it holds its estimate in each of its lanes until then and nothing afterwards |
| RowLife.AbandonedKeepsHolding | modelkeyguard/reconciliation.py:133-158 | over every run with fresh ids a forwarded or uncertain request that nobody names stays in the table, at most turning uncertain, and never stops holding its estimate |
| RowLife.UpdateEffect | modelkeyguard/core.py:384-400 | an update sets the state it names, replaces given figures, keeps missing ones and everything the row was admitted with, and decides by its state alone whether the request is queued and whether it holds its estimate |
| RowLife.OnlyUncertainResolves | modelkeyguard/reconciliation.py:168-171 | an operator's word is taken on uncertain requests and on no others |
| RowLife.ResolutionEffect | modelkeyguard/reconciliation.py:215-222 | an operator's word takes exactly that request off the queue and touches no other row; released gives back its hold, kept uncertain does not |
| RowLife.ConfirmationEffect | modelkeyguard/reconciliation.py:203-213 | confirming a settlement closes the row for good, records the actual amounts and gives back whatever it held |
| Counterexamples.LateSettlementOverdraws | modelkeyguard/core.py:435-448 | a run with distinct ids and in-estimate costs that ends with one request used and one held in a lane limited to one |
| Counterexamples.OverlappingSettlesBookTwice | modelkeyguard/core.py:253-330 | a run of two overlapping settlements of one request that leaves two ledger events |
| Reservations.ReservedTotals | modelkeyguard/core.py:435-448 | the loop returns, for usd, tokens and requests, the sum of the estimates of all live rows that list the lane |
| Reservations.HeldUpdate | modelkeyguard/core.py:435-448 | changing one row changes a lane's reserved total by exactly that row's hold |
| Reservations.HeldFalls | modelkeyguard/core.py:439-443 | as time passes reservations only lapse |
| Reservations.PruneNeutral | modelkeyguard/core.py:349-351 | dropping settled and released rows leaves every lane's reserved total as it was, now and later |
| Reservations.SweepNeutral | modelkeyguard/reconciliation.py:133-158 | a sweep leaves every lane's reserved totals unchanged at its own time and at every later time |
| Reservations.SweepNeutralExactly | modelkeyguard/reconciliation.py:143-153 | at an arbitrary time it does so if and only if it releases no row that charges the lane then |
| Reservations.SweepIdempotent | modelkeyguard/reconciliation.py:133-158 | a second sweep at the same time changes nothing |
| Reservations.ClassifyStale | modelkeyguard/reconciliation.py:142-155 | the loop returns the swept table and counts exactly the rows that turn uncertain and the rows that are released |
| Reservations.CountsZeroExactly | modelkeyguard/reconciliation.py:156-157 | the counts are both zero if and only if the sweep changes nothing |
| Reservations.SweepQueuesAbandoned | modelkeyguard/reconciliation.py:122-130 | the queue of uncertain requests grows by exactly the abandoned ones that were not reconciled, and loses none |
| Reservations.SweepLeavesNothingStale | modelkeyguard/reconciliation.py:142-155 | after a sweep no row past its deadline is reserved, forwarding or streaming; of such a row only state and time stamp change, and of no other row anything |
| Guard.ModelKeyGuard.ReserveAdmission | modelkeyguard/core.py:337-382 | alone on the store, a request is let in if and only if it already holds a row or fits every policy; its reservation is the only change (an existing table without rows refuses, and `SoloRuns.TablesHaveRows` shows that no run leaves one) |
| Guard.ModelKeyGuard.SettleReservation | modelkeyguard/core.py:234-335 | alone on the store, it always succeeds; an unsettled request gets exactly the protocol's settlement swap and one ledger event, a settled one at most the missing event |
| Guard.ModelKeyGuard.SettleUpdates | modelkeyguard/core.py:275-321 | the update list has distinct keys and stands for the protocol's settlement writes and expectations |
| Guard.ModelKeyGuard.CounterUpdates | modelkeyguard/core.py:281-303 | one counter update per distinct lane, whatever the lane list repeats |
| Guard.ModelKeyGuard.HasLedgerEvent | modelkeyguard/core.py:256-260 | finds a ledger event of the request if and only if a node of one exists |
| Guard.ModelKeyGuard.WithinLimits | modelkeyguard/core.py:360-365 | passes exactly if used plus reserved plus estimate stays within each limit the policy has |
| Guard.ModelKeyGuard.UpdateReservation | modelkeyguard/core.py:384-400 | alone on the store, it rewrites the one row, or nothing when there is none |
| Guard.ModelKeyGuard.SwapTable | modelkeyguard/core.py:410-433 | replaces the table if and only if it is the one read, a table without rows being compared as absent |
| Guard.ModelKeyGuard.ReplaceReservation | modelkeyguard/reconciliation.py:87-119 | replaces the table if and only if it is the one read, for every number of retries |
| Guard.ModelKeyGuard.ExpireStaleReservations | modelkeyguard/reconciliation.py:133-158 | alone on the store, the table is swept and the counts are the rows changed |
| Guard.ModelKeyGuard.MarkReconciled | modelkeyguard/reconciliation.py:161-222 | succeeds if and only if the request is uncertain; settling goes through the settlement swap, so a request debited before is not debited again and gets at most its missing ledger event |
| Guard.ReadLanesAre | modelkeyguard/core.py:283-292 | the counters read are exactly those of the listed lanes in the settlement's period |
| CallEffects.AdmissionHolds | modelkeyguard/core.py:349-375 | an admitted request holds its estimate in every lane its caller is charged in (principal, key, user and token when known, in the period of each policy) up to the time to live after its start, and nothing elsewhere or later; closed rows are dropped and open ones kept |
| CallEffects.AdmittedHoldsItsLanes | modelkeyguard/core.py:337-382 | in every run with fresh ids, from the step that lets a request in until it is settled or edited by name, it holds its estimate in exactly these lanes until the time to live is over |
| CallEffects.AdmittedExactly | modelkeyguard/core.py:337-382 | from every reachable state, a reserve call running alone is answered True if and only if its request holds an open row or every policy of every lane it is charged in has room for usd, tokens and one request; it then holds its estimate there, and otherwise nothing changes |
| CallEffects.SettlementDebits | modelkeyguard/core.py:271-303 | the settlement of an unsettled request adds its amounts to the counters of its row's lanes, or without a row of the caller's lanes, in the settlement's period, and to no other counter |
| CallEffects.SettlementRecords | modelkeyguard/core.py:305-321 | it closes the request's row with the actual figures, leaves every other row and marker, and its marker says what was debited where |
| CallEffects.SettledExactly | modelkeyguard/core.py:234-335 | from every reachable state, a settle call running alone answers True; a request is debited, closed and booked to its user, or else its principal, if it was not settled before, and gets at most its missing event if it was |
| CallEffects.UpdatedExactly | modelkeyguard/core.py:384-400 | from every reachable state, an update running alone gives the row the state and figures named, keeps everything else, and queues the request exactly if it was made uncertain and is not reconciled |
| CallEffects.SweptExactly | modelkeyguard/reconciliation.py:133-158 | from every reachable state, a sweep running alone turns rows past their deadline uncertain or released and changes no other |
| CallEffects.ResolvedExactly | modelkeyguard/reconciliation.py:168-222 | from every reachable state, releasing or keeping a request succeeds if and only if it is uncertain, takes it off the queue and changes no other row |
| CallEffects.ReconciledExactly | modelkeyguard/reconciliation.py:161-213 | from every reachable state, confirming an uncertain request debits the given amounts, or the estimate, unless it was debited before, books it to its principal, and leaves its row settled and reconciled with these figures |
| CallEffects.GuardBooks | modelkeyguard/core.py:253-330 | the ledger event the guard's settlement appends names the bearer, the request and its amounts, and is left out only if one exists or nobody bears it |
| CallEnds.FalseHasAReason | modelkeyguard/core.py:245-382 | in every run a reserve call answers False either because a comparison found a limit exceeded or because it lost its swap once more often than it may retry, a settlement only for the second reason, and no rewrite of the table tries more often than configured |
| CallEnds.LostExactly | modelkeyguard/core.py:253-330 | a call is lost without an answer by a crash or by a failing append during the repair of the ledger, and by nothing else |
| CallEnds.SwallowedAppend | modelkeyguard/core.py:323-331 | a settlement whose own append fails still answers True |
| Charging.ChecksAre | modelkeyguard/core.py:354-355 | a request is checked against exactly the policies of the lanes its caller is charged in |
| Charging.DebitsAre | modelkeyguard/core.py:271-275 | the lanes a settlement lists are those of the row, or without any those the caller is charged in |
| SoloRuns.ReserveAlone | modelkeyguard/core.py:337-382 | from every reachable state, a reserve call of the protocol that runs without interruption lets in and writes what the guard's method is proved to |
| SoloRuns.SettleAlone | modelkeyguard/core.py:234-335 | from every reachable state, a settle call that runs without interruption leaves the projections and the ledger event the guard's method is proved to leave, and answers True |
| SoloRuns.EditAlone | modelkeyguard/core.py:384-433 | from every reachable state, an update, sweep or resolution that runs without interruption makes its edit |
| SoloRuns.ReconcileAlone | modelkeyguard/reconciliation.py:161-222 | from every reachable state, confirming a settlement without interruption is the settlement followed by the confirming edit |
| SoloRuns.TablesHaveRows | modelkeyguard/core.py:410-433 | in every reachable state an existing reservation table has rows, so comparing an empty one as absent loses nothing |
| Calendar.BucketSpansTime | modelkeyguard/graph_state.py:35-51 | every moment lies between the start of its bucket and the start of the next one |
| Calendar.BucketsRise | modelkeyguard/graph_state.py:35-51 | buckets never go back as time passes |
| Calendar.BucketLengths | modelkeyguard/graph_state.py:35-51 | buckets last ten seconds, an hour, a day, seven days, or 28 to 31 days |
| Calendar.WeeksStartOnMonday | modelkeyguard/graph_state.py:44-46 | a week bucket begins at midnight on a Monday |
| Calendar.MonthOfDate | modelkeyguard/graph_state.py:47-48 | every moment of a date of the Gregorian calendar falls in the bucket of its year and month |
| Calendar.PeriodNames | modelkeyguard/graph_state.py:54-60 | a period is named by its word in any case with any white space around it, "lifetime" being "infinite", and everything else is refused |
| ProjectionSwap.TwoLoopsAreOneStep | modelkeyguard/graph_state.py:318-330 | with distinct keys the compare loop and the write loop are one atomic step: everything is written or nothing is |
| ProjectionSwap.ConsistentMeansOrderFree | modelkeyguard/graph_state.py:321-329 | neither the outcome nor the written table depends on the order of the update list |
| ProjectionSwap.OrderFreeExactly | modelkeyguard/graph_state.py:328-329 | the written table is independent of the order if and only if repeated keys carry equal payloads |
| VersionedSwap.Projections.CompareAndSwap | modelkeyguard/postgres_state.py:166-233 | fails on a repeated key, otherwise succeeds if and only if every expectation holds, and then applies the whole list |
| VersionedSwap.ApplyAllSwaps | modelkeyguard/postgres_state.py:203-233 | after the write loop each listed key holds its new row and every other key is untouched |
| VersionedSwap.OrderDoesNotMatter | modelkeyguard/postgres_state.py:174-178 | the order in which the rows are locked changes neither outcome nor table |
| VersionedSwap.BothStoresAgree | modelkeyguard/postgres_state.py:179-233 | on lists that expect no versions the Postgres swap accepts and writes what the JSONL store's swap does |
| VersionedSwap.VersionsRise | modelkeyguard/postgres_state.py:203-233 | a row read once is changed afterwards only by raising its version, as long as nothing after the reading restarts its versions |
| VersionedSwap.VersionedSwapIsValueSwap | modelkeyguard/core.py:205-219 | then a swap expecting the versions once read goes through if and only if the row is the one that was read, whatever happened before the reading |
| VersionedSwap.VersionsConfuseExactly | modelkeyguard/postgres_state.py:123-263 | for every run and every row read in it: swaps and creations can bring the versions read back on another payload if and only if a removal or an unconditional replacement followed the reading |
| VersionedSwap.RemovalHidesAChange | modelkeyguard/gateway.py:1784-1791 | a row is read, removed and created anew, as clearing an idempotency record and a new claim do: the versions read match another payload |
| GraphState.GraphStateStore.PutNode | modelkeyguard/graph_state.py:162-169 | the sentinel node is written once: rewriting it with the same content does nothing, with another is refused |
| GraphState.GraphStateStore.PutEdge | modelkeyguard/graph_state.py:171-173 | memory and log gain the same edge |
| GraphState.GraphStateStore.AppendEvent | modelkeyguard/graph_state.py:175-180 | the event gets the next number and goes to memory and log, in order |
| GraphState.GraphStateStore.PutProjection | modelkeyguard/graph_state.py:182-184 | memory and log gain the same projection |
| GraphState.GraphStateStore.CompareAndSwapNamedProjections | modelkeyguard/graph_state.py:318-330 | True exactly if every expectation matches, and then all payloads are applied; otherwise nothing changes, not even the log |
| GraphState.GraphStateStore.AppendUsageLedgerEvent | modelkeyguard/graph_state.py:292-311 | the nodes, edge and head of one ledger append, each also logged |
| GraphState.GraphStateStore.Load | modelkeyguard/graph_state.py:136-155 | memory becomes the replay of the file, unless a stored sentinel does not open |
| GraphState.Restart | modelkeyguard/graph_state.py:126-155 | a store loaded from the log another has written has the same nodes, edges, events and projections; it fails if and only if the sentinel does not open |
| GraphState.ReplayIsLastWritten | modelkeyguard/graph_state.py:136-155 | a log means, for each node, edge and projection, the last record written under its id, and the events in order |
| UsageLedger.WalkIsTheHistory | modelkeyguard/graph_state.py:292-311 | after any mix of appends to subjects that stay apart and other writes, the walk from a subject's head visits usage nodes 1 to n once each, in order, and ends at the recorded tail |
| UsageLedger.LedgerIsHistory | modelkeyguard/graph_state.py:292-311 | heads, usage nodes and links are exactly those of the appends so far; earlier nodes are unchanged |
| UsageLedger.LedgerIsHistoryExactly | modelkeyguard/graph_state.py:292-311 | for every run: heads, usage nodes and links are those of the appends if and only if no two subjects of the run share their underscored name |
| UsageLedger.StepFromUsage | modelkeyguard/graph_state.py:306-307 | a usage node leads to the next node of its own subject and to nothing else: no branch, no cycle, no foreign link |
| UsageLedger.StepFromHead | modelkeyguard/graph_state.py:308-309 | a head leads to its subject's first usage node and to nothing else |
| UsageLedger.UsageOfInjective | modelkeyguard/graph_state.py:298-303 | different safe subjects or numbers have different usage ids |
| UsageLedger.LinkInjective | modelkeyguard/graph_state.py:306-309 | different links have different edge ids |
| UsageLedger.ScanFindsAppends | modelkeyguard/core.py:256-260 | for subjects that stay apart the scan for a request's event finds one if and only if one was appended |
| UsageLedger.ScanFindsSurvivors | modelkeyguard/core.py:256-260 | in every run the scan finds an event of the request if and only if an event of it has survived |
| UsageLedger.EarlierEventSurvivesExactly | modelkeyguard/graph_state.py:298 | the first event of one subject survives the first of another if and only if their underscored names differ |
| UsageLedger.EventSurvivesExactly | modelkeyguard/graph_state.py:292-311 | for every run and every append in it: its event still stands on its node if and only if no later append of the same underscored subject has the same number |
| RevisionLog.RevisionStore.AppendIfUpdated | modelkeyguard/kogwistar_postgres_state.py:807-931 | a changing write appends a revision, tombstones the one before and moves the projection; an unchanged one appends nothing; the sentinel is refused |
| RevisionLog.RevisionStore.Reload | modelkeyguard/kogwistar_postgres_state.py:683-709 | the entities are read back from the current projections |
| RevisionLog.RevisionIdInjective | modelkeyguard/kogwistar_postgres_state.py:615-617 | the sequence number in a revision id tells records apart whatever entity ids and hashes are |
| RevisionLog.IdsTellKinds | modelkeyguard/kogwistar_postgres_state.py:615-617 | an id says whether it is a revision or a tombstone, of a node or of an edge |
| RevisionLog.DigestIs | modelkeyguard/kogwistar_postgres_state.py:616 | the digest part is the first sixteen characters behind the hash's first colon |
| RevisionHistory.IdsDistinct | modelkeyguard/kogwistar_postgres_state.py:548-551 | no two records of a log share an id |
| RevisionHistory.LinksAreInverse | modelkeyguard/kogwistar_postgres_state.py:825-852 | a tombstone redirects a to b if and only if revision b supersedes a |
| RevisionHistory.OneLiveRevision | modelkeyguard/kogwistar_postgres_state.py:840-862 | an entity has exactly one revision that is not tombstoned: the one its current projection names, with its content and hash |
| RevisionHistory.RedirectsLeadToCurrent | modelkeyguard/kogwistar_postgres_state.py:840-852 | following redirects from any revision ends, at the entity's current revision |
| RevisionHistory.RedirectRises | modelkeyguard/kogwistar_postgres_state.py:840-852 | a redirect leads from a revision to the next revision of the same entity |
| RevisionHistory.RevisionsCountChanges | modelkeyguard/kogwistar_postgres_state.py:807-863 | over every run, with a collision-free hash, the store holds each entity's last write, and n changes leave n revisions and n - 1 tombstones |
| RevisionHistory.WriteTakesEffectExactly | modelkeyguard/kogwistar_postgres_state.py:814-821 | a write is visible afterwards unless it is a refused sentinel write or its hash collides; rewriting the same content changes nothing |
| RevisionHistory.AnswersExactly | modelkeyguard/kogwistar_postgres_state.py:814-821 | with a collision-free hash a write is told Unchanged exactly if the content stands already, and Refused exactly if it would change the sentinel |
| RevisionHistory.AlwaysGood | modelkeyguard/kogwistar_postgres_state.py:807-931 | every run keeps the links, the counter and the projections consistent |
| RevisionHistory.ReloadIsExact | modelkeyguard/kogwistar_postgres_state.py:683-709 | reloading from the projections gives back the entities that were in memory |
| QuotaPolicy.Registry.AppendQuotaRevision | modelkeyguard/registration.py:347-399 | the id search ends at the first free number and never overwrites a node; the list is refreshed to what the graph defines |
| QuotaPolicy.Registry.SetQuota | modelkeyguard/registration.py:306-345 | writes the base node and refreshes the list, or refuses an unknown lane, an unsupported period or a policy without limits |
| QuotaPolicy.Registry.RevokeQuota | modelkeyguard/registration.py:401-408 | appends a revoked revision under a fresh id |
| QuotaPolicy.Registry.LatestByName | modelkeyguard/graph_state.py:248-257 | for every order of the edges the loop ends with the one node per name that beats all others of its name |
| QuotaPolicy.Registry.Compute | modelkeyguard/core.py:514-524 | the reader's fallback list is the list the graph defines |
| QuotaPolicy.Registry.RebuildProjection | modelkeyguard/graph_state.py:248-268 | the rebuilt list is the list the graph defines, and it is cached |
| QuotaPolicy.Registry.QuotaPolicies | modelkeyguard/core.py:484-541 | from a cached list a reader takes the unrevoked policies of the lane, without one it computes the list and caches it; when the cached list agrees with the graph that is the list the graph defines |
| QuotaPolicy.InForceExactly | modelkeyguard/graph_state.py:254-258 | a policy is in force if and only if it stands, unrevoked, on the latest node of its name |
| QuotaPolicy.SortNames | modelkeyguard/graph_state.py:258 | the names in strictly ascending order, each once |
| QuotaPolicy.LatestTableIsUnique | modelkeyguard/graph_state.py:255-257 | there is only one such table: the order of the edges cannot matter |
| QuotaPolicy.NamelessCompetesUnderId | modelkeyguard/graph_state.py:211-222 | a node that carries no name competes under the name its id was built from |
| QuotaPolicy.UsableExactly | modelkeyguard/core.py:505-512 | from a cached list a reader takes the unrevoked policies of the lane, each as often as it stands there |
| QuotaRuns.ListsAreCoherent | modelkeyguard/registration.py:341-413 | after any mix of set, append and revoke on unambiguous ids every cached list is the one the graph defines |
| QuotaRuns.ReadersAgree | modelkeyguard/core.py:484-541 | after every such run a reader gets the list the graph defines, whether it is cached or not |
| QuotaRuns.InForceIsChosen | modelkeyguard/graph_state.py:248-258 | the policy in force under a name is the quota's last appended revision, or a `set_quota` with a later time, and absent exactly when that one is a revocation |
| QuotaRuns.LastAppendWins | modelkeyguard/registration.py:347-413 | right after an append the one policy in force under the name says what the append was given; after a revocation there is none |
| QuotaRuns.LaterSetWins | modelkeyguard/registration.py:306-345 | a `set_quota` takes effect exactly if its time is later than every appended revision's |
| QuotaRuns.NextIsFresh | modelkeyguard/registration.py:370-375 | with a clock that never goes back the number found is greater than every number appended before |
| QuotaRuns.NextFree | modelkeyguard/registration.py:372-375 | the search for a free number ends at the first one |
| QuotaRuns.BaseLosesTies | modelkeyguard/graph_state.py:257 | at equal times an appended revision beats the base node |
| QuotaRuns.Perform | modelkeyguard/registration.py:306-408 | the registry's methods are the steps of these runs |
| QuotaRuns.AcceptedExactly | modelkeyguard/registration.py:306-370 | a change is accepted if and only if its lane is one of the four, a given period names one, and it sets a limit or revokes |
| QuotaRuns.WrittenAsGiven | modelkeyguard/registration.py:325-399 | an accepted change writes one node with the quota, limits and period it was given and touches no other; an append overwrites none |
| QuotaRuns.PlainNamesAreUnambiguous | modelkeyguard/registration.py:325-376 | quotas whose names hold no colon and are not numbers never share an id, whatever the subjects look like |
| QuotaRuns.EmptyNameIsItsOwn | modelkeyguard/graph_state.py:211-222 | a quota with an empty name competes under its node's id |
| QuotaRuns.EmptyNameKeepsAll | modelkeyguard/graph_state.py:211-258 | over every run of changes to any quotas on unambiguous ids, every unrevoked revision of such a quota stays in force, whatever is appended or revoked later |
| Idempotency.Worker.ReadRecord | modelkeyguard/gateway.py:62-80 | the live cached record, else the live stored one with its body decoded and cached, else nothing; a stored body that does not decode is an error |
| Idempotency.Worker.Claim | modelkeyguard/gateway.py:83-116 | goes through if and only if no live record stands |
| Idempotency.Worker.Write | modelkeyguard/gateway.py:118-149 | merges over what is stored, stores the body as base64 and keeps its bytes in the cache |
| Idempotency.SettleAndReplay | modelkeyguard/gateway.py:1232-1254 | a settled bytes response is replayed byte for byte, with its status and headers, by the same process and by one that starts later, to requests with the same payload until the claim expires |
| Idempotency.GateExactly | modelkeyguard/gateway.py:1232-1245 | a live record with the request's hash is replayed, with status 200 when it carries none, if and only if it is neither in progress nor uncertain nor a stream's result, each of which has its own refusal; a request may claim if and only if no live record stands |
| Idempotency.InProgressUntilWritten | modelkeyguard/gateway.py:1232-1254 | between a claim and its claimant's write the same process and a later one refuse the same payload as in progress, until the claim expires and it may be claimed |
| Idempotency.StreamAndRead | modelkeyguard/gateway.py:1930-1942 | after a stream's outcome is written the same payload gets no replay, in either process, and another payload is still refused |
| Idempotency.MergeIsUpdate | modelkeyguard/gateway.py:131-135 | merging records is updating one dictionary with another |
| Idempotency.StoredComesBack | modelkeyguard/gateway.py:70-122 | a record comes back as it was stored, body included; text that is not base64 is the one thing that raises |
| Idempotency.OtherPayloadRefused | modelkeyguard/gateway.py:1234-1236 | another payload under the same key is refused and never gets the stored response |
| IdempotencyClaims.GrantNeedsNoLiveRecord | modelkeyguard/gateway.py:88-108 | in every interleaving of claims, state writes with or without an expiry of their own and removals, a claim is granted only when no unexpired record stands |
| IdempotencyClaims.InProgressMeanwhile | modelkeyguard/gateway.py:83-149 | in every interleaving, from a grant until the claimant writes or removes the record, all readers before the claim expires are refused, as in progress or as another payload |
| IdempotencyClaims.ClaimsAreExclusive | modelkeyguard/gateway.py:83-149 | if every step is harmless, no claim is granted while an earlier one lasts |
| IdempotencyClaims.ClaimsAreExclusiveExactly | modelkeyguard/gateway.py:83-149 | for every run: all its steps are harmless if and only if at none of its moments a new call, after whatever waiting, could be granted a claim while an earlier one lasts |
| IdempotencyClaims.HarmlessExactly | modelkeyguard/gateway.py:118-149 | the latest claim stays protected by a step if and only if the step is harmless |
| IdempotencyClaims.EarlyClaimExactly | modelkeyguard/gateway.py:83-116 | a claim can be granted too early if and only if the latest one is not protected by the stored record |
| IdempotencyClaims.PromptIsHarmless | modelkeyguard/gateway.py:1774-1947 | claimants whose state writes and removals land before their claims expire do no harm |
| IdempotencyClaims.LateWriteBreaksExclusion | modelkeyguard/gateway.py:126-141 | for every retention: one late write, and a third claim is granted while the second has its whole retention left |
| ReviewWindows.ReviewStore.StartReviewRun | modelkeyguard/reviewer_agent.py:296-321 | opens a run that holds the status of the evidence at that moment |
| ReviewWindows.ReviewStore.AdvanceReviewCheckpoint | modelkeyguard/reviewer_agent.py:501-577 | with a run id it moves the checkpoint to the end of the frozen window and completes the run, or refuses a completed or expired one; without, it moves it to the end of the evidence or to where a status given by the caller ends, whichever is earlier |
| ReviewWindows.ReviewStore.CompleteRun | modelkeyguard/reviewer_agent.py:544-571 | on whatever was read before, checkpoint and run change together if and only if both are as read; otherwise it reports a conflict |
| ReviewWindows.TargetWithinEvidence | modelkeyguard/reviewer_agent.py:519-531 | without a run id the checkpoint goes to where the caller's status ends if that is within the evidence, and to the end of the evidence otherwise |
| ReviewWindows.CompletionExactly | modelkeyguard/reviewer_agent.py:513-571 | a completion takes place if and only if its run was open, unexpired and not empty when read and neither checkpoint nor run has changed since |
| ReviewWindows.OneCompletionPerReading | modelkeyguard/reviewer_agent.py:552-568 | of all calls that read one checkpoint at most one moves it |
| ReviewWindows.ByTimeThenRequest | modelkeyguard/reviewer_agent.py:72-80 | rows are ordered by time and at one time by request id |
| ReviewWindows.OneRow | modelkeyguard/reviewer_agent.py:427-428 | what one row adds to the sums of a status |
| ReviewWindows.StatusCovers | modelkeyguard/reviewer_agent.py:417-434 | with a checkpoint at row k the status covers exactly the rows after it and ends at the last of them |
| ReviewRuns.WindowsPartitionEvidence | modelkeyguard/reviewer_agent.py:296-577 | over every run without overlaps the completed windows are the evidence up to the checkpoint, each row once and in order, the sums add up, no run completes twice, and later rows are all still to come |
| ReviewRuns.FinishKeepsPartitionExactly | modelkeyguard/reviewer_agent.py:546-566 | completing a run keeps the partition if and only if the checkpoint is still the one the run started from |
| ReviewRuns.FinishTotals | modelkeyguard/reviewer_agent.py:427-429 | the totals of the completed statuses equal the totals of all reviewed rows |
| ReviewRuns.OverlapTakesCheckpointBack | modelkeyguard/reviewer_agent.py:546-551 | two overlapping runs after which the checkpoint has moved back behind a reviewed row |
| HistoryWindow.RefreshActiveWindow | modelkeyguard/services/history_ops.py:159-191 | the window is greedy: within both caps, an exact sum over newest-first rows, missing only rows without an id and rows that newer ones crowd out |
| HistoryWindow.GreedyIsUnique | modelkeyguard/services/history_ops.py:167-180 | there is only one such window |
| HistoryWindow.NothingFits | modelkeyguard/services/history_ops.py:170-180 | no omitted row with an id could be added without breaking a cap |
| HistoryWindow.NewestFirstSorts | modelkeyguard/services/history_ops.py:164 | the sort is a permutation with no row after an older one |
| HistoryWindow.NewestComeFirst | modelkeyguard/services/history_ops.py:164 | newer time stamps come first, and at one time stamp greater request ids |
| HistoryWindow.RetainedExactly | modelkeyguard/services/history_ops.py:162-163 | exactly the rows at or after the cutoff are considered |
| HistoryWindow.BytesAdd | modelkeyguard/services/history_ops.py:176-180 | a row adds its size to the window's bytes, a negative size none |
| KeyLifecycle.KeyManager.CreateKey | modelkeyguard/key_manager.py:48-111 | refuses a bad id, an empty secret, an unsupported access mode or a taken id; otherwise adds one active secret and the key that names it |
| KeyLifecycle.KeyManager.RotateKey | modelkeyguard/key_manager.py:113-131 | refuses an unknown or revoked key; otherwise the key names a new secret and the old one is marked rotated |
| KeyLifecycle.KeyManager.RevokeKey | modelkeyguard/key_manager.py:133-148 | marks the key and its secret revoked |
| KeyLifecycle.KeyManager.ResolveProviderSecret | modelkeyguard/key_manager.py:159-177 | hands out a secret if and only if its node exists, is active, has not expired and is not empty |
| KeyRuns.OneActiveSecret | modelkeyguard/key_manager.py:48-148 | after any run an active key has exactly one active secret, the one its ref names, and a revoked key has none |
| KeyRuns.RevokedForEver | modelkeyguard/key_manager.py:113-148 | a revoked key stays as it is whatever follows and never has an active secret again |
| KeyRuns.NewRefIsFresh | modelkeyguard/key_manager.py:179-191 | a new secret's ref is never in use |
| KeyRuns.AlwaysManaged | modelkeyguard/key_manager.py:48-191 | every run keeps keys and secrets paired |
| KeyRuns.CreatedResolves | modelkeyguard/key_manager.py:48-177 | a created key's ref resolves to its secret until that expires |
| KeyRuns.RotatedResolves | modelkeyguard/key_manager.py:113-177 | after a rotation the old ref is refused and the new one resolves if and only if the new secret is not empty and has not expired |
| KeyRuns.WhatARefGives | modelkeyguard/key_manager.py:113-177 | over every run a ref gives its key's newest secret while the key is active and the secret unexpired and not empty, and otherwise the reason: not a secret, rotated, revoked, expired or empty |
| KeyRuns.OnlyTheNamedSecret | modelkeyguard/key_manager.py:159-177 | a secret is handed out only under the ref an active key names |
| KeyRuns.RevokedNeverResolves | modelkeyguard/key_manager.py:133-177 | once a key is revoked none of its secrets is handed out again, whatever follows |
| KeyRuns.CreateRefused | modelkeyguard/key_manager.py:66-73 | a creation with a bad id, no secret, another access mode or a taken id changes nothing |
| KeyRuns.Perform | modelkeyguard/key_manager.py:48-148 | the manager's methods are the steps of these runs |
| SealedPayload.FallbackKeystream | modelkeyguard/sealed_payload.py:143-149 | the loop yields exactly n bytes, byte i being byte i mod 32 of HMAC block i div 32 |
| SealedPayload.Seal | modelkeyguard/sealed_payload.py:88-97 | ciphertext and tag as unpadded base64 fields, the tag over associated data, nonce and ciphertext |
| SealedPayload.Open | modelkeyguard/sealed_payload.py:119-137 | refuses a missing or wrong tag and otherwise takes the keystream off again |
| SealedPayload.SealThenOpen | modelkeyguard/sealed_payload.py:88-137 | opening with the sealing key gives the payload back, for every payload, key, nonce and associated data; with another key it fails if and only if the tags differ |
| SealedPayload.XorAllTwice | modelkeyguard/sealed_payload.py:95-136 | applying the keystream twice gives the bytes back |
| SealedPayload.XorBitwise | modelkeyguard/sealed_payload.py:95 | a bit of the exclusive or is set exactly where the operands differ |
| SealedPayload.BigEndianInjective | modelkeyguard/sealed_payload.py:147 | counters that fit eight bytes never repeat an HMAC input |
| SealedPayload.BigEndianDenotes | modelkeyguard/sealed_payload.py:147 | the eight bytes denote the counter, most significant first |
| SealedPayload.BlockInputsDiffer | modelkeyguard/sealed_payload.py:143-149 | no two keystream blocks are computed from the same input |
| SealedPayload.OldPayloadsOpen | modelkeyguard/sealed_payload.py:119-121 | a payload sealed under the old associated data, which is not stored with it, still opens |
| SealedPayload.OnlyTaggedPayloadsOpen | modelkeyguard/sealed_payload.py:131-134 | what opens carries the tag over the stored associated data, nonce and ciphertext |
| SealedPayload.MissingTagRefused | modelkeyguard/sealed_payload.py:131 | a payload without a tag is refused as such |
| Base64.DecodeEncode | modelkeyguard/gateway.py:75-122 | padded base64 (RFC 4648, section 4) gives every byte string back |
| Base64.DecodeEncodeUnpadded | modelkeyguard/sealed_payload.py:25-30 | so does the unpadded URL-safe form (RFC 4648, sections 3.2 and 5), which has no padding and a length set by the data's |
| Base64.TablesAre | modelkeyguard/sealed_payload.py:25-30 | the characters are those of the tables in RFC 4648, sections 4 and 5 |
| Base64.BadTextRefused | modelkeyguard/gateway.py:75 | text of a wrong length, with too much padding or with a character outside the table is refused |
| Base64.EncodingsDiffer | modelkeyguard/sealed_payload.py:25-26 | different byte strings have different encodings |

## Left out

- AdmissionBound.AdmissionBound: the value-comparing swap only. On the versioned Postgres path `_cas_reservation_payload` reads the expected version again at write time, so the bound does not follow from that code.
- Guard.ModelKeyGuard.SettleReservation: no ledger append that raises and no other worker; both are in `Protocol`, whose uninterrupted call `SoloRuns.SettleAlone` ties to this method. `record_usage` adds to it that a settlement answering False is followed by an update to `uncertain`.
- Guard.ModelKeyGuard.ReserveAdmission: one time for the whole call and no other worker. `Protocol` reads the clock at each comparison, as the code does, and `SoloRuns.ReserveAlone` ties its uninterrupted call to this method.
- IdempotencyClaims.ClaimsAreExclusiveExactly: the value-comparing swap, and each claimant a process of its own; a claimant's own removal ends its claim.
- QuotaPolicy.Registry.SetQuota: edge ids are taken to be as unambiguous as the pairs they are built from. Two changes of one quota in the same millisecond are ordered as `QuotaRuns.InForceIsChosen` says.
- Idempotency.Worker.ReadRecord: the decoder is as strict as `Base64.DecodeEncode` says below. Dictionary bodies, the released state and two live caches that disagree are not part of this model.
- Base64.DecodeEncode: the decoder here refuses characters outside the alphabet and surplus padding, which Python's skips; encoders produce neither.
- SealedPayload.Open: the fallback mode only. AES-GCM, the derivation of the key and the process-wide sentinel cache are not part of this model.
- ReviewRuns.WindowsPartitionEvidence: calls with a run id only. The filter of history rows by the active window, keyword hits, thresholds and previews are not part of this model, and rows are taken to arrive in increasing cursor order.
- KeyRuns.AlwaysManaged: keys written by the manager; keys another part of the system registers without a sealed secret are not part of this model.
- RevisionLog.RevisionStore.AppendIfUpdated: one process at a time; the unit of work around it and the search index are not part of this model.
- GraphState.GraphStateStore.AppendUsageLedgerEvent: the JSONL store. The Postgres ledger keeps the tail pointer in a projection instead of the head node and is otherwise the same algorithm.
- Reserving or settling without a graph store, and reserving on a denied decision: the code returns at once.
- The in-process reservation lock: the settlement does not take it and the reconciler uses another guard, so no proof relies on it.
- Floats: money is integers in units of 1e-8 USD and charges are not negative.
- Informational fields of rows and payloads (usage_estimated, reasons, actors, schema versions) and the audit and access events.
- Deleting projections other than idempotency records, and direct `add_quota_usage` calls.
- Streaming, asyncio, HTTP, routers, UI pages, Keycloak, environment variables, files and SQL: input and output without modelled state.
- SQL isolation and row locks: a compare-and-swap is one step.
- Access control decisions, key selection, pricing, alert rules, review parsing, usage dashboards and provider adapters: no state to keep, so only easy statements.
- The revision number of a policy node that carries none (`_quota_policy_revision`'s fallbacks): every node written by the modelled operations carries one.
