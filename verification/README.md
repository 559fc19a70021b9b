# A model of the fingerprint gate's spine

Gatekit keeps, on every gate, a store of client fingerprints with verdicts, and synchronizes it with a hub.
This project models that spine and proves what it promises:

- **Push** (`Push`, `PushRuns`): the incremental upload of observations, as a step machine against a hub that may
  refuse a batch, commit it in whole or part and lose the reply, or be restored, while the store changes between
  page reads.
- **Pull** (`Policy`): applying the hub's decisions together with their cursor, through failures, crashes and restarts.
- **Store** (`Tables`, `StoreSpec`, `StoreEffects`, `StoreRuns`, `Stores`, `Paging`, `PageLists`, `Listing`, `Legacy`, `Resolve`, `Approval`,
  `Timestamps`): observing, eviction, history trimming, scoped approvals, batch decisions, opening an old database,
  listing, paging and prefix lookup.
- **Admission** (`RateLimit`, `Semaphores`, `Proxy`): the token bucket, and the accept, handle and drain protocol over
  all interleavings.

`Order` and `Options` hold what the rest shares: text order, the first n of a finite set, sorted sequences, results.

How it is built:

- Objects that the program updates in place are classes (`Stores.Store`, `Push.Syncer`, `Policy.PolicySyncer`,
  `RateLimit.Limiter`, `Semaphores.Semaphore`). Each method is proved to take the state where a specification function
  or relation says, and the lemmas are about runs of those. The two sync classes are the two halves of the program's
  one `Syncer`, which share no field but the store.
- A SQL table is a map or a set; a transaction commits or leaves everything as it was. Timestamps are their stored
  text, because the database orders them as text; `Timestamps` says exactly when that order is time order.
- A clock reading, a database fault and the outcome of a request are parameters. A page read in `Push` sees an
  arbitrary database, so any writes between reads are covered, and a page whose rows and history come from different
  moments is covered too, for that is one more database. In runs of store operations, `RolledBack` stands for any
  operation whose transaction the database fails.
- The push cache holds observations where the program keeps their SHA-256, so no two observations share a hash.
  `dirty` is a history variable: the fingerprints whose last send the hub committed although the node saw it fail, or
  whose hub copy was replaced since. A request that the hub commits after the node gave up on it counts as a
  replacement of the hub's copy.
- The hub's part in `Policy` is an assumption, `Policy.Honest`: an answer takes its reader from the cursor it sent to
  some later point of one decision log, and each point has its own cursor text.
- The row field for a label is `labelText`.

Where code and documents disagree, the model follows the code. docs/scoped-approvals.md says (lines 39-40) that
approving again without a scope choice must not silently broaden a former approval, and describes the code as it is
further down (lines 137-138): the setters refuse to approve a row only while it is restricted, and blocking it clears
the restriction. So blocking and then approving gives an unrestricted approval (`BlockThenApproveDropsScope`);
`ScopeLostExactly` and `ScopeFollowsVerdicts` say exactly when a restriction is lost.

Promises that hold only under a condition, each with the exact one:

- A completed incremental cycle leaves the hub equal to the store on a fingerprint if and only if it was sent or the
  hub agreed before (`HubAgreesExactly`; `RevertAfterLostReply` is a run where it does not).
- Sweeping the rate limiter is invisible if and only if ttl * rate >= burst or the burst is below one, for keys that
  are never turned away untracked (`SweepsHiddenExactly`).
- Text order of timestamps is time order except within one second (`TextOrderIsTimeOrder`).
- Trimming sightings after every observation keeps, all along a run, the first 128 of the latest ones if and only if no
  observation refreshes a kept pair with a stamp that a dropped sighting does not sort after (`SightingsExactInRun`).
  One can: a source seen on 129 ports at a whole second and again within it (`WholeSecondLoses`). Addresses and ports
  need no condition (`TrimmingKeepsSmallest`).
- A completed drain finds every accept loop ended, every connection closed and every slot free, all along a run, if and
  only if the drain never completes while an accept loop is alive and no `Serve` comes after it (`PromiseExactly`). The
  rule for callers, no `Serve` once a drain has begun, is enough (`DrainIsComplete`) but not needed
  (`LateServeInLuck`).
- A reset under a syncer is safe if and only if that syncer has fetched nothing yet (`ResetSafeExactly`).
- A bag stored as a JSON null is folded if and only if every legacy column is decoded and has no value. The program
  crashes on a nil map (store/legacy.go:121) if and only if some column has a value and all before it are decoded and
  have none; otherwise the fold fails with the first undecodable column. The database stays as it was in both cases
  (`NullFoldsExactly`).

## Model

| member | source | states |
|---|---|---|
| Push.Syncer.PushObservations | controlplane/controlplane.go:201-270 | A cycle takes cache, time of the last full cycle and hub where `Cycle` says: bounded pages, only new or changed observations unless full, heartbeat if nothing was sent, cache pruned and the time set only on success |
| Push.Syncer.PushBatch | controlplane/controlplane.go:272-299 | A request is accepted whole, or fails with any part of it committed |
| Push.CollectBatch | controlplane/controlplane.go:225-243 | The page's fingerprints are all marked seen; the batch is exactly the reports that are new, changed, or in a full cycle |
| PushRuns.CacheNeverLies | controlplane/controlplane.go:201-270 | Over every run of cycles (cut off anywhere), restarts and hub restores, with any store writes between pages, a cached fingerprint not in doubt has exactly the hub's value |
| PushRuns.PagesFaithful | controlplane/controlplane.go:217-256 | The same at every point inside a cycle |
| PushRuns.CycleTracks | controlplane/controlplane.go:211-265 | Through a completed cycle under concurrent writes: a visited fingerprint is cached as one of the observations read and the hub got it if it was not cached already; an unvisited one leaves the cache and the hub keeps its value |
| PushRuns.CompletedCycle | controlplane/controlplane.go:257-268 | A completed cycle caches exactly the visited set; a full one, from any state of the world, leaves no doubt about any cached fingerprint, and the hub holds what is cached |
| PushRuns.FailedCycleStaysDue | controlplane/controlplane.go:205-268 | A full cycle that failed stays due |
| PushRuns.FullCyclesRecur | controlplane/controlplane.go:196-205 | When 15 minutes have passed since the last full cycle began, or none has completed, a completed cycle over an unchanging store leaves the hub with every stored observation, whatever hub and cache held |
| PushRuns.UnchangedIsNotResent | controlplane/controlplane.go:205-235 | Before that, an observation accepted and unchanged is not sent again, even if the hub has lost it |
| PushRuns.RestartSendsAll | controlplane/controlplane.go:205-210 | The first cycle that completes after a restart sends everything stored |
| PushRuns.HeartbeatDecides | controlplane/controlplane.go:257-261 | Over an unchanging store a cycle whose pages end well fails with its heartbeat exactly when it had nothing to send |
| PushRuns.FailedCycleForgetsNothing | controlplane/controlplane.go:257-268 | A failed cycle drops nothing from the cache and moves no time |
| PushRuns.RequestsAreSmall | controlplane/controlplane.go:196-221 | A request carries at most 16 observations |
| PushRuns.PresentIsVisited | controlplane/controlplane.go:211-255 | A nonempty fingerprint stored throughout a completed cycle is visited |
| PushRuns.HubAgreesExactly | controlplane/controlplane.go:228-255 | Over an unchanging store the cache ends equal to the store, and the hub agrees on a fingerprint if and only if the cycle was full, the cache did not hold its observation, or the hub agreed before |
| PushRuns.CompletedCycleSyncs | controlplane/controlplane.go:196-270 | After any run, a completed cycle over an unchanging store leaves cache domain equal to the stored fingerprints and the hub equal to the store on all not in doubt; a full cycle on all |
| PushRuns.RevertAfterLostReply | controlplane/controlplane.go:247-251 | A change whose reply was lost and is then reverted leaves the hub wrong after the next completed incremental cycle: the doubt is real |
| PushRuns.CycleCompletes | controlplane/controlplane.go:211-270 | With accepted requests and readable rows a cycle ends, whatever is written meanwhile, within one read more than there are possible keys |
| PushRuns.ReportsAreWhole | controlplane/controlplane.go:366-389 | A report of a well-formed store says the row as stored and its whole history in order: the cap on lists never cuts |
| PushRuns.ReportsAreBounded | controlplane/controlplane.go:366-389 | Whatever is stored, a report has the first 128 of each list, or all of it if it fits |
| Policy.PolicySyncer.PullPolicy | controlplane/controlplane.go:304-352 | A pull fails with the first reason in order (request, each decision's validity and scope support, trusted ranges, transaction) or applies batch and cursor and then moves the cursor in memory; failing to close the answer is reported too, and undoes nothing |
| Policy.New | controlplane/controlplane.go:133-147 | A syncer is built, and starts from the stored cursor, unless the configuration is invalid or the cursor cannot be read |
| Policy.FirstFaultFinds | controlplane/controlplane.go:329-336 | A batch passes if and only if every decision is valid and no scope meets a gate without support |
| Policy.FirstFaultIsFirst | controlplane/controlplane.go:329-336 | The refusal reported is that of the first decision refused |
| Policy.PullSucceedsExactly | controlplane/controlplane.go:304-352 | An answered pull can succeed if and only if every decision is valid and within what the gate enforces and the gate takes the ranges offered to it |
| Policy.RangesHandedOver | controlplane/controlplane.go:338-347 | A successful pull leaves the gate with the ranges of its answer, if it takes any; refused ranges fail the pull and change nothing; ranges not offered or not taken stay |
| Policy.FailedPullKeepsStore | controlplane/controlplane.go:304-352 | A pull that reports an error changes neither verdicts nor cursor, unless only the closing of the answer failed, and then all of it is in force; trusted ranges may stay replaced only when the transaction failed after them |
| Policy.LogReplyIsHonest | controlplane/controlplane.go:300-312 | The plain answer, the log from the cursor to any later point, meets the assumption on the hub |
| Policy.PullSyncs | controlplane/controlplane.go:304-352 | A successful pull moves stored cursor, live cursor and verdicts together from one point of the log to a later one; a failed one moves none |
| Policy.PullCatchesUp | controlplane/controlplane.go:304-352 | Answered with the rest of a valid log, and without faults, a pull succeeds and brings cursors and rows to its end |
| Policy.RunsStayInSync | controlplane/controlplane.go:132-352 | Over all runs of successful, failed, crashed and repeated pulls, restarts, observations, reopens and evictions, live cursor, stored cursor and verdicts are those of one point of the log: approved rows are exactly the approved decisions with label and scope, and without eviction every decision is in force |
| Policy.NeverScopedWithoutSupport | controlplane/controlplane.go:333-335 | Over every run, with any answers of the hub, honest or not, and any local store operations besides decision batches, a gate that does not enforce scopes never stores one |
| Policy.ResetThenNew | store/store.go:657-678 | A reset before the syncer is built puts it at the start of the log |
| Policy.ResetSafeExactly | store/store.go:673-676 | From any synchronized state, a reset under a live syncer keeps it in sync if and only if its cursor in memory is empty |
| Policy.ResetUnderLiveSyncer | store/store.go:673-676 | Otherwise, after any later pull with an honest answer that does not name it again, an approval from before the reset is missing and the node out of sync |
| Policy.QuietAnswer | controlplane/controlplane.go:300-312 | The answer of a hub with nothing new is honest, accepted, and names nothing |
| Stores.Store.Observe | store/store.go:332-416 | The transaction's whole effect, every error case including a database fault, and the returned entry |
| StoreSpec.RecordedHistory | store/store.go:372-392 | An observation extends and trims its own fingerprint's history and touches no other |
| StoreEffects.AcceptedExactly | store/store.go:332-361 | An observation is accepted if and only if it names a fingerprint, its metadata fits in 64 KiB, and the stored row is not corrupt |
| StoreEffects.ObservationIsStored | store/store.go:346-410 | An accepted observation that finds room, or is a repeat, evicts nothing: its row, metadata, stamp and trimmed history are stored, and no other fingerprint changes |
| StoreSpec.ObserveReturnsGet | store/store.go:393-416 | The returned entry is what Get reads next, unless its own eviction removed the row |
| StoreSpec.ObserveKeepsCap | store/store.go:405-409 | An overflowing first sighting leaves max(cap, approved) rows; no observation raises the count above max(cap, count before) |
| StoreSpec.PruneFacts | store/store.go:568-592 | Eviction removes exactly min(excess, not approved) rows, oldest stamps first, never an approved one, and leaves survivors and their history unchanged |
| Stores.PruneToLimit | store/store.go:546-592 | The method evicts as that relation says and returns how many rows went |
| StoreRuns.CreatedRow | store/store.go:332-364 | A row appears by its first observation, with the status for unknown fingerprints, or as an unobserved placeholder |
| StoreRuns.RowCountsObservations | store/store.go:325-364 | While stored, a row's count grows by exactly its successful observations, first_seen never moves and last_seen is the latest |
| StoreRuns.RunsKeepWellFormed | store/store.go:332-592 | Every reachable state keeps history linked and bounded, metadata bounded and restricted rows approved with 1 to 128 ranges |
| StoreEffects.StatusesAreKnown | store/store.go:39-45 | Over every run each stored status is pending, approved or blocked |
| StoreEffects.EmptyFingerprintSource | store/store.go:505-520 | Over every run a row for the empty fingerprint comes only from a verdict set for it |
| StoreRuns.ScopeRetained | store/store.go:358-367 | Over any run without a decision batch, a restricted row that stays approved keeps the identical scope |
| StoreRuns.ScopeNeverAppears | store/store.go:491-529 | Such a run creates no restriction |
| StoreRuns.ScopeLostExactly | store/store.go:491-521 | A step other than a decision batch leaves a stored row its scope, or none if the step is a local verdict on it other than approved |
| StoreRuns.ScopeFollowsVerdicts | store/store.go:491-521 | Over any run without a decision batch, the scope of a row that stays stored is what it was at the start, or none if any local verdict withdrew its approval |
| StoreRuns.BlockThenApproveDropsScope | store/store.go:491-500 | Approving a restricted row is refused, but blocking and then approving leaves it unrestricted |
| Stores.Store.SetStatus | store/store.go:491-500 | Effect and errors of a status change |
| StoreEffects.SetStatusSets | store/store.go:491-500 | A known status is written and the scope removed, unless it would approve a restricted row; label, stamps, count, metadata, history and all other rows stay |
| Stores.Store.UpsertStatus | store/store.go:505-521 | Effect and errors of a verdict that may create a placeholder |
| StoreEffects.UpsertSets | store/store.go:505-521 | The same with the label written too, or a placeholder with these values, count 0 and empty metadata |
| Stores.Store.SetLabel | store/store.go:523-530 | Effect and errors of a label change |
| StoreEffects.LabelSets | store/store.go:523-530 | The label of a stored row is written and nothing else |
| Stores.Store.Delete | store/store.go:532-541 | A row goes with its history |
| StoreEffects.DeleteRemoves | store/store.go:531-541 | The row and its history are gone and every other row and history stays |
| Stores.Store.ApplyDecisions | store/decisions.go:32-65 | Batch and cursor are applied together, or, on an invalid member or a fault in any statement, neither |
| StoreEffects.DecisionValidExactly | store/decisions.go:20-28 | What a valid decision is |
| StoreEffects.BatchApplies | store/decisions.go:50-64 | A valid batch without faults puts the last decision on each fingerprint in force, keeps what was observed, leaves all it does not name, and stores the cursor |
| StoreEffects.BatchRefused | store/decisions.go:30-64 | An invalid decision anywhere, or a fault in any statement or the commit, leaves everything as it was |
| Stores.Store.ResetFingerprints | store/store.go:657-678 | Every row and every hub cursor goes; other metadata stays |
| StoreEffects.ResetClears | store/store.go:657-678 | All rows and histories and exactly the keys of hub cursors go |
| Tables.TrimStepExact | store/limits.go:17-28 | Trimming before as well as after an observation changes nothing if and only if no dropped sighting comes before the refreshed one |
| Tables.TrimmingKeepsSmallest | store/limits.go:20-22 | Trimming addresses and ports after every observation leaves the 128 smallest ever seen, whatever the stamps |
| Tables.TrimmingLosesNothing | store/limits.go:17-28 | Trimming the whole history after every observation equals trimming once at the end, when no source pair's stamps go backwards |
| Tables.SightingsKeptExactly | store/limits.go:17-28 | Over any sequence of observations from a history that fits, kept sightings are the first 128 of the latest ones at every prefix, if and only if no observation refreshes a kept pair with a stamp that a dropped sighting does not sort after |
| StoreRuns.HistoryIsFirstOfAllSeen | store/store.go:372-392 | While a row stays stored, whatever else runs, its history is the 128 smallest addresses and ports ever seen and, when no observation loses a sighting (none does if no source pair's stamps go backwards), the first 128 of the latest sightings |
| Tables.AllSeenExactly | store/store.go:372-389 | What "ever seen" means: every address and port observed, except empty and 0, and of each source pair the last sighting |
| Tables.TrimmedKeepsFirst | store/limits.go:17-28 | A trim keeps min(128, all) of each kind: smaller addresses and ports, and sightings no older than those dropped |
| StoreRuns.SightingsExactInRun | store/store.go:372-392 | Over any run in which the row stays stored, that holds of the sightings all along if and only if no observation loses one |
| StoreRuns.WholeSecondLoses | store/limits.go:17-20 | A source seen on 129 ports at a whole second and then again within that second, later in time, loses a sighting |
| StoreRuns.UnstoredHasNoHistory | store/store.go:531-541 | A fingerprint that is not stored has no history, so a new row starts empty |
| Tables.BulkTrimIsEachTrim | store/limits.go:39-51 | The windowed trim of a whole table equals trimming fingerprint by fingerprint, in any order |
| Tables.BulkTrimBounds | store/limits.go:39-51 | After it every history fits, and a second one changes nothing |
| Legacy.FoldRowResult | store/legacy.go:106-122 | The fold never changes a key already in a bag, and gives any other key the first usable value among its columns, or none |
| Legacy.FoldRowFails | store/legacy.go:106-122 | It fails if and only if a column that is needed cannot be decoded |
| Legacy.OffersByKind | store/legacy.go:161-181 | What a column of each kind offers: flags, texts, JSON, and NULL |
| Legacy.MigratedBags | store/legacy.go:58-159 | The first fold of a database gives every row each key it has and each other key from the first of its mapped, present columns that has a value |
| Legacy.NullFoldsExactly | store/legacy.go:100-122 | A JSON null bag folds, to an empty one, if and only if every column is decoded and has no value; the program crashes if and only if some column has a value and every one before it is decoded and has none |
| Stores.Store.MigrateLegacy | store/legacy.go:46-159 | All or nothing, also under a database fault and a crash on a null bag: every row is folded and the marker set, or nothing changes |
| Legacy.FoldsOnce | store/legacy.go:42-56 | The fold runs once, with whatever mappings later opens come, and opening again changes nothing |
| Legacy.OpenRetried | store/store.go:148-157 | An open that fails after its fold is made good by the next one: the outcome is that of one undisturbed open |
| StoreRuns.OpenFinishesFold | store/legacy.go:46-74 | The fold is done after an open if and only if it was before or the open names a column |
| StoreRuns.ObservedBagStays | store/legacy.go:42-56 | After the fold, through any reopens, the stored bag is that of the last observation: no legacy value replaces it or comes back |
| Legacy.OpenEstablishesBounds | store/store.go:148-157 | From any database, open ends with metadata at most 64 KiB, however much the fold grew it, and every history trimmed |
| StoreRuns.OpenMakesWellFormed | store/store.go:148-157 | From any sound old database, however large its metadata and history, open reaches a well-formed state, from which every later operation keeps all bounds (`RunsKeepWellFormed`) |
| Legacy.OpenKeepsVerdicts | store/limits.go:30-52 | Open changes metadata and history only |
| Stores.Store.Open | store/store.go:148-157 | The order of the steps; it fails if and only if the fold or one of the two transactions fails, and what is left is the database before or after the fold |
| Stores.Store.Get | store/store.go:421-438 | The row with its ordered history, or the error |
| StoreEffects.ReadExactly | store/store.go:278-312 | When a row can be read, and that it is read as stored |
| StoreEffects.ReadHistory | store/store.go:421-438 | The lists read are the whole history, in order |
| Stores.Store.List | store/store.go:440-489 | Bulk reads grouped by fingerprint equal Get on every fingerprint |
| Listing.GroupsAreSorted | store/store.go:802-884 | Grouping a query ordered within each fingerprint gives each fingerprint's own ordered query |
| Listing.EitherOrderIsWithin | store/store.go:802-884 | Both orders used, by value and by fingerprint first, are such |
| Stores.Store.ListPage | store/limits.go:65-102 | A page is the first entries in range, in key order, as Get reads them; a bad size or row is an error |
| Paging.VisitedAscends | store/limits.go:56-69 | Under any changes between pages the visited keys strictly increase and none exceeds the bound |
| Paging.CompletedVisitsAll | store/limits.go:56-69 | A completed cycle visits every key in range that is present throughout |
| Paging.VisitedWasRead | store/limits.go:56-69 | Nothing is visited that no read found |
| Paging.PagesRunOut | store/limits.go:54-60 | Over a finite set of possible keys a cycle ends within one read more than the keys ahead |
| Paging.PagesAreTheList | store/limits.go:62-69 | Over an unchanging store the keys of a cycle in sequence are the sorted keys in range |
| PageLists.PagesConcatToList | store/limits.go:62-102 | Over one readable database the entries of the pages in sequence are List's entries in the order of their keys, each nonempty fingerprint once |
| Resolve.EscapedPrefixMatch | store/store.go:611-616 | The escaped pattern matches a text if and only if the query is a case-folded prefix of it |
| Resolve.ResolveDecides | store/store.go:597-637 | The answer is the exact match, else the only match, else none or ambiguous; two rows are enough |
| Resolve.AsciiSpaces | store/store.go:598-601 | Among ASCII characters, white space is the space and codes 9 to 13 |
| Resolve.SpaceIgnored | store/store.go:598-601 | White space around a query does not matter |
| Resolve.CaseIgnored | store/store.go:608-616 | Nor does ASCII case, unless the query is stored as typed |
| Resolve.FoldExactly | store/store.go:608-616 | Exactly the two cases of an ASCII letter are taken as equal |
| Stores.Store.ResolveFingerprint | store/store.go:597-637 | The method computes that answer |
| Approval.New | approval/scope.go:18-36 | The sorted set of masked prefixes, or the error |
| Approval.NewFailsExactly | approval/scope.go:18-27 | A list is refused if and only if it is empty, longer than 128, or holds a malformed range or one of mapped addresses |
| Approval.RangesAscend | approval/scope.go:31-54 | Ranges are written in the order of their texts, each once |
| Approval.AllowsExactlyTheInputs | approval/scope.go:57-71 | A scope allows an address if and only if some input range contains the unmapped address |
| Approval.MappedIsV4 | approval/scope.go:61-64 | An IPv4-mapped address is treated as the IPv4 address in it, and any other as it is |
| Approval.ContainsIsLeadingBits | approval/scope.go:57-71 | A range contains an address if and only if it is of its family, without a zone, and agrees in the first len bits |
| Approval.FullAndEmptyLength | approval/scope.go:57-71 | A range of full length holds one address and one of length 0 its whole family |
| Approval.MaskedIsLeadingBits | approval/scope.go:24-28 | Two ranges mask to the same one if and only if they share family, length and those bits |
| Approval.ContainsIsBlock | approval/scope.go:24-28 | A range is exactly the block of addresses that starts at its masked address |
| Approval.Canonical | approval/scope.go:18-36 | Two accepted lists give equal scopes if and only if their masked prefixes are equal |
| Approval.RangesRoundTrip | approval/scope.go:73-90 | Writing a scope and reading it back gives the same scope |
| Approval.MaskedStaysUsable | approval/scope.go:24-28 | Masking never makes an accepted prefix a mapped one |
| Timestamps.RoundTrip | store/time.go:32-38 | Decoding undoes encoding |
| Timestamps.WrittenForm | store/time.go:32-34 | Where the numbers and separators of a stored timestamp stand, and that its fraction has no trailing zero and is absent for a whole second |
| Timestamps.TextOrderIsTimeOrder | store/time.go:32-34 | Stored text orders instants as time does, and reversed exactly within one second when one trimmed fraction starts the other |
| RateLimit.Limiter.Allow | ratelimit/ratelimit.go:74-104 | Answer and new buckets, in every branch |
| RateLimit.Limiter.Sweep | ratelimit/ratelimit.go:108-120 | Exactly the buckets idle for longer than ttl go |
| RateLimit.SweptExactly | ratelimit/ratelimit.go:114-119 | A sweep keeps exactly the buckets touched within the last ttl, unchanged |
| RateLimit.CapHolds | ratelimit/ratelimit.go:11-15 | The map never exceeds its cap |
| RateLimit.ExactLaw | ratelimit/ratelimit.go:74-104 | On a shared limiter, never swept or swept with ttl * rate >= burst and a clock that does not go back, an arrival of a tracked key passes if and only if no window of its arrivals would exceed burst + rate * length |
| RateLimit.RefillIsRate | ratelimit/ratelimit.go:92-93 | What accrues over a window is the rate times its length |
| RateLimit.UntrackedIsLetThrough | ratelimit/ratelimit.go:84-88 | A new key at a full map passes and leaves no trace |
| RateLimit.OnlyArrivalsTrack | ratelimit/ratelimit.go:83-98 | An arrival touches its own bucket only, and makes one only when there is room |
| RateLimit.WindowBound | ratelimit/ratelimit.go:17-28 | Under the same conditions and a clock that does not go back, any window of a tracked key admits at most burst + rate * length |
| RateLimit.SweepsInvisible | ratelimit/ratelimit.go:22-27 | With ttl * rate >= burst, a swept limiter answers a key that it never turned away untracked as a limiter without eviction and without cap would, however many keys come and go |
| RateLimit.SweepsChangeNothing | ratelimit/ratelimit.go:22-27 | In a run of no more keys than the cap, leaving the sweeps out changes no answer of the same limiter |
| RateLimit.SweepsHiddenExactly | ratelimit/ratelimit.go:22-27 | Eviction is indistinguishable from keeping every bucket if and only if ttl * rate >= burst or the burst is below one |
| RateLimit.ShortTtlVisible | ratelimit/ratelimit.go:25-27 | With burst >= 1 and ttl * rate < burst, refilling or not, some run of one key is answered differently once swept |
| Semaphores.Semaphore.Acquire | semaphore/semaphore.go:24-34 | A slot is taken if and only if one is free; none is needed without a limit |
| Semaphores.Semaphore.Release | semaphore/semaphore.go:36-46 | One slot comes back |
| Semaphores.ReleaseUndoesAcquire | semaphore/semaphore.go:24-46 | A release undoes a successful acquire |
| Proxy.SlotsAreExact | proxy/proxy.go:96-134 | Over all interleavings slots in use equal acquired and unreleased connections, within the limit, and both wait groups are exact |
| Proxy.LimitHolds | proxy/proxy.go:84-92 | A positive limit bounds the connections that hold slots |
| Proxy.RefusedExactlyWhenFull | proxy/proxy.go:113-118 | A connection is refused if and only if the limit is positive and as many others hold slots |
| Proxy.ConnectionLife | proxy/proxy.go:104-134 | Over all interleavings every connection goes, in order and once each, through being taken, given a slot, counted, handled, closed, released and done, or taken, refused and dropped |
| Proxy.ClosedByServer | proxy/proxy.go:113-132 | A connection whose slot is back or that was dropped was closed by the server, after its handler returned or after it was refused |
| Proxy.LoopsEndOnlyWhenClosed | proxy/proxy.go:104-112 | An accept loop ends only after its listener was closed |
| Proxy.DrainIsComplete | proxy/proxy.go:136-155 | If no Serve begins once a drain has begun, a completed drain means all loops ended, all accepted connections closed by the server, all slots free |
| Proxy.DrainClosesAccepted | proxy/proxy.go:136-155 | Then every connection that any accept loop ever took has been closed by the server in a step of the run |
| Proxy.PromiseExactly | proxy/proxy.go:94-155 | Over every run: what a completed drain promises holds throughout if and only if the drain never completes while an accept loop is alive and no Serve comes after it is complete |
| Proxy.DrainSoundExactly | proxy/proxy.go:136-155 | The invariant behind the rule for callers, which also has all loops ended while connections are awaited, holds throughout if and only if no Serve comes after the wait for loops |
| Proxy.LateServeInLuck | proxy/proxy.go:94-102 | A late Serve whose loop ends before the drain completes breaks no promise |
| Proxy.LateServeBreaksDrain | proxy/proxy.go:94-102 | A run in which such a Serve outlives a completed drain |
| Proxy.NeverStuck | proxy/proxy.go:104-155 | With listeners closed, and handlers that return, some step is possible until the drain completes |
| Proxy.DrainTerminates | proxy/proxy.go:104-155 | The server's own steps, the return of each handler among them, then end, in any order, and when none is left the drain is complete |

## Left out

- HTTP, TLS, URL building, authentication headers and JSON bytes: a request is its outcome, and encodings are taken as lossless.
- SQLite itself, its connections and locking, file handling, directory creation and schema migration: transactions are atomic and deletes cascade. The same holds for rollback.
- `List`, `ListPage` and the legacy fold read rows and history in several statements; the class methods see one database throughout. For pages of a push cycle the lemmas allow any mixture.
- SHA-256, the address parsers of the standard library and floating point: observations stand for their hashes, a prefix is a family, a number and a length, and token counts and times are reals.
- A hub that commits a request after the node has seen it fail is covered only as a replacement of the hub's copy, after which everything cached is in doubt.
- Two overlapping calls of the push cycle: the program's lock makes them one after the other. The pull has no lock and its overlap is not modelled.
- Handlers that never return: the progress lemmas of `Proxy` take a handler's return as a step that comes.
- `Drain` with a timeout: returning false says nothing about the state, and the waiting goes on as in the model. Only one drain is modelled, and `LogFunc` output is not.
- Empty fingerprints: observations and decisions reject them, but `UpsertStatus` does not, and such a row is never visited by a push cycle; the theorems on pushing are about the others.
- Stamps that cannot be decoded, and text the time parser would accept beyond the form that is written, such as other offsets or longer fractions: a stored row's stamps are taken as readable.
- Stored scope text: a row holds a scope or none, so malformed scope JSON is not represented; an invalid scope value and a scope on a row not approved are errors as in the program.
- A metadata column that holds only white space reads as an empty bag; how a text decodes, and whether it is a JSON null, are fields of the model's metadata text.
- Choice among rows of equal stamp in eviction is left open in `Pruned` and fixed by key in the method; a bulk query's order among equal values is by fingerprint, which its result does not depend on.
- `Key`, the grouping of IPv6 addresses into /64 blocks, and the nil `Limiter`: keys are texts.
- Route parsing, lifecycle and notification of the service manager: they neither read nor change any state modelled here.
- Alert deduplication and the fingerprint-method check: single reads and writes of two tables that nothing else uses; of `GetMeta` and `SetMeta`, only the cursor and the marker are modelled.
- What makes a configuration invalid: `Policy.New` takes the verdict of that check as a parameter.
- Database faults in single-statement methods (`SetStatus`, `SetLabel`, `Delete` and the like) and in reads: such a call changes nothing, which runs cover as `RolledBack`, and its error is not stated.
- What the code does not promise: that the address of a kept sighting is in the trimmed address list, or that a blocked decision survives eviction.
- Local verdict edits, deletes and label changes are outside the runs of `RunsStayInSync`, for they overrule the hub until its next decision.
