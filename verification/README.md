# Verification of the semantic daemon's protocols and codecs

These modules model the parts of the repository where correctness spans many steps or many functions: how
connections to the shared semantic daemon own views of a vault, how a client decides whether the daemon or its own
process owns indexing, how the daemon is started and replaced, and the smaller cores around them. Each is proved with
Dafny 4.11; `dafny verify dfyconfig.toml` checks the whole project.

## How the model is built

Code that changes state under a lock is modelled twice. A function gives the effect of each critical section on
values; a class with the program's fields has methods with the program's branches and loops, proved equal to those
functions. A step machine then interleaves the critical sections freely: every `.await` is a point where other steps,
a cancellation or a change of the environment may come in between. Safety is stated over all runs of the machine.

| part | source | modules |
|---|---|---|
| attachment registry | `src/daemon/vault_registry.rs`, `vault_context.rs`, `query.rs` | `VaultViews` (critical sections), `AttachedVaults` (mutable objects), `AttachProtocol` (one vault's machine and its invariant), `AttachTheorems`, `RootsRegistry` (all vaults, `close`, replaced directories) |
| owner arbitration | `src/tools/mod.rs`, `src/tools/search.rs` | `OwnerArbitration`, `RuntimeAttachments`, `DaemonSearch` |
| bootstrap | `src/daemon/bootstrap.rs`, `src/tools/mod.rs` | `Bootstrap`, `PendingBootstraps` |
| connection pipeline | `src/daemon/server.rs` | `ConnectionPipeline` |
| session table | `src/memory_http.rs` | `MemorySessions` |
| SFTP URIs | `src/config/source.rs` | `Utf8`, `PercentCodec`, `SftpUri`, `SftpGrammar` |
| directory tree | `src/tools/navigation.rs` | `VaultTree`, `TreeDrawing`, `VaultList` |
| batch read | `src/tools/notes.rs` | `BatchRead` |
| daemon client | `src/client/semantic_daemon.rs` | `DaemonClient` |
| read scopes | `src/access.rs` | `ReadScope` |

`Text` and `Wrappers` hold splitting, joining and result types.

## Where the code does less than one might expect

Each of these is a lemma that exhibits the case; where a property is lost, the exact condition under which it holds is
proved beside it.

- The session table's capacity of 1024 is checked at admission only; n concurrent requests can fill it to 1023 + n
  (`MemorySessions.BoundIsReached`).
- Provenance belongs to the manifest, not to the process: a process started under an override and never committed can
  be asked to stop through an older, owned manifest (`Bootstrap.UncommittedOverrideCanBeStopped`). The exact condition
  for a stop is `Bootstrap.StopsExactlyWhen`.
- A manifest of unknown origin counts as owned when it names the sibling's or the managed binary
  (`Bootstrap.UnknownCanBeStopped`); `Bootstrap.SomeStartupStopsIff` gives the exact condition, and
  `Bootstrap.ExternalIsNeverStopped` what holds on all runs otherwise.
- The upgrader saves the pid of the process it spawned without comparing it with the pid that the endpoint reported, as
  startup does (`Bootstrap.UpgradeDoesNotCheckThePid`).
- A note whose content fits the byte budget is skipped if the size read a moment earlier did not
  (`BatchRead.StaleSizeSkips`, `BatchRead.FittingContentIsIncludedIff`).
- A directory grant ending in two slashes passes validation and admits nothing (`ReadScope.DoubleSlashStillValidates`,
  `ReadScope.DoubleSlashAdmitsNothing`).
- A listing can be read back only if no name holds a line feed (`TreeDrawing.LineFeedsAreAmbiguous`).

## Assumptions of the model

Holder ids, context ids and task ids are fresh when issued. A scope id is an injective function of the root and the
effective patterns, and digests are compared as values. The environment may rewrite the exclusion floor on disk,
replace a directory, drop a connection or let a daemon crash at any time. The transport behind the session table issues
fresh ids and echoes the ids it is given. Errors that the program gives one kind and different wording are one value. Paths of binaries
stand for their canonical form, which is what the source compares.

## Model

| member | source | states |
|---|---|---|
| AttachProtocol.StepKeepsInv | src/daemon/vault_registry.rs:94-367 | Every step of one vault's protocol, of any attach, drop, cancellation, revocation or floor change, keeps the joint invariant: holder ids are unique, each holder sits in the scope it was granted under the floor in force, published contexts are active, unretired and watch only on request, finished holders are served, and every attach in flight knows what its program counter says. |
| AttachProtocol.OneInitializerPerScope | src/daemon/vault_registry.rs:307-318 | Two attaches past the initialization lock whose holders are live in one scope are the same attach: the lock they hold is the scope's own. |
| AttachProtocol.ReserveKeepsInv | src/daemon/vault_registry.rs:116-168 | The critical section that ends `reserve`, in all its branches (closed, replaced, unreadable floor, changed floor, bad rules, kept grant, new grant), keeps the invariant. |
| AttachProtocol.PublishKeepsInv | src/daemon/vault_registry.rs:350-367 | The critical section that publishes a context keeps the invariant, so no scope's context is replaced and no watcher is left behind. |
| AttachProtocol.DropKeepsInv | src/daemon/vault_registry.rs:193-212 | Dropping any grant at any moment keeps the invariant, whichever attaches are in flight. |
| AttachProtocol.RetireAllWithdraws | src/daemon/vault_registry.rs:76-83 | Retiring all scopes withdraws every holder and retires every published context, touching nothing else. |
| VaultViews.ReservesExactly | src/daemon/vault_registry.rs:116-168 | A reservation succeeds if and only if the vault is not replaced, the registry is open, floor and rules are readable, and a holder that the connection still has under this floor asks for the same scope and watch preference. It is for the floor and the caller's rules together, keeps that holder or takes the fresh id, and gives each refusal in exactly its case. |
| VaultViews.ReserveAdmitsExactly | src/daemon/vault_registry.rs:127-168 | After a reservation exactly the holders of before are live, unless the floor changed or was unreadable, and the new one with its preference; a scope that was there keeps its lock and context, a new one has a fresh lock and none. |
| VaultViews.ReserveRevokesExactly | src/daemon/vault_registry.rs:119-134 | A reservation on an open vault puts the floor it read in force; it retires the published contexts if and only if that floor is unreadable or another one, and touches no context otherwise. |
| VaultViews.RetiresExactly | src/daemon/vault_registry.rs:76-83 | Retiring all scopes leaves no holder, no floor and no published context that is not retired or still watches; contexts that were not published are untouched. |
| VaultViews.DropsExactly | src/daemon/vault_registry.rs:193-212 | A drop removes one holder only; the context of its scope is retired exactly if nobody is left and stops watching exactly if no remaining holder watches, and no other context changes. |
| VaultViews.PublishesExactly | src/daemon/vault_registry.rs:350-367 | A publication succeeds exactly if the holder is in the granted scope; the scope then leads to the context, which is active and watches exactly if a holder wants it and a watcher was started or running; nothing else changes. |
| AttachTheorems.WithdrawnStaysWithdrawn | src/daemon/vault_registry.rs:85-90 | No step makes a known holder that is not live resolvable again. |
| AttachTheorems.ContextNeverSwapped | src/daemon/vault_registry.rs:312-365 | Across any step, a holder that stays live keeps the context it resolves to. |
| AttachTheorems.ResolvedContextIsSound | src/daemon/vault_registry.rs:416-428 | Whatever a holder resolves to is activated, not retired, built with the patterns of the holder's scope, and at least as strict as the floor in force. |
| AttachTheorems.FinishedHoldersShare | src/daemon/vault_registry.rs:312-366 | Live holders of a scope that finished attaching resolve to one context; it watches if any of those two asked for it, and only if some live holder did. |
| AttachTheorems.RevokedBuildIsDoomed | src/daemon/vault_registry.rs:350-356 | A context built by an attach whose holder was revoked meanwhile is inactive, unpublished and held by nobody who could publish it. |
| AttachTheorems.DoomedStaysDoomed | src/daemon/vault_registry.rs:350-366 | Such a context is never published or activated by any later step. |
| AttachTheorems.OnlyPublicationActivates | src/daemon/vault_registry.rs:364-365 | A context becomes active only in the publication of an attach whose holder is live. |
| AttachTheorems.FloorIsLatestObservation | src/daemon/vault_registry.rs:101-134 | When a step changes the floor in force, it is a reservation that applies the latest observation there is, newer than any applied before: a slower earlier read never overrides a later one. |
| AttachTheorems.SupersededDropIsInert | src/daemon/vault_registry.rs:136-168 | When a reservation issues a new grant to a connection that already had one, the old holder is not live any more, and dropping its grant would change nothing. |
| AttachTheorems.DropIsIsolated | src/daemon/vault_registry.rs:193-211 | Dropping a live grant withdraws that holder only: every other live holder stays live, on its context, and its watcher stays if it asked for one. |
| AttachTheorems.StepHistory | src/daemon/vault_registry.rs:75-212 | Every holder live after a step was issued by it, or was live before it in the same scope, with the same watch preference and with the same context if its scope had one. |
| AttachTheorems.LeavesExactlyWhen | src/daemon/vault_registry.rs:76-212 | A live holder is withdrawn by exactly these steps: its own drop, a revocation, a replaced directory, and an admitted reservation that read another floor or none. |
| AttachTheorems.ContextRetiredExactlyWhen | src/daemon/vault_registry.rs:76-212 | A context is retired by a step if and only if the step takes its publication away, and retirement is for good. |
| AttachTheorems.RetiredStaysQuiet | src/daemon/vault_registry.rs:350-366 | No step starts a watcher on a retired context. |
| AttachTheorems.IssueRecordsTheAsk | src/daemon/vault_registry.rs:105-168 | A reservation that issues a holder enters it into exactly the scope of the floor it read and the rules its attach asked for. |
| AttachTheorems.PublicationServes | src/daemon/vault_registry.rs:350-367 | An attach that reaches its publication finishes if and only if its holder is live, and then its holder resolves to the context it brought. |
| AttachTheorems.AttachGivesUpExactlyWhen | src/daemon/vault_registry.rs:313-317 | The look under the initialization lock ends the attach if and only if its holder was withdrawn. |
| AttachTheorems.FinishedHolderGetsItsRules | src/daemon/vault_registry.rs:105-168 | A live holder that finished attaching resolves to an active context built with exactly the floor in force and the rules it attached with, watched if it asked for that. |
| RootsRegistry.TakeKeepsInv | src/daemon/vault_registry.rs:263-414 | Every step of the registry (lookup, close in its three parts, a vault's own step, death and late cleanup of a vault) keeps the registry's invariant. |
| RootsRegistry.RunKeepsInv | src/daemon/vault_registry.rs:263-414 | The invariant holds in every reachable state of the registry. |
| RootsRegistry.WithdrawnForever | src/daemon/query.rs:220-229 | On every run of the registry, a holder id that was withdrawn never becomes live again. |
| RootsRegistry.SupersededForever | src/daemon/query.rs:83-85 | On every run, from the reservation that gave a connection a new grant on, the old holder is never live, so dropping the old grant after the attach returned, whenever that is, changes nothing. |
| RootsRegistry.SearchWasAuthorized | src/daemon/query.rs:103-134 | If a query's checks before and after both resolve its holder, then in every state between them the holder resolved to one and the same active, unretired context of one vault. |
| RootsRegistry.ResolvedIsUsable | src/daemon/query.rs:220-229 | A holder that resolves is live, and its context is active, not retired and at least as strict as the current floor. |
| RootsRegistry.ContextHolds | src/daemon/vault_registry.rs:312-365 | On every run, a holder that resolves to a context and is live later resolved to that very context in every state between: once set, a context is never swapped. |
| RootsRegistry.DoomedForever | src/daemon/vault_registry.rs:350-366 | On every run, a context built for a holder that was revoked meanwhile is never activated, and no holder ever resolves to it. |
| RootsRegistry.ClosedForever | src/daemon/vault_registry.rs:263-279 | Once `close` has returned, no later step of any attach in flight makes any holder of any vault live. |
| RootsRegistry.ReplacedForever | src/daemon/vault_registry.rs:397-402 | Once a directory was marked replaced, its vault stays so and never again has a live holder. |
| RootsRegistry.RootsAreComplete | src/daemon/vault_registry.rs:374-414 | In every reachable state the table leads to each vault that is alive and not replaced. |
| RootsRegistry.CleanupSparesSuccessor | src/daemon/vault_registry.rs:172-184 | A dying vault that cleans up late never removes the entry of a live successor. |
| RootsRegistry.DelayedLookupIsInert | src/daemon/vault_registry.rs:391-396 | A lookup whose first look at the directory is out of date revokes and enrols nothing; what it still finds is alive, current and the directory it looked at. |
| RootsRegistry.WatcherOnlyIfAskedFor | src/daemon/vault_registry.rs:357-363 | In every reachable state a published context has a watcher only if some live holder of its scope asked to watch. |
| RootsRegistry.FinishedHoldersAreServed | src/daemon/vault_registry.rs:312-366 | In every reachable state, live holders of a scope that finished attaching share one usable context, which watches if either asked, excludes exactly the floor in force and the rules the holder attached with, and each was admitted under that floor. |
| RootsRegistry.AttachGetsWhatItAsked | src/daemon/vault_registry.rs:94-367 | On every run, as long as a holder that a reservation issued is live, the floor in force is the one its attach read, it sits in the scope of that floor and its attach's own rules with its own watch preference, and once the attach has finished it resolves to a usable context that excludes exactly those patterns, watched if it asked for that. |
| RootsRegistry.HolderLeavesExactlyWhen | src/daemon/vault_registry.rs:76-279 | In the whole registry a live holder is withdrawn by exactly these steps: its own drop, a reservation of its vault under another floor, `close`, and a lookup that finds another directory in the vault's place. |
| RootsRegistry.RetiredForever | src/daemon/vault_registry.rs:76-212 | On every run a retired context stays retired, never watches again, and no holder resolves to it. |
| RootsRegistry.LooksUpExactly | src/daemon/vault_registry.rs:374-414 | A lookup finds a vault if and only if the registry is open and the path leads to a live vault of the directory looked at, or a new one is wanted and both looks agree; it returns that vault, or else the new one. |
| RootsRegistry.LookupChangesVaults | src/daemon/vault_registry.rs:374-414 | A lookup enrols the vault it newly returns, marks a live vault replaced exactly if both looks found another directory in its place, and changes no other vault. |
| RootsRegistry.LookupChangesRoots | src/daemon/vault_registry.rs:374-414 | A lookup changes the table at its own path only: there it leads to what was enrolled, or no longer to what was superseded. |
| RootsRegistry.CleanupRemovesExactly | src/daemon/vault_registry.rs:172-184 | A dead vault's cleanup takes exactly the entries that lead to it out of the table. |
| RootsRegistry.PolicyStatusIsCurrent | src/daemon/vault_registry.rs:430-468 | What a status query by policy reports, with any steps between its two looks, is usable and was built under exactly the current floor and the caller's rules. |
| RootsRegistry.PolicyStatusFindsHolders | src/daemon/vault_registry.rs:430-468 | If the floor is the same at both looks, a status query for the rules of a live holder that finished attaching reports the context which that holder resolves to. |
| AttachedVaults.AttachedVault.RetireAll | src/daemon/vault_registry.rs:76-83 | The loop over the scopes leaves the state that `VaultViews.RetireAll` describes: nothing is granted, exactly the contexts that were published are retired and no longer watch, all others are as before. |
| AttachedVaults.AttachedVault.FindHolder | src/daemon/vault_registry.rs:85-90 | The search by holder id finds a scope exactly when the id is live, and the one it is live in. |
| AttachedVaults.AttachedVault.ApplyFloor | src/daemon/vault_registry.rs:127-134 | Applying an observed floor revokes everything exactly if its patterns differ from the floor in force. |
| AttachedVaults.AttachedVault.Enter | src/daemon/vault_registry.rs:157-158 | A new holder enters its scope, made on demand with a fresh initialization lock, and nothing else changes. |
| AttachedVaults.AttachedVault.Reserve | src/daemon/vault_registry.rs:116-168 | The mutable reservation does what the specification says, and succeeds exactly if it may: for the floor read and the caller's own rules together, with the connection's holder or the fresh one, and with each refusal in exactly its case. |
| AttachedVaults.AttachedVault.DropGrant | src/daemon/vault_registry.rs:193-212 | The mutable drop leaves the specified state: a missing holder changes nothing, the last one retires the context and removes the scope, the last watching one stops the watcher. |
| AttachedVaults.AttachedVault.Peek | src/daemon/vault_registry.rs:313-317 | The look at the scope yields the context in it, if any, and whether a live holder watches; it yields nothing exactly if the holder is not live. |
| AttachedVaults.AttachedVault.Open | src/daemon/vault_registry.rs:335-348 | A cold open adds one inactive context to the world and publishes nothing. |
| AttachedVaults.AttachedVault.Publish | src/daemon/vault_registry.rs:350-366 | The mutable publication succeeds exactly if the holder is still in the granted scope; the scope then leads to this context, active, and watching exactly if a holder wants it and a watcher is there; otherwise nothing changes. |
| OwnerArbitration.TakeKeepsInv | src/tools/mod.rs:120-235 | Every step of handlers, spawned acquisitions, dropped tokens, fallbacks, removed slots and aborted tasks keeps the invariant of the owner arbitration. |
| OwnerArbitration.RunKeepsInv | src/tools/mod.rs:120-235 | The invariant holds in every reachable state. |
| OwnerArbitration.NegotiationsAreCounted | src/tools/mod.rs:120-133 | On every run `negotiating` equals the number of acquisitions that still hold their token. |
| OwnerArbitration.LocalForever | src/tools/mod.rs:225-235 | Once local ownership is selected it stays selected; no negotiation is live, no stricter scope was seen, and no acquisition ever starts. |
| OwnerArbitration.StricterGrantForbidsLocal | src/tools/mod.rs:199-201 | Once a daemon granted a scope other than the local one, local ownership is never selected and every later attempt to select it fails. |
| OwnerArbitration.FallBackSucceedsIff | src/tools/mod.rs:225-235 | In every reachable state falling back succeeds exactly if no negotiation is live and no stricter scope was ever granted. |
| OwnerArbitration.AcquisitionIsSingleFlight | src/tools/mod.rs:160-223 | In every reachable state a slot has at most one acquisition in flight that nobody aborted, and every waiter in that slot awaits that one. |
| OwnerArbitration.ReplacementDiffers | src/tools/mod.rs:179-184 | A caller that reported an expired attachment is never handed that attachment back. |
| OwnerArbitration.OneReplacementServesAll | src/tools/search.rs:349-366 | Once a slot holds a replacement, and until that very id is reported expired, the slot keeps it, starts no acquisition, and hands it to every caller that reports any other id. |
| OwnerArbitration.HarvestServesAll | src/tools/mod.rs:208-220 | The waiter that sees an acquisition end with an attachment returns that attachment, and the slot holds it from then on until somebody reports it expired. |
| OwnerArbitration.FinishedCarriesItsAttachment | src/tools/mod.rs:192-204 | On every run, what an acquisition attached is what it has finished with whenever it has finished. |
| OwnerArbitration.DaemonHitsPrecedeLocal | src/tools/search.rs:283-303 | A search in automatic mode yields daemon hits only if local ownership had not been selected in any state up to its final check. |
| OwnerArbitration.LocalAnswersRespectOwners | src/tools/search.rs:283-303 | A search in automatic mode is answered locally only with no live negotiation and no stricter grant, and, if that selects local ownership now, only after an outage. |
| OwnerArbitration.SearchAnswersExactly | src/tools/search.rs:283-303 | A search is answered locally if and only if the mode is local, or automatic with local ownership selected, or automatic with a fallback at hand after an outage (unavailable or bootstrap required) with no stricter owner seen and nothing negotiating; otherwise with the daemon's own hits or error. |
| OwnerArbitration.OutageFallsBackIff | src/tools/mod.rs:327-341 | In every reachable state in which local ownership is not selected, an outage in automatic mode is answered locally if and only if no negotiation is live and no stricter scope was ever granted, and with the daemon's error otherwise. |
| RuntimeAttachments.RuntimeAttachments.SlotFor | src/tools/mod.rs:160-168 | The first critical section of `handle`, on the mutable state: the slot of the key, made on demand, unless local ownership is selected. |
| RuntimeAttachments.RuntimeAttachments.Decide | src/tools/mod.rs:172-205 | The second critical section on the mutable state refuses, reuses, joins or starts in exactly the cases for each; an attachment reported expired is neither handed out nor kept, and the counter rises exactly when an acquisition starts, beside no other. |
| RuntimeAttachments.RuntimeAttachments.Harvest | src/tools/mod.rs:208-220 | After the awaited task ended, the slot forgets the acquisition and holds the result if there is one. |
| RuntimeAttachments.RuntimeAttachments.DropToken | src/tools/mod.rs:125-133 | Dropping a negotiation decrements the counter and makes the stricter-owner flag sticky. |
| RuntimeAttachments.RuntimeAttachments.SelectLocal | src/tools/mod.rs:225-235 | The selection on the mutable state is as specified: refused while anything negotiates or a stricter owner was seen, otherwise sticky, clearing the slots only the first time. |
| RuntimeAttachments.RuntimeAttachments.FinishSearch | src/tools/search.rs:283-303 | The owner choice at the end of a search, on the mutable state: answered locally if and only if the mode or an earlier selection says so, or an outage in automatic mode may fall back; otherwise with the daemon's own hits or error. Local ownership is selected exactly in the last case, and the slots are then cleared. |
| DaemonSearch.AcceptHits | src/tools/search.rs:368-390 | The loops accept an answer exactly if it is no longer than asked for, within the requested paths, free of duplicates and current; otherwise the first fault is named. |
| DaemonSearch.SearchDaemon | src/tools/search.rs:324-397 | The daemon is asked at most twice, the second time exactly if it no longer knew the attachment and a replacement was obtained; hits are returned exactly if the last answer is acceptable. |
| Bootstrap.StartedIsFinal | src/daemon/bootstrap.rs:116-133 | A started continuation is never changed by any number of resumptions, and spawns nothing. |
| Bootstrap.ResumptionsSpawnOnce | src/daemon/bootstrap.rs:116-133 | Any number of resumptions, each cut off at any await, spawn at most one process, and the continuation then names exactly that one. |
| Bootstrap.StartupSpawnsOnce | src/daemon/bootstrap.rs:409-414 | A begin call that returned a continuation and all its resumptions together spawn at most one process. |
| Bootstrap.PendingNamesItsProcess | src/daemon/bootstrap.rs:618-633 | A returned continuation is the started one exactly if its call spawned a process, and names it. |
| Bootstrap.SpawnsExactlyWhen | src/daemon/bootstrap.rs:424-606 | A startup spawns a process if and only if nothing usable is left at the endpoint (or a daemon was stopped), the first choice of a binary is there or, unless an override is named, one is found on the search path or downloaded, a sibling's version is readable, and the system starts it. |
| Bootstrap.StartsTheRightBinary | src/daemon/bootstrap.rs:536-606 | What is started and as whose: the override; or else the sibling, the manifest's own binary with its own origin, or the managed one, if it is there; or else the daemon on the search path, recorded as such; or else the managed download. A missing override is never replaced by something else. |
| Bootstrap.StartsItProperly | src/daemon/bootstrap.rs:531-606 | The process, endpoint and model of a start, and the version it must report, in terms of the manifest and the configuration. |
| Bootstrap.StartEndsExactly | src/daemon/bootstrap.rs:608-682 | A start is ready if and only if the spawned process itself answers in time, as the expected version, and is recorded; it is pending exactly if nothing answered in time, and leaves the manifest alone unless it is ready. |
| Bootstrap.ResumptionEndsExactly | src/daemon/bootstrap.rs:128-131 | A resumption of a started daemon waits for it under the lock and does nothing else: it is ready if and only if the process named in the continuation answers in time, as the expected version, and is recorded, and stays pending exactly if nothing answers in time. |
| Bootstrap.ReusesExactlyWhen | src/daemon/bootstrap.rs:437-513 | The daemon at the endpoint is reused if and only if it is healthy, that can be recorded, and, if the package owns it, its sibling can be compared and does not outrank it; the manifest then takes its version and the origin in force. A startup is pending without a process exactly if the probe timed out. |
| Bootstrap.OriginMeans | src/daemon/bootstrap.rs:1157-1173 | The origin in force is the manifest's own unless an override is configured or an unknown origin is classified by the path; it is owned exactly if nothing overrides it and the manifest says sibling or managed download, or unknown with the sibling's or the managed path. |
| Bootstrap.ManifestIsEarned | src/daemon/bootstrap.rs:499-513 | The manifest changes only with a successful outcome: on reuse of the endpoint that answered, keeping all but version and origin, or for a spawned process whose endpoint reported its pid and, for a sibling, the expected version. Any mismatch, timeout or cut leaves it intact. |
| Bootstrap.StopsExactlyWhen | src/daemon/bootstrap.rs:460-498 | A call asks a daemon to stop if and only if the manifest's endpoint is healthy, no override is configured, the origin in force is owned, and the inspected sibling outranks it by version, or by capability at equal version. |
| Bootstrap.ReplacementRaises | src/daemon/bootstrap.rs:460-498 | A completed replacement strictly raises the pair of version and required capabilities, for a sibling that stays in place and reports what its binary advertises. |
| Bootstrap.UpToDateForever | src/daemon/bootstrap.rs:460-513 | In a world with one unchanging sibling, a daemon it does not outrank is followed only by such daemons. |
| Bootstrap.ReplacedAtMostOnce | src/daemon/bootstrap.rs:460-513 | With one unchanging, honest sibling, after a call that replaced the daemon no later call stops one, and a healthy one is not restarted. |
| Bootstrap.StopNeedsOwnership | src/daemon/bootstrap.rs:1157-1173 | No call of any kind (startup, resumption, reconciliation, preparation) stops a daemon under an override, or one whose manifest says override or search path, or unknown without the call claiming its binary. |
| Bootstrap.ExternalIsNeverStopped | src/daemon/bootstrap.rs:424-514 | On every run of startups, resumptions and upgrader calls with any configurations, a daemon whose manifest says override, search path or unknown is never stopped while it is the committed one; unknown counts as long as no call claims its binary as the sibling's or the managed one. |
| Bootstrap.PathDaemonIsNeverStopped | src/daemon/bootstrap.rs:424-634 | On every run, a daemon that a startup found on the search path, started and committed is never stopped by any call until another process is committed, and the manifest keeps naming its process and its binary. |
| Bootstrap.ExternalStays | src/daemon/bootstrap.rs:499-513 | A call that commits no new process leaves an external manifest with its pid and binary, and never turns it into an owned one. |
| Bootstrap.SomeStartupStopsIff | src/daemon/bootstrap.rs:460-498 | For given sibling and managed paths, some startup stops the daemon of a manifest if and only if nothing overrides it, its endpoint is usable and its effective origin is owned. |
| Bootstrap.UnknownCanBeStopped | src/daemon/bootstrap.rs:1157-1173 | A manifest of unknown origin that names the sibling's path counts as owned: the daemon behind it is stopped for a newer sibling. |
| Bootstrap.UncommittedOverrideCanBeStopped | src/daemon/bootstrap.rs:460-498 | The same fails for a process whose start was never committed: a process spawned under an override, still pending, answers at the endpoint of an older owned manifest and is stopped by a later call. |
| Bootstrap.UpgradeRaises | src/daemon/bootstrap.rs:165-346 | The upgrader asks only an owned daemon to stop that the installed binary outranks, rewrites the manifest only for a completed restart of exactly that version at the same endpoint, and such a restart, of a binary that reports what it advertises, strictly raises version and capabilities. |
| Bootstrap.ReconcilesExactly | src/daemon/bootstrap.rs:165-346 | The upgrader stops a daemon if and only if it is reachable, healthy, owned and outranked by an installed binary that is there; the restart is complete if and only if the new process answers as the installed version and is recorded; and exactly a missing, unreachable, external, newer or up-to-date daemon is preserved without an error. |
| Bootstrap.PreparesExactly | src/daemon/bootstrap.rs:351-402 | Before an upgrade exactly the healthy daemons are stopped that no override covers and whose manifest says sibling or managed download, or unknown with the installed or the managed path. |
| Bootstrap.UpgradeDoesNotCheckThePid | src/daemon/bootstrap.rs:303-335 | A completed restart may save the pid of the spawned process although the endpoint reported another one. |
| Bootstrap.UpgraderSparesExternal | src/daemon/bootstrap.rs:165-402 | Neither entry point of the upgrader stops a daemon, or changes its manifest, under an override or when the manifest's effective origin is override, search path or unknown. |
| PendingBootstraps.WaitForHealth | src/daemon/bootstrap.rs:1050-1091 | The loop returns the first poll that is not an unreachable endpoint, and a timeout if there is none before the deadline. |
| PendingBootstraps.PendingBootstrap.Complete | src/daemon/bootstrap.rs:637-682 | On the mutable home: the manifest is rewritten only for the reported pid and expected version; the result is as specified. |
| PendingBootstraps.PendingBootstrap.Start | src/daemon/bootstrap.rs:528-634 | Spawning records the process in the continuation before anything else can be awaited; manifest, continuation and outcome are as specified at every cut. |
| PendingBootstraps.PendingBootstrap.Ensure | src/daemon/bootstrap.rs:424-634 | The whole startup call on the mutable home and continuation leaves exactly the specified manifest, processes spawned and daemons asked to stop. |
| PendingBootstraps.PendingBootstrap.Resume | src/daemon/bootstrap.rs:116-133 | A resumption leaves exactly the specified continuation, manifest and effects; a started one spawns and stops nothing, and the manifest changes only with success. |
| PendingBootstraps.DeferredClient.Resolve | src/tools/mod.rs:263-279 | Startup is resumed exactly while there is no client: before that a call has the effects of one resumption, afterwards none; success needs a client whose last health has the capabilities. |
| PendingBootstraps.DeferredClient.RequireCapabilities | src/client/semantic_daemon.rs:157-171 | An accepted observation is kept without asking; a negative one is replaced by a fresh read if there is one, and the answer follows what is then known. |
| ConnectionPipeline.HandleRequests | src/daemon/server.rs:248-306 | For every interleaving of arriving lines, finishing dispatches and socket failures: processed, current, pending and unread lines make up the input, at most 16 are pending, the replies are those of in-order processing, each way of ending leaves what it should, and, unless the socket fails, the connection is cut off for pipelining exactly if the reference overflows. The lines processed, the line being dispatched and the ending are exactly those that the input, the dispatches and the faults determine; in particular a shutdown outcome ends the connection at once and is what a reported shutdown means. |
| ConnectionPipeline.EndIsDetermined | src/daemon/server.rs:248-306 | The input, the dispatches and the faults leave a connection only one way to end: the first line that cannot be read, is read ahead too far, is never finished by its dispatch, cannot be answered, or shuts the daemon down. |
| ConnectionPipeline.ReadAhead | src/daemon/server.rs:285-295 | The reads during a dispatch keep all lines in order and stop the connection exactly at the end of the stream or at a seventeenth pending line. |
| ConnectionPipeline.Dispatch | src/daemon/server.rs:279-298 | One dispatch reads ahead only on a connection that owns a scope or asks for one, and ends the connection for pipelining exactly if the reference is cut off there. |
| ConnectionPipeline.OneReplyPerLine | src/daemon/server.rs:257-305 | In-order processing replies exactly once to each non-blank line, in input order, to a request with its own id. |
| ConnectionPipeline.ReplyCarriesItsOutcome | src/daemon/server.rs:271-301 | The reply to a request carries the outcome of that very request: the one with as many requests before it. |
| ConnectionPipeline.InOrderExtends | src/daemon/server.rs:257-305 | Processing one more line adds exactly that line's reply. |
| ConnectionPipeline.RepliesIgnoreReadAhead | src/daemon/server.rs:285-295 | How far reads ran ahead decides where a connection stops, never what it answers: a run that stops earlier has answered a prefix of the same replies. |
| ConnectionPipeline.SteadyClientFits | src/daemon/server.rs:288-292 | A client that sends at most one line during each dispatch never overflows, however much it sends in all. |
| ConnectionPipeline.ShortInputFits | src/daemon/server.rs:288-292 | A client that sends at most 17 lines never overflows. |
| ConnectionPipeline.EagerClientOverflows | src/daemon/server.rs:288-292 | Eighteen lines can be too many: an attaching client that sends seventeen more during its first dispatch is cut off. |
| ConnectionPipeline.PoliteClientIsServed | src/daemon/server.rs:248-306 | A client that does not overflow is never cut off for pipelining, and if its stream simply ends, every non-blank line was answered. |
| MemorySessions.SessionTable.AdmitRequest | src/memory_http.rs:179-194 | The first critical section on the mutable table: exactly the unexpired sessions stay; a named request is let in exactly if its session is stored, unexpired and bound to the same token and policy, an unnamed one exactly if fewer than 1024 unexpired sessions are left; otherwise it is unknown or the table is full. |
| MemorySessions.SessionTable.SettleRequest | src/memory_http.rs:198-220 | The second critical section on the mutable table: after a successful answer the answered id is gone if the request was a delete and otherwise bound to the request's digests and expiry; all other sessions are as before. |
| MemorySessions.TableIsBounded | src/memory_http.rs:179-220 | With at most n requests in flight the table never holds more than 1023 + n sessions, whatever is deleted or expires meanwhile. |
| MemorySessions.PotentialIsBounded | src/memory_http.rs:179-220 | The stored ids, the ids that requests in flight may put back, and the newcomers in flight together never exceed 1023 + n. |
| MemorySessions.BoundIsReached | src/memory_http.rs:191-193 | For every n the bound is reached by some run, so the capacity of 1024 is exceeded by concurrent newcomers and the bound cannot be improved. |
| MemorySessions.StepKeepsBindings | src/memory_http.rs:198-220 | Every step keeps all stored bindings, and those about to be stored again, equal in token and policy to the first binding of their id. |
| MemorySessions.SessionsNeverChangeHands | src/memory_http.rs:184-193 | All bindings ever stored under one id carry the same token and policy digests, through deletion, expiry and re-insertion. |
| MemorySessions.AdmitsExactly | src/memory_http.rs:179-194 | What the first critical section keeps and whom it admits, refuses as unknown or as too many, in terms of the table before it. |
| MemorySessions.TableIsHistory | src/memory_http.rs:179-220 | In every reachable state the table holds exactly the bindings that were bound last under their ids and that no answer deleted and no sweep found expired since. |
| MemorySessions.AdmittedWithinLifetime | src/memory_http.rs:179-220 | On every run a request that names a session is admitted if and only if some earlier answer bound that id to the request's token and policy, the binding has not expired at this or any arrival since, and no answer since then deleted or rebound the id. |
| Utf8.DecodeEncode | src/config/source.rs:202-205 | Decoding reads back every encoded string. |
| Utf8.EncodeDecode | src/config/source.rs:195 | Only encodings decode: strict decoding accepts no overlong form, surrogate or truncated sequence. |
| Utf8.RowsOfTheTable | src/config/source.rs:202-205 | The first and last code point of each length are written as the bytes the Unicode Standard gives. |
| PercentCodec.DecodeComponent | src/config/source.rs:171-200 | The decoding loop computes the specified result on every string, including each refusal. |
| PercentCodec.EncodeComponent | src/config/source.rs:202-213 | The encoding loop computes the specified text. |
| PercentCodec.DecodesExactly | src/config/source.rs:171-200 | A component decodes to v if and only if v is free of separators and control characters and the text spells v's bytes one by one, each as itself or as an escape in either case. |
| PercentCodec.DecodeUndoesEncode | src/config/source.rs:171-213 | Decoding an encoded string returns it exactly if it has no '/', '\' or control character, and is refused for every other string. |
| PercentCodec.CanonicalSpelling | src/config/source.rs:202-213 | Among all texts that decode to a clean value, exactly the encoder's is canonical, that is made of unreserved characters and upper-case escapes of other bytes. |
| PercentCodec.Recoding | src/config/source.rs:171-213 | Re-encoding what any spelling decodes to gives the canonical spelling of the same value, and gives the text back exactly if it was canonical. |
| PercentCodec.EncodesOnlyTheUnsafe | src/config/source.rs:202-213 | Encoding leaves a string alone if and only if it is made of letters, digits and the four unreserved marks. |
| PercentCodec.HexadecimalDigits | src/config/source.rs:177-186 | Escapes are hexadecimal, read in either case and written in upper case. |
| SftpUri.ParseUri | src/config/source.rs:32-89 | The parser with its loop over the path parts computes the specified location or refusal on every text. |
| SftpUri.DisplayUri | src/config/source.rs:91-118 | The printer with its loop over the parts computes the specified URI. |
| SftpUri.ParsedLocationIsValid | src/config/source.rs:32-89 | Every parsed location has an acceptable host, a non-empty clean user without ':', a port from 1 to 65535, and a root made of clean parts other than '.' and '..'. |
| SftpUri.DisplayRoundTrip | src/config/source.rs:32-118 | Displaying any valid location gives text that parses to that location. |
| SftpUri.LocationsAreTheValidOnes | src/config/source.rs:32-118 | A location is the result of parsing some text if and only if it is valid, and if and only if its own display parses to it. |
| SftpUri.ParseDisplayParse | src/config/source.rs:32-118 | Whatever is accepted survives display, and two accepted texts display alike if and only if they name one location. |
| SftpGrammar.ParsesExactly | src/config/source.rs:32-89 | A text parses to a location if and only if it is written by the grammar: a scheme in any case, a user without password, a host name or an address in brackets, an optional port that is not zero, and a path whose parts decode to names other than dots; and each such text names exactly that location. |
| SftpUri.DisplaysExactly | src/config/source.rs:91-118 | What a location is displayed as, part by part: nothing that is absent, brackets around addresses, each name encoded. |
| SftpUri.DecimalIsShortest | src/config/source.rs:104-106 | Ports are displayed without leading zeros. |
| VaultTree.InsertAddsPrefixes | src/tools/navigation.rs:231-239 | Inserting a path adds exactly the prefixes of its component list. |
| VaultTree.InsertKeepsSorted | src/tools/navigation.rs:220-239 | Insertion keeps the children of every node strictly sorted. |
| VaultTree.LessExactly | src/tools/navigation.rs:220-222 | Names are ordered by their first difference, as strings are by their code points. |
| Text.ComponentsExactly | src/tools/navigation.rs:231-239 | The names along a path in any spelling: a slash separates the names before it from those after it, and empty names count for nothing. |
| VaultTree.TreeIsPrefixClosure | src/tools/navigation.rs:183-193 | After inserting any list of paths the tree is exactly the prefix closure of their component lists. |
| VaultTree.NodesAreNames | src/tools/navigation.rs:231-239 | Every node of the tree is reached by names that are not empty and hold no separator. |
| VaultTree.JoinedNamesAreOneBranch | src/tools/navigation.rs:231-239 | Conversely the path that joins any such names gives the tree of exactly their prefixes. |
| VaultTree.NodesDetermineTree | src/tools/navigation.rs:220-239 | A sorted tree is determined by the set of its nodes. |
| VaultTree.SameTreeExactly | src/tools/navigation.rs:231-239 | Two lists of paths give the same tree if and only if every path of each is, or leads towards, a path of the other. |
| VaultTree.OrderDoesNotMatter | src/tools/navigation.rs:231-239 | Any reordering of the paths gives the same tree. |
| TreeDrawing.OneLinePerNode | src/tools/navigation.rs:242-262 | The drawing has one line per node, in strictly increasing dictionary order of paths with directories first, and each line shows its node's depth and name. |
| TreeDrawing.DrawsConnectors | src/tools/navigation.rs:242-262 | How an entry is drawn: the connector before its name, and the bar or gap below it, as the last of its siblings or not. |
| TreeDrawing.ListingReadsBack | src/tools/navigation.rs:195-206 | If neither the label nor any name holds a line feed, reading the listing back gives the label and the tree. |
| TreeDrawing.RebuildOutline | src/tools/navigation.rs:242-262 | Depths and names in drawing order determine the tree, wherever it stands. |
| TreeDrawing.ReadDrawnLines | src/tools/navigation.rs:242-262 | Drawn lines read as the nodes' depths and names whatever the names contain. |
| TreeDrawing.LineFeedsAreAmbiguous | src/tools/navigation.rs:242-262 | The condition cannot be dropped: two different trees, one with a line feed in a name, have the same listing. |
| VaultList.TreeNode.Insert | src/tools/navigation.rs:231-239 | Inserting into the mutable tree changes its value exactly as specified and keeps the nodes disjoint. |
| VaultList.TreeNode.Render | src/tools/navigation.rs:242-262 | The loop over the children of the mutable tree draws the specified text. |
| VaultList.ListTree | src/tools/navigation.rs:178-206 | The whole listing, with prefix stripping, depth limit, label and the dropped last line feed, is the specified one. |
| VaultList.ListsExactly | src/tools/navigation.rs:178-193 | The listed tree holds exactly the files within the depth limit and the directories on the way to them. |
| BatchRead.NoteReadMany | src/tools/notes.rs:236-433 | The limits, the selectors, the selection, the validation, the loop and the tail compute the specified output or failure. |
| BatchRead.RefusedExactlyWhen | src/tools/notes.rs:240-304 | A call is refused for its parameters exactly if a limit is zero, not exactly one selector is given, or explicit paths come with directory options, are empty or exceed 100. |
| BatchRead.AnswersExactlyWhen | src/tools/notes.rs:306-432 | A selection is answered if and only if the limits are not zero, explicit paths are 1 to 100 and all validate, and none of the inspected candidates aborts the call. |
| BatchRead.ValidationIsTheFirst | src/tools/notes.rs:306-322 | Among explicit paths the first that does not validate decides what the call fails with. |
| BatchRead.MarkdownInOrder | src/tools/notes.rs:284-304 | A directory selects exactly its Markdown files, in listing order. |
| BatchRead.MarkdownMeans | src/tools/notes.rs:291-299 | A file is Markdown exactly if its path is a directory part, a stem that is not empty, and the extension in any case. |
| BatchRead.ReadSelected | src/tools/notes.rs:306-432 | Validation, loop and tail on the selected candidates compute the specified output or failure. |
| BatchRead.InspectAll | src/tools/notes.rs:324-411 | The loop over the inspected candidates computes the specified notes, skips, counts and first failure. |
| BatchRead.EveryCandidateIsAccountedFor | src/tools/notes.rs:307-432 | On success notes and skips add up to the candidates, details are kept for the first hundred skips, and content_bytes is the total of the returned lengths, within max_bytes and 262144. |
| BatchRead.ReturnsExactlyWhatFits | src/tools/notes.rs:324-411 | The notes are an in-order subsequence of the inspected candidates: exactly those that are readable and fit what the notes before them left of the budget. |
| BatchRead.SkipsAreReportedInOrder | src/tools/notes.rs:413-432 | The skip details are those of the first skipped candidates in order, each with its own reason, the ones past the file limit last. |
| BatchRead.IncludedExactlyWhenItFits | src/tools/notes.rs:324-411 | One inspected candidate becomes a note if and only if it is readable and both its reported size and its content fit. |
| BatchRead.JudgesFailuresExactly | src/tools/notes.rs:458-486 | A candidate is skipped as not found exactly if its note is missing, as unreadable exactly for an I/O error, an invalid source or a permission denied on opening or reading it, for the byte limit exactly if nothing failed and it does not fit, and aborts the call for every other failure; the skip names its resolved path if it has one. |
| BatchRead.BudgetIsWhatIsLeft | src/tools/notes.rs:352 | The budget a candidate meets plus the notes before it is max_bytes. |
| BatchRead.FittingContentIsIncludedIff | src/tools/notes.rs:352-411 | Readable content that fits is included if and only if the size reported beforehand fits, in particular whenever that size is current. |
| BatchRead.StaleSizeSkips | src/tools/notes.rs:365-373 | A note that shrank after its size was taken is skipped although its content fits. |
| BatchRead.FailsExactlyWhenAborted | src/tools/notes.rs:458-486 | The call fails on a file if and only if it reaches a candidate with a failure that is not that file's own. |
| BatchRead.FailsWithTheFirstAbort | src/tools/notes.rs:324-411 | A call that fails on a file fails with the failure of a candidate that aborted it, met with everything before it answered. |
| BatchRead.ValidatedLimit | src/tools/notes.rs:435-448 | A limit is the default unless one is asked for, refused exactly if it is zero, and otherwise what was asked for, up to the cap. |
| DaemonClient.Client.CallOnce | src/client/semantic_daemon.rs:369-408 | One attempt on the mutable client: its result, trace, request ids and observed health are as specified for every outcome and deadline. |
| DaemonClient.Client.Request | src/client/semantic_daemon.rs:349-367 | The retry loop returns the specified result and leaves the specified trace. |
| DaemonClient.ContentOnlyOnCheckedConnections | src/client/semantic_daemon.rs:376-391 | On every run a method other than health and shutdown is sent only on a connection whose own health reply was accepted. |
| DaemonClient.RepliesMatchTheirRequest | src/client/semantic_daemon.rs:515-577 | A reply is taken only if it bears the id of the very request it answers, and a gated one only after an accepted health reply to that connection's own probe. |
| DaemonClient.DeliveredAttachmentNeverTimesOut | src/client/semantic_daemon.rs:394-399 | Once `ensure_vault` is delivered, no deadline ends it. |
| DaemonClient.AttemptsAreBounded | src/client/semantic_daemon.rs:354-367 | A request makes one connection more than it retries, at most retries + 1, and pauses before its i-th retry for i times the backoff, saturated. |
| DaemonClient.StopsAtTheFirstFinalAttempt | src/client/semantic_daemon.rs:354-367 | The result is that of the first attempt that succeeds, fails for good or exhausts the retries; all earlier ones failed retryably. |
| DaemonClient.TotalSleep | src/client/semantic_daemon.rs:361-362 | For any backoff at all, the time slept after k retries is backoff times k(k+1)/2 if and only if backoff times k does not exceed the longest duration, and less otherwise. |
| DaemonClient.RequestSleeps | src/client/semantic_daemon.rs:349-367 | The same for the pauses of a whole request under any policy, with its bound on connections. |
| DaemonClient.PoliciesAreConfigured | src/config.rs:645-650 | Whatever the environment variables hold, the loaded policy has at most 10 retries and a backoff of at most 60 seconds; the default and the shutdown policy are within that too. |
| DaemonClient.ConfiguredRequestSleeps | src/client/semantic_daemon.rs:349-367 | Under every policy the program uses, a request that is retried k times makes k + 1 connections, at most 11, and sleeps exactly backoff times k(k+1)/2 in all, at most 55 minutes. |
| DaemonClient.ValidateSemantics | src/client/semantic_daemon.rs:52-77 | A health reply is accepted exactly if it has the API version and every required capability. |
| DaemonClient.RetriesExactlyWhen | src/client/semantic_daemon.rs:354-367 | An attempt is repeated if and only if retries are left and the daemon never answered it: no reply to the probe and none to the request arrived in time. |
| DaemonClient.UnansweredFailsWith | src/client/semantic_daemon.rs:410-513 | What kept the daemon from answering is what the error says: a refused connection, a deadline at one of the awaits, or a broken connection. |
| DaemonClient.AnsweredReturns | src/client/semantic_daemon.rs:369-408 | An attempt that was answered returns the daemon's own value or error, or says that the reply was not one to this request, or that the reported health has another API version or lacks a capability. |
| DaemonClient.RemembersHealth | src/client/semantic_daemon.rs:376-391 | The client remembers a reported health whether or not it accepts it, and nothing else. |
| ReadScope.AdmitsExactly | src/access.rs:72-86 | A validated scope admits exactly the normalized paths that equal a file grant or whose names properly extend those of a directory grant with one final slash. |
| ReadScope.DirectoryGrantExtends | src/access.rs:80-82 | For normalized paths a directory grant ending in one '/' as a string prefix is the same as a proper prefix of names. |
| ReadScope.DoubleSlashAdmitsNothing | src/access.rs:80-82 | A grant ending in two slashes admits no path. |
| ReadScope.DoubleSlashStillValidates | src/access.rs:48-69 | Validation accepts such a grant whenever it accepts it with one slash fewer. |
| ReadScope.AdmittedPathsStayInScope | src/access.rs:24-86 | Every admitted path lies under one of the four roots and has the scope's id among its names. |
| ReadScope.ConversationsNeverReadCapture | src/access.rs:62-63 | A validated conversation scope admits no path under Capture. |
| ReadScope.PrefixMeans | src/access.rs:49-68 | A grant validates if and only if it is a directory or a note under one of the four roots, spelled in visible names of which one is the scope's id, and a conversation asks for nothing under Capture. |
| ReadScope.ExpiryIsTheOnlyClock | src/access.rs:40-41 | A scope that validates at one time validates at any other exactly if it has not expired then. |
| ReadScope.ValidatedScopes | src/access.rs:24-48 | What every validated scope is made of: version, kinds, purposes, ids, number of grants, and an expiry in the future. |
| ReadScope.NormalizedIsTextual | src/access.rs:180-192 | The checks for '//' and on path components say nothing that the check on the parts between slashes does not. |

## Left out

- AttachedVaults.AttachedVault.Open: says that a context appears, not what opening does; the index, the search engine and the embedding runtime behind a context are opaque flags for watcher, activation and retirement.
- AttachProtocol.StepKeepsInv: a grant may be dropped at any moment, also while a query or an attach borrows it, which allows more runs than the connection loop does.
- AttachProtocol.ReserveKeepsInv: the checks that refuse an attach before it touches any state (an invalid descriptor, another model, another vault) are not modelled.
- AttachProtocol.DropKeepsInv: the drop of a grant is one step under the views lock, as in the source; the strong count that keeps the vault alive meanwhile is modelled by forbidding its death while grants are outstanding.
- RootsRegistry.SearchWasAuthorized: a hybrid search with an empty query returns after its first check, so for it only that check is authoritative; the search itself is not modelled.
- RootsRegistry.PolicyStatusIsCurrent: the floor is compared by its patterns where the source compares the shared reference, which accepts more.
- OwnerArbitration.NegotiationsAreCounted: the runtime outlives its tokens; a token whose runtime is gone is not modelled.
- OwnerArbitration.LocalForever: deadlines of waiters are a step that may happen at any time.
- Bootstrap.ReplacedAtMostOnce: for one sibling that stays the same between calls; a sibling exchanged between calls may replace the daemon again.
- Bootstrap.StopsExactlyWhen: the check that the process runs the manifest's binary, and the legacy termination path, are one outcome of the shutdown.
- PendingBootstraps.PendingBootstrap.Start: the recorded checksum of a downloaded binary, log paths and process arguments are not modelled; a download either installs the binary or fails.
- PendingBootstraps.WaitForHealth: the deadline passes after the last of a finite list of polls; pauses between polls have no duration.
- ConnectionPipeline.HandleRequests: a failed read or write and a dropped connection are one ending; parsing a line and dispatching a request are outcomes.
- MemorySessions.SessionTable.AdmitRequest: the clock is read once for all entries of one sweep; authorization of the token is outside, and a poisoned lock does not occur.
- SftpUri.ParseUri: the URL library's authority parser is a small grammar for user, host and port, and reading and canonicalising an address in brackets is a function that the theorems quantify over, assumed to return fixed points.
- VaultList.TreeNode.Insert: recursion stands for the loop that walks down the names; children are a sorted list of names and nodes.
- BatchRead.NoteReadMany: candidates come with their answers from the storage, and opening the storage itself does not fail; listed files whose names are not Unicode are passed over by the source and have no counterpart here.
- DaemonClient.Client.Request: JSON encoding and the transport are outcomes; requests of concurrent callers share only the id counter and the last observed health, and are modelled one at a time.
- ReadScope.AdmitsExactly: paths are text as on Unix; a path that is not Unicode is refused by the source and has no counterpart here.
- Front matter checks, the private source filter and expiry during a request (`src/access.rs`) are simple conjunctions and are not modelled.
- Scores, ranking and rendering of search results, and the local search itself.
- Sockets, named pipes, HTTP, process signalling, archives, configuration, logging and schemas.
- Tools that pass their parameters straight to the vault, such as writing notes or searching by pattern.
