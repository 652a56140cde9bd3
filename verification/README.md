# A verified model of the TaskController control plane and the Power package store

This project models, in Dafny 4.11, the parts of the repository that carry its protocols, and proves what
they keep over all inputs, all interleavings and all crash points. `dafny verify dfyconfig.toml` checks
everything.

| module | what it models |
|---|---|
| `ScopePaths`, `ExecutionBoundary` | delegation boundaries: path roots with wildcards, canonical envelopes, the child-subset check and whole delegation chains |
| `TerminalRace` | selecting one terminal signal, accounting for all others, sealing the race by a commit |
| `WakeupOutbox`, `WakeupDelivery`, `WakeupOutcome`, `WakeupStore`, `WakeupProjection` | the durable wakeup outbox: transactions, bounded delivery across crashes, which answer of a callback leads to which status, the object that runs them, the operator's read model |
| `Cancellation`, `CancellationReplies`, `CancellationStore` | cancellation under compare-and-swap, one store operation per step, the truth of every reply over whole runs, and the store, the cancellation path and the engine as objects |
| `Fencing`, `LeaseBinding`, `Takeover`, `TakeoverRuns`, `LeaseManager` | histories of retries and takeovers, the generation fence, the result fence, the lease hand-off under interleaving |
| `ResultPolling` | resuming a controller from a mailbox scan with a durable cursor |
| `FreshNames`, `PowerStore`, `PowerStoreObject` | the package store: directory swaps with undo, history, bindings, and every way an operation can be interrupted |
| `BlueprintRoutes`, `BlueprintTopology` | compiling route rows and topology entries into the edges of a plan |
| `AuditLedger`, `SemanticAudit` | the append-only run ledger with several writers, the semantic recorder and the reconstructed timeline |
| `Results`, `Text`, `Sequences`, `Sorting` | shared vocabulary |

How the pieces fit together. Each stateful component has a transition function over values; its run lemmas
quantify over every sequence of steps. The imperative form (classes with fields, loops with invariants) is
proved equal to those functions, so the run lemmas speak about the methods. A digest is a datatype
constructor applied to what it covers, hence injective. Clocks, callbacks, routing, timestamp parsing and
request compilation are arbitrary functions passed in as parameters. A database transaction is one step,
except where the code reads before it begins the transaction; those reads are steps of their own.

## Where the code falls short of its evident intent

Each of these is stated with its exact condition and a witness.

- A `/*` root grants one level, so a chain through it may not compose. `ExecutionBoundary.ComposesIffCovered`: a
  boundary composes with every chain below it exactly when each of its `/*` roots is covered by another root of
  the same list. A bare `*` or `**` is accepted but is an ordinary name (`ScopePaths.BareWildcardContainsOnlyItself`).
- The operator projection refuses an intent after two steps: blocking a row whose last attempt is not BLOCKED,
  and re-arming a BLOCKED row (`WakeupProjection.StepAgreement` is an equivalence; both steps are exhibited).
- Between the winning swap and the sidecar write, a cancellation identity can be reused for another run
  (`Cancellation.ReuseRefusedExactly`, `SidecarClosesIdentity`, `IdentityAcceptedTwice`), and the engine's own log answers a reused identity without comparing
  fingerprints (`CancellationStore.EngineRefusesReuseExactly`).
- A takeover retires the old lease before it looks at the replacement's timestamps and at the recorded generation;
  when these refuse the grant, the attempt has no active lease left (`Takeover.HandoffExactly`). Reading the run
  back after a detach can pick up a lease granted meanwhile, and two leases of one attempt become active
  (`TakeoverRuns.HazardExactly`). This can happen to a hand-off exactly when its replacement's generation is more than
  one beyond the recorded one (`TakeoverRuns.TwoActiveExactly`, `HazardHappens`); otherwise every grant in between
  uses up the generation and the hand-off is refused instead (`TakeoverRuns.TightNeverTwoActive`).
- A poll that sees an accepted terminal result and then accepted progress acknowledges the cursor and only then
  refuses to build its answer, so the result is never seen again (`ResultPolling.ResultReturnedExactly`,
  `RefusedResultIsLost`, `ResultCanBeLost`).
- An interrupted rewriting of bindings leaves some naming the previous package (`PowerStore.OperationTracks`,
  `InterruptedRefreshLosesTrack`). Exchanging the package never rewrites a runtime path
  (`PowerStore.DoctorAfterExchange`, `LifecycleRooted`).
- A second topology entry for an action silently replaces the first (`BlueprintTopology.RoutesKeptExactly`,
  `SecondEntryDropsFirst`). The older mapping of outcomes overwrites outcomes that differ only in letter case and does
  not look at its targets (`BlueprintTopology.LegacyKeptExactly`, `LegacyTargetsExactly`, `LegacyOverwrites`).

## Model

| member | source | states |
|---|---|---|
| `ScopePaths.WithinMeansSubset` | taskcontroller/controlplane/execution_boundary.py:188-216 | under an exact or `/**` parent, containment holds iff the child's set of paths is included in the parent's; under a `/*` parent it holds iff the roots are equal or the child is an exact root one segment deeper |
| `ScopePaths.RootForm` | taskcontroller/controlplane/execution_boundary.py:180-185 | root text and wildcard determine the segments of the original text |
| `ScopePaths.ParsedFormInjective` | taskcontroller/controlplane/execution_boundary.py:180-185 | two roots with the same segments and wildcard are the same text |
| `ScopePaths.BareWildcardContainsOnlyItself` | taskcontroller/controlplane/execution_boundary.py:126-139 | a bare wildcard passes validation and contains nothing but itself |
| `ScopePaths.WithinTransitive` | taskcontroller/controlplane/execution_boundary.py:188-216 | containment composes through any middle root when the outermost is not a `/*` root |
| `ScopePaths.RootsWithinTransitive` | taskcontroller/controlplane/execution_boundary.py:219-220 | lists of roots compose when every `/*` root of the outermost list is covered by another of its roots |
| `ScopePaths.UncoveredRootBreaks` | taskcontroller/controlplane/execution_boundary.py:188-220 | for every uncovered `/*` root there are a middle and a child root at which composition fails |
| `ScopePaths.ResolvesInPlace` | taskcontroller/controlplane/execution_boundary.py:130-134 | segments resolve below a base, dropping empty and `.` segments and going up at `..`, to the base followed by themselves iff none of them is empty, `.` or `..` |
| `ScopePaths.ValidRootExactly` | taskcontroller/controlplane/execution_boundary.py:126-139 | a root is valid iff it has no backslash, resolves below any base to exactly the base followed by its own segments, and has a `*` only as a whole last segment `*` or `**` |
| `ExecutionBoundary.ConstructCanonical` | taskcontroller/controlplane/execution_boundary.py:268-336 | whatever is constructed has sorted duplicate-free valid lists, limits in range, disjoint actions and the digest of its content; what a valid root keeps out is `RootsStayBelow` |
| `ExecutionBoundary.ListAcceptedExactly` | taskcontroller/controlplane/execution_boundary.py:99-123 | a list is accepted iff its length is in range, its texts are tidy and distinct and, for paths, their characters and segments are safe |
| `ExecutionBoundary.ConstructAcceptsExactly` | taskcontroller/controlplane/execution_boundary.py:268-336 | exactly which payloads construct: five accepted lists, disjoint actions, limits and budgets in range |
| `ExecutionBoundary.RootsStayBelow` | taskcontroller/controlplane/execution_boundary.py:126-139 | every root of a constructed boundary resolves below any base to the base followed by its own segments, so it never leaves the base |
| `ExecutionBoundary.CanonicalConstruct` | taskcontroller/controlplane/execution_boundary.py:268-336 | constructing from a canonical boundary's own payload gives it back |
| `ExecutionBoundary.ConstructForgetsOrder` | taskcontroller/controlplane/execution_boundary.py:99-123 | permuting any input list changes neither acceptance nor the boundary nor its digest |
| `ExecutionBoundary.DigestBindsContent` | taskcontroller/controlplane/execution_boundary.py:325-336 | a supplied digest is accepted only for the canonical payload it belongs to |
| `ExecutionBoundary.RoundTrip` | taskcontroller/controlplane/execution_boundary.py:338-376 | reading back the dictionary form of any boundary gives that boundary |
| `ExecutionBoundary.NoFailedChecks` | taskcontroller/controlplane/execution_boundary.py:394-454 | no check is reported iff the child narrows the parent in every respect |
| `ExecutionBoundary.NarrowsMeans` | taskcontroller/controlplane/execution_boundary.py:412-443 | narrowing spelled out: fewer actions, no fewer denials and replan conditions, every root covered, limits no larger, and nothing affordable to the child that the parent cannot afford |
| `ExecutionBoundary.BudgetMeans` | taskcontroller/controlplane/execution_boundary.py:433-439 | a budget is within another iff every amount it affords the other affords too, an absent one affording everything |
| `ExecutionBoundary.ScopeChecks` | taskcontroller/controlplane/execution_boundary.py:412-420 | the action and root checks append exactly the violated ones in order |
| `ExecutionBoundary.LimitChecks` | taskcontroller/controlplane/execution_boundary.py:422-441 | the limit and budget checks append exactly the violated ones in order |
| `ExecutionBoundary.ValidateChildSubset` | taskcontroller/controlplane/execution_boundary.py:394-454 | a proof of both digests iff the child narrows the parent at that depth, otherwise exactly the violated checks |
| `ExecutionBoundary.ChainComposes` | taskcontroller/controlplane/execution_boundary.py:394-454 | along a chain of any length whose first boundary has no open `/*` root, the first validates the last at the sum of the depths |
| `ExecutionBoundary.ChainKeepsDenials` | taskcontroller/controlplane/execution_boundary.py:303-305 | along every chain no descendant allows what an ancestor denies, and depth is paid for out of the ancestor's |
| `ExecutionBoundary.NestedChainBounded` | taskcontroller/controlplane/execution_boundary.py:394-454 | a chain with every depth at least one is no longer than the first boundary's maximum depth |
| `ExecutionBoundary.ComposesIffCovered` | taskcontroller/controlplane/execution_boundary.py:188-220 | a boundary composes with all chains below it iff each `/*` root in its lists is covered |
| `TerminalRace.EligibleMeansCurrent` | taskcontroller/controlplane/terminal_race.py:434-447 | a signal is eligible iff it matches the identity and is newer than the cursor |
| `TerminalRace.ReasonsExactly` | taskcontroller/controlplane/terminal_race.py:434-447 | each reason is given iff its own comparison fails and all earlier ones hold |
| `TerminalRace.Deduplicate` | taskcontroller/controlplane/terminal_race.py:478-494 | a conflict is raised iff two different signals share an identity; otherwise first occurrences are kept and repeats become evidence |
| `TerminalRace.SealedEvidence` | taskcontroller/controlplane/terminal_race.py:496-502 | under a sealed race every signal becomes evidence with its reason |
| `TerminalRace.SplitEligible` | taskcontroller/controlplane/terminal_race.py:512-518 | eligible signals and evidence for the others, in order |
| `TerminalRace.LoserEvidence` | taskcontroller/controlplane/terminal_race.py:529-531 | every eligible signal but the winner is appended as a loser |
| `TerminalRace.ResolveTerminalRace` | taskcontroller/controlplane/terminal_race.py:458-538 | the loops compute the specified resolution, including both errors |
| `TerminalRace.WinnerCharacterized` | taskcontroller/controlplane/terminal_race.py:450-455 | a signal wins iff it is eligible and precedes every other eligible one by sequence, priority and identity |
| `TerminalRace.KindsTie` | taskcontroller/controlplane/terminal_race.py:82-87 | a larger sequence wins; at equal sequence a cancellation beats every other kind, then a timeout, then a lease expiry; within one kind the identity decides |
| `TerminalRace.WinnersDisposition` | taskcontroller/controlplane/terminal_race.py:519-538 | there is a disposition iff there is a winner, and which one each winning kind yields |
| `TerminalRace.EvidenceInOrder` | taskcontroller/controlplane/terminal_race.py:529-538 | evidence beside a winner is ordered by sequence, then reason, then identity |
| `TerminalRace.OrderFree` | taskcontroller/controlplane/terminal_race.py:458-538 | permuting the batch changes neither error, winner nor disposition; evidence is the same sequence when there is a winner and the same multiset when nothing is eligible |
| `TerminalRace.MergeWinners` | taskcontroller/controlplane/terminal_race.py:512-538 | the winner over two conflict-free batches is the winner over their winners |
| `TerminalRace.Conservation` | taskcontroller/controlplane/terminal_race.py:478-538 | every signal is accounted for exactly once, as the new winner or as one piece of evidence |
| `TerminalRace.OwnDecisionCommits` | taskcontroller/controlplane/terminal_race.py:541-571 | committing a decision resolved on the same open state never fails and keeps the state invariant |
| `TerminalRace.CommitExactly` | taskcontroller/controlplane/terminal_race.py:541-571 | exactly when a commit is accepted, and that an accepted one seals the decision's winner and moves the cursor to its sequence, all else of the identity unchanged |
| `TerminalRace.RunSeals` | taskcontroller/controlplane/terminal_race.py:541-571 | over every run of commits a committed winner never changes and the invariant holds |
| `TerminalRace.ReplayReasons` | taskcontroller/controlplane/terminal_race.py:496-510 | the reason given to each signal of the winning batch after the commit |
| `TerminalRace.ReplayEvidence` | taskcontroller/controlplane/terminal_race.py:496-510 | replaying the winning batch after its commit yields the winner as a duplicate, every eligible loser as a stale sequence, and nothing as late |
| `WakeupOutbox.RunKeeps` | taskcontroller/controlplane/wakeup_outbox.py:697-752 | over every interleaving each intent's attempts are numbered 1..n with that count, keys have one intent, and every earlier state is only extended |
| `WakeupOutbox.RecordKeeps` | taskcontroller/controlplane/wakeup_outbox.py:796-911 | recording keeps the tables well formed and changes nothing or appends exactly the given attempt |
| `WakeupOutbox.RecordAccepts` | taskcontroller/controlplane/wakeup_outbox.py:796-844 | exactly which new attempts are accepted |
| `WakeupOutbox.CreateKeeps` | taskcontroller/controlplane/wakeup_outbox.py:697-752 | creating keeps the tables well formed, every existing intent row and every attempt |
| `WakeupOutbox.CreateExactly` | taskcontroller/controlplane/wakeup_outbox.py:697-752 | creation is accepted iff verified and not in conflict with a stored binding; the fields of a new row |
| `WakeupOutbox.RecordedExactly` | taskcontroller/controlplane/wakeup_outbox.py:845-911 | the intent row after a recorded attempt: count, state, next time; other content under a known attempt identity is refused |
| `WakeupOutbox.RearmExactly` | taskcontroller/controlplane/wakeup_outbox.py:924-972 | retry preparation and the blocking update touch one row only, and what they make of it |
| `WakeupOutbox.Idempotent` | taskcontroller/controlplane/wakeup_outbox.py:697-840 | creating or recording identical evidence again changes nothing and gives the same answer |
| `WakeupOutbox.DeliveredStays` | taskcontroller/controlplane/wakeup_outbox.py:1176-1227 | a delivered row survives retry preparation and any late block, whose row was read before; only a further recorded attempt can move it |
| `WakeupDelivery.DeliverBounded` | taskcontroller/controlplane/wakeup_outbox.py:974-1093 | one call cut after any effect stays within the attempt and backoff bounds, and with enough effects it returns a terminal result, namely the one of `WakeupOutcome.DeliveryDecided` |
| `WakeupOutcome.DeliveryDecided` | taskcontroller/controlplane/wakeup_outbox.py:1006-1174 | a call that is not cut short: the first accepting primary callback k gives DELIVERED with attempt count k, row k delivered and every try before it failed with the code of its answer and its scheduled retry; if none accepts, a ready fallback gives FALLBACK_DELIVERED or BLOCKED at the next number; otherwise BLOCKED; and the time slept is exactly the backoffs in between |
| `WakeupDelivery.TerminalIsQuiet` | taskcontroller/controlplane/wakeup_outbox.py:1006-1008 | on a terminal intent nothing is called, slept or written |
| `WakeupDelivery.CallsBounded` | taskcontroller/controlplane/wakeup_outbox.py:974-1174 | over any number of calls, each cut anywhere, attempts and total sleep stay within what the policy still allows |
| `WakeupDelivery.FreshIntentBounded` | taskcontroller/controlplane/wakeup_outbox.py:114-178 | for a fresh intent that is at most one more than the maximum of attempts and at most the sum of the backoffs |
| `WakeupDelivery.DeliverIsSteps` | taskcontroller/controlplane/wakeup_outbox.py:974-1227 | a call cut anywhere is a run of record, observe and block steps, so it keeps the outbox invariant |
| `WakeupStore.OutboxStore.CreateIntent` | taskcontroller/controlplane/wakeup_outbox.py:642-752 | the new tables and answer are those of the create transaction |
| `WakeupStore.OutboxStore.ListAttempts` | taskcontroller/controlplane/wakeup_outbox.py:913-922 | the rows of one intent in order |
| `WakeupStore.OutboxStore.MaxAttemptNumber` | taskcontroller/controlplane/wakeup_outbox.py:832-843 | the largest number in use |
| `WakeupStore.OutboxStore.RecordDeliveryAttempt` | taskcontroller/controlplane/wakeup_outbox.py:770-911 | the new tables and answer are those of the record transaction |
| `WakeupStore.OutboxStore.Prepare` | taskcontroller/controlplane/wakeup_outbox.py:924-972 | re-arming leaves a delivered intent alone and otherwise makes it pending |
| `WakeupStore.OutboxStore.MarkIntentBlocked` | taskcontroller/controlplane/wakeup_outbox.py:1176-1181 | a terminal intent is left alone; any other is blocked by the update against the row just read |
| `WakeupStore.OutboxStore.UpdateBlocked` | taskcontroller/controlplane/wakeup_outbox.py:1182-1227 | the update against a row observed at any earlier time, rolled back when binding or attempt count changed since |
| `WakeupStore.OutboxStore.DeliverFallback` | taskcontroller/controlplane/wakeup_outbox.py:1107-1140 | one fallback attempt, delivered or blocked |
| `WakeupStore.OutboxStore.RetryLoop` | taskcontroller/controlplane/wakeup_outbox.py:1025-1093 | the loop equals the recursive delivery whose result the callbacks decide, with the same sleeps and callbacks |
| `WakeupStore.OutboxStore.DeliverWithRetry` | taskcontroller/controlplane/wakeup_outbox.py:974-1093 | the whole call equals the specified delivery for every crash point, so an uncut call is decided by the callbacks as `WakeupOutcome.DeliveryDecided` says |
| `WakeupProjection.ProjectsExactly` | taskcontroller/controlplane/wakeup_dispatch.py:251-316 | on well-formed tables the projection succeeds iff state and last attempt agree, and then reports the status the state implies |
| `WakeupProjection.StepAgreement` | taskcontroller/controlplane/wakeup_dispatch.py:251-316 | a step keeps an intent projectable iff it is not the blocking of an unblocked row unchanged since it was read, nor the re-arming of a blocked one |
| `WakeupProjection.CreateAndRecordAgree` | taskcontroller/controlplane/wakeup_outbox.py:865-884 | creating and recording always leave the touched intent projectable |
| `WakeupProjection.RunProjects` | taskcontroller/controlplane/wakeup_dispatch.py:251-316 | every intent reachable from empty tables without the two steps on it, whenever created, projects to the status its state implies |
| `WakeupProjection.BlockedWithoutBlockedAttempt` | taskcontroller/controlplane/wakeup_outbox.py:1021-1023 | a failed intent that is then blocked is refused by the projection |
| `WakeupProjection.RearmedAfterBlocked` | taskcontroller/controlplane/wakeup_outbox.py:938-948 | a blocked intent that is re-armed is refused by the projection |
| `Cancellation.CancelWriteRetires` | taskcontroller/controlplane/cancellation.py:316-366 | the winning write moves the version by one and leaves no active lease and no open attempt of the run; finished nodes and attempts are untouched |
| `Cancellation.JournalNamesChanges` | taskcontroller/controlplane/cancellation.py:156-167 | an identity is in the journal record iff the write changed a lease, or cancelled an attempt, of that identity |
| `Cancellation.JournalExactly` | taskcontroller/controlplane/cancellation.py:156-167 | exactly one record is appended to the journal of that run, with command, versions and both lists; nothing else changes |
| `Cancellation.SwapLater` | taskcontroller/controlplane/cancellation.py:136-137 | a successful swap replaces an open run by the cancelled snapshot and makes the reply durable |
| `Cancellation.QuietLater` | taskcontroller/controlplane/cancellation.py:94-174 | every step but the winning swap, so every losing or stale command, leaves version and state of every run untouched |
| `Cancellation.RunKeeps` | taskcontroller/controlplane/cancellation.py:72-174 | over all interleavings of controllers, crashes and other writers the invariant holds and the history of winners only grows |
| `Cancellation.AtMostOneWinner` | taskcontroller/controlplane/cancellation.py:94-154 | at most one cancellation command wins the swap of a run; for the replies it is `CancellationReplies.OneAcceptance` |
| `CancellationReplies.RepliesAreTrue` | taskcontroller/controlplane/cancellation.py:189-202 | from a store without recorded replies, at every state of every run: a reply says accepted iff its command won the swap, and then has exactly the winning version, status and detail; any other reply carries version and status of a final run actually held, with the detail for a cancelled or for a completed or failed run |
| `CancellationReplies.OneAcceptance` | taskcontroller/controlplane/cancellation.py:94-154 | no two distinct commands on one run are ever answered as accepted, at whatever times and by whatever controllers |
| `CancellationReplies.EverTruthful` | taskcontroller/controlplane/cancellation.py:88-173 | the invariant behind it: every reply given or stored, in a run or in the sidecar, is such a true one, over every interleaving |
| `Cancellation.RepliesSurvive` | taskcontroller/controlplane/cancellation.py:88-92 | after acceptance, whatever happened since and wherever its controller stopped, the same command gets the identical reply at once and other content under its identity on that run is refused |
| `Cancellation.ReuseRefusedExactly` | taskcontroller/controlplane/cancellation.py:241-276 | in every reachable world an accepted identity under other content is refused iff it names the same run or is on record, in the named run or the sidecar, with yet other content; it reaches a swap of its own iff it names another run and is not on record |
| `Cancellation.SidecarClosesIdentity` | taskcontroller/controlplane/cancellation.py:169-173 | once the winner has written its sidecar, at every later state of every run a command under its identity is answered or refused by the lookups |
| `Cancellation.IdentityAcceptedTwice` | taskcontroller/controlplane/cancellation.py:136-168 | before that, any two open runs can both be cancelled under one identity |
| `Cancellation.ReplayIsIdentical` | taskcontroller/controlplane/cancellation.py:120-174 | a replied command, won or lost, gets the same reply on replay and changes nothing |
| `CancellationStore.StateStore.PutRun` | taskcontroller/runtime/store.py:96-108 | the value is stored iff the expected version is current |
| `CancellationStore.StateStore.JournalAppend` | taskcontroller/runtime/store.py:129-132 | one record is appended to the run's journal |
| `CancellationStore.StateStore.SyncJournalPosition` | taskcontroller/runtime/store.py:149-191 | the position becomes the last record's index, refused on another version |
| `CancellationStore.RevokeLeases` | taskcontroller/controlplane/cancellation.py:325-332 | exactly the active leases of the run are revoked and listed |
| `CancellationStore.CancelAttempts` | taskcontroller/controlplane/cancellation.py:333-347 | exactly the open attempts of the run are cancelled and listed |
| `CancellationStore.BuildSnapshot` | taskcontroller/controlplane/cancellation.py:316-366 | the snapshot and both lists |
| `CancellationStore.LookupDurableResult` | taskcontroller/controlplane/cancellation.py:241-276 | the run's own record answers first, then the sidecar, with a conflict on other content |
| `CancellationStore.Conclude` | taskcontroller/controlplane/cancellation.py:156-174 | journal, position and sidecar after the swap, as the steps say |
| `CancellationStore.ReadBack` | taskcontroller/controlplane/cancellation.py:138-154 | the losing side of the swap, as the steps say; by `CancellationReplies.RepliesAreTrue` its reply is never an acceptance of its own |
| `CancellationStore.ApplyIdempotentCancellation` | taskcontroller/controlplane/cancellation.py:72-174 | a whole call, with another write before its swap, ends in the store and reply its steps give, so its replies are the true ones |
| `CancellationStore.UndisturbedCall` | taskcontroller/controlplane/cancellation.py:72-174 | without interference the call is the plain run of its controller |
| `CancellationStore.ControlEngine.Cancel` | taskcontroller/controlplane/engine.py:62-79 | the log answers a known identity; otherwise the call runs and its reply is logged |
| `CancellationStore.EngineRefusesReuseExactly` | taskcontroller/controlplane/engine.py:62-79 | other content under an accepted identity is refused exactly by engines that have not answered that identity |
| `CancellationStore.EngineReplays` | taskcontroller/controlplane/engine.py:62-79 | the accepted command itself is answered alike by every engine |
| `Fencing.RetryAdvances` | taskcontroller/controlplane/retry.py:79-134 | a retry changes only attempt and event identity, all of it new, with newer sequence and generation and the next attempt number |
| `Fencing.RetryAdmitsExactly` | taskcontroller/controlplane/retry.py:74-118 | exactly which retries are admitted, and the correlation they carry |
| `Fencing.StandardsRefExactly` | taskcontroller/controlplane/request_compiler.py:395-400 | the derived standards reference: the given one, or profile and version with one leading v |
| `Fencing.FieldsCoverBinding` | taskcontroller/controlplane/takeover.py:134-163 | the table of compared fields finds no mismatch iff the whole binding agrees |
| `Fencing.TakeoverAdmitsExactly` | taskcontroller/controlplane/takeover.py:121-204 | exactly which replacements are the same logical attempt under a newer fence |
| `Fencing.HistoryAdvances` | taskcontroller/controlplane/retry.py:109-134 | along any mixed history generations and sequences climb, contract, execution and producer are constant, and the attempt number counts the retries |
| `Fencing.EvaluateGenerationFence` | taskcontroller/controlplane/generation_fence.py:98-130 | errors iff an identity is malformed; otherwise the decision with the differing fields in order |
| `Fencing.CheckIdentity` | taskcontroller/controlplane/generation_fence.py:79-95 | an identity is refused iff it is not well formed, naming the missing fields |
| `Fencing.RequireCurrentGeneration` | taskcontroller/controlplane/generation_fence.py:133-145 | raises iff the candidate does not advance, with the failed fields |
| `Fencing.FenceMeansAgreement` | taskcontroller/controlplane/generation_fence.py:98-130 | acceptance means agreement on the whole shared identity, a refusal names exactly the differing fields |
| `Fencing.OnlyOwnLinkAccepted` | taskcontroller/controlplane/generation_fence.py:98-130 | of all identities a history ever issued, a link's fence accepts exactly that link's own |
| `Fencing.TokenReuseStillFenced` | taskcontroller/controlplane/takeover.py:187-198 | when a token returns two takeovers later, the oldest holder is stale on its generation alone |
| `Fencing.TokenMayReturn` | taskcontroller/controlplane/takeover.py:187-198 | any request can be taken over twice with its token coming back, if the two renumbered requests compile |
| `LeaseBinding.BindAttemptToWorkLease` | taskcontroller/controlplane/lease_binding.py:159-255 | binds iff attempt and identity agree with the lease; otherwise each mismatch once, in order |
| `LeaseBinding.FoundExactly` | taskcontroller/controlplane/lease_binding.py:188-255 | each mismatch is reported iff its own field differs |
| `LeaseBinding.EvaluateResultFence` | taskcontroller/controlplane/lease_binding.py:274-309 | the decision of the fence, always either advancing or evidence with reasons |
| `LeaseBinding.AdvancesExactly` | taskcontroller/controlplane/lease_binding.py:274-309 | a result advances iff it binds an active lease at an instant not after expiry |
| `LeaseBinding.StaleExactly` | taskcontroller/controlplane/lease_binding.py:274-309 | which error or piece of evidence the fence gives: no lease, lease not active, time missing or unreadable, lease expired, binding mismatch |
| `TakeoverRuns.StepSound` | taskcontroller/controlplane/takeover.py:342-360 | every step but the hazardous read-back keeps at most one active lease per attempt |
| `TakeoverRuns.NeverTwoActive` | taskcontroller/controlplane/takeover.py:207-388 | over all interleavings of hand-offs, grants and other writes without the hazardous read-back, no attempt ever has two active leases |
| `TakeoverRuns.HazardExactly` | taskcontroller/runtime/lease.py:278-292 | reading back after a detach and registering, undisturbed, leaves at most one active lease per attempt iff the read-back found no active lease of the attempt under another identity |
| `TakeoverRuns.TightNeverTwoActive` | taskcontroller/runtime/lease.py:255-276 | if no replacement skips a generation, over all interleavings with grants and other writes no attempt ever has two active leases and no hand-off detaches anything |
| `TakeoverRuns.TwoActiveExactly` | taskcontroller/runtime/lease.py:255-302 | for a hand-off that would complete alone, some interleaving with grants and other writes leaves two active leases of an attempt iff its replacement's generation is more than one beyond the recorded one |
| `TakeoverRuns.HazardReached` | taskcontroller/runtime/lease.py:255-302 | a hand-off that would complete alone and whose replacement skips a generation can be driven, by two grants of the lease manager and from a sound world, into two active leases of its attempt |
| `TakeoverRuns.HazardHappens` | taskcontroller/runtime/lease.py:255-302 | a concrete hand-off and run doing so |
| `Takeover.RetirementClears` | taskcontroller/controlplane/takeover.py:342-355 | after retirement the attempt has no active lease |
| `Takeover.HandoffExactly` | taskcontroller/controlplane/takeover.py:228-388 | a plan failing the checks (`ChecksPassExactly`) leaves the run unchanged; the hand-off completes iff the grant can follow, with old lease retired and new one active; otherwise no lease is left active |
| `Takeover.ChecksPassExactly` | taskcontroller/controlplane/takeover.py:228-341 | exactly which plans pass the checks before retirement, over the fields of the plan: version, time, same logical attempt under newer fences, both bindings, holder, forced takeover to another agent, expiry strictly before now |
| `Takeover.ExpiryAgreesWithFence` | taskcontroller/controlplane/takeover.py:302-307 | an EXPIRE hand-off passes the checks only when the old holder's own result, under its still active lease, is evidence for being late; it is refused as premature only while that result still advances, and never once it is late |
| `Takeover.HandoffLeaves` | taskcontroller/controlplane/takeover.py:342-388 | the whole state after a completed hand-off: both leases, every other lease, node and attempt as before, and the references of the attempt's own |
| `Takeover.ExpiryMarksNode` | taskcontroller/runtime/lease.py:638-730 | expiry marks node and attempt iff the lease is their current one, and is refused iff that node cannot expire |
| `Takeover.GrantableExactly` | taskcontroller/runtime/lease.py:221-276 | exactly which leases can be granted: active, readable ordered times, a generation beyond the recorded one and beyond every active lease of the attempt |
| `Takeover.OldHolderFenced` | taskcontroller/controlplane/lease_binding.py:274-309 | every envelope bound to the old lease is evidence only under the new lease and under the retired one |
| `Takeover.NewHolderAccepted` | taskcontroller/controlplane/lease_binding.py:296-309 | the replacement envelope advances at exactly the instants not after its expiry |
| `Takeover.GrantedExpiryReadable` | taskcontroller/runtime/lease.py:227-239 | a grantable replacement has a readable expiry |
| `Takeover.GrantSound` | taskcontroller/runtime/lease.py:278-302 | granting makes the lease its attempt's only active one |
| `LeaseManager.Manager.FindActive` | taskcontroller/runtime/lease.py:747-765 | the first active lease of the same run, node, execution and attempt |
| `LeaseManager.Manager.Retire` | taskcontroller/runtime/lease.py:489-743 | revocation or expiry as one swap, with the node transition of an expired current lease |
| `LeaseManager.Manager.Grant` | taskcontroller/runtime/lease.py:210-302 | refused before any write, or the attempt's active lease is detached and this one registered |
| `LeaseManager.Manager.TakeoverBoundedMailboxRequest` | taskcontroller/controlplane/takeover.py:207-388 | a whole takeover ends in the state and verdict its steps give, with the checks of `Takeover.ChecksPassExactly` |
| `ResultPolling.JudgedExactly` | taskcontroller/controlplane/result_resume.py:236-310 | a message is a terminal or progress outcome iff it has the asked correlation and identity, a fence that advances or is not asked for, every asked digest and a readable payload, and then it is exactly that payload; the errors likewise |
| `ResultPolling.IgnoredExactly` | taskcontroller/controlplane/result_resume.py:238-302 | each reason to ignore a message is given iff its own check fails and the earlier ones pass |
| `ResultPolling.FenceReasons` | taskcontroller/controlplane/result_resume.py:168-175 | which failure of the result fence becomes which reason |
| `ResultPolling.QueryAcceptedExactly` | taskcontroller/controlplane/result_resume.py:80-109 | exactly which queries are accepted |
| `ResultPolling.ScanCompletesExactly` | taskcontroller/controlplane/result_resume.py:222-310 | a scan completes iff its events are intact and in order, none raises, and all accepted terminal results have one digest |
| `ResultPolling.ScanMeans` | taskcontroller/controlplane/result_resume.py:222-310 | the cursor ends on the last own event having passed all of them; the outcome is the last accepted terminal result or later progress; every event is intact and observed, and those that are no outcome are exactly the ignored ones, in order, each with its reason |
| `ResultPolling.ConflictAborts` | taskcontroller/controlplane/result_resume.py:304-308 | two accepted terminal results with different digests abort the scan wherever they stand |
| `ResultPolling.AcknowledgedOnlyAfterScan` | taskcontroller/controlplane/result_resume.py:312-316 | the durable cursor moves only after a full conflict-free scan, onto that scan's cursor |
| `ResultPolling.ResultReturnedExactly` | taskcontroller/controlplane/result_resume.py:140-154 | an accepted terminal result is returned iff no accepted progress follows it; otherwise the poll is refused after the cursor was acknowledged |
| `ResultPolling.PollAnswersExactly` | taskcontroller/controlplane/result_resume.py:318-333 | a poll answers with a result iff a genuine terminal message stands in the scan with no genuine progress after the last one, and returns that one; with progress iff there is some and no terminal message; with nothing iff there is neither |
| `ResultPolling.RefusedResultIsLost` | taskcontroller/controlplane/result_resume.py:312-333 | once a poll has acknowledged a scan, whatever arrives and whoever polls afterwards, no later scan of the stream hands one of its own events out again |
| `ResultPolling.DurableForward` | taskcontroller/interaction/mailbox_repository.py:645-664 | the durable cursor of a stream never moves back, over any sequence of deposits and polls |
| `ResultPolling.ResultCanBeLost` | taskcontroller/controlplane/result_resume.py:318-333 | a concrete scan that acknowledges and then refuses |
| `ResultPolling.ScanEvents` | taskcontroller/controlplane/result_resume.py:222-310 | the event loop computes the fold, with every abort; `JudgedExactly` says what it makes of each event |
| `ResultPolling.Repository.AcknowledgeCursor` | taskcontroller/interaction/mailbox_repository.py:630-689 | the durable cursor moves forward onto a stored matching event or not at all |
| `ResultPolling.AcknowledgedExactly` | taskcontroller/interaction/mailbox_repository.py:630-689 | exactly which cursors are acknowledged |
| `ResultPolling.Repository.ScanAfterCursor` | taskcontroller/interaction/mailbox_repository.py:595-628 | refused for a cursor behind or in conflict with the durable one, else the newer events of the stream in order |
| `ResultPolling.Repository.PollControllerTerminalResult` | taskcontroller/controlplane/result_resume.py:179-333 | a whole poll gives the specified mailbox and answer, which `PollAnswersExactly` reads off the messages |
| `PowerStore.InstallTreeExactly` | scripts/dw_power_store/package_io.py:131-167 | exactly when the swap succeeds; a failed one restores the exact layout, a successful one adds the tree and keeps the old one under a fresh history name |
| `PowerStore.RollbackPicksNewest` | scripts/dw_power_store/history_ops.py:27-67 | rollback goes to the newest managed entry named by version or directory, and fails iff there is none |
| `PowerStore.RollbackTreeExactly` | scripts/dw_power_store/history_ops.py:69-83 | a failed rollback restores the exact layout; a successful one exchanges the two trees |
| `PowerStore.OperationTracks` | scripts/dw_power_store/common.py:202-249 | an operation interrupted anywhere keeps every binding on the installed package iff, judged before the call, it will not exchange the tree and be cut short before a binding naming anything but the incoming tree |
| `PowerStore.LifecycleTracks` | scripts/dw_power_store/install_ops.py:37-67 | over whole lifecycles from the empty store in which no operation meets that condition, every binding names the installed version, digest and store path, and the package exists while any binding does |
| `PowerStore.InterruptedRefreshLosesTrack` | scripts/dw_power_store/common.py:233-249 | from the empty store, two projects install one version and an upgrade stops after the first rewritten binding: all bindings right before, one stale after |
| `PowerStore.InstallAddsOne` | scripts/dw_power_store/package_io.py:131-167 | installing adds exactly one tree to store and history together |
| `PowerStore.RollbackPreserves` | scripts/dw_power_store/history_ops.py:69-83 | rolling back preserves the number of copies of every tree |
| `PowerStore.OperationConserves` | scripts/dw_power_store/history_ops.py:57-137 | what each operation does to the copies of any tree |
| `PowerStore.ExchangeFrame` | scripts/dw_power_store/install_ops.py:37-67 | installing and rolling back keep every configuration, every runtime and every binding's configuration path; an install adds at most its own runtime |
| `PowerStore.ConfigureFrame` | scripts/dw_power_store/install_ops.py:80-137 | configuring touches one configuration and one binding; the half not given is kept; a failure before the binding restores everything |
| `PowerStore.UninstallFrame` | scripts/dw_power_store/history_ops.py:96-137 | an uninstall without the runtime option keeps every runtime, with it it removes exactly its own and only after confirmation; exactly its own managed configuration goes |
| `PowerStore.DoneExactly` | scripts/dw_power_store/history_ops.py:57-137 | exactly when an install and a rollback are done, and what a done configure or uninstall needs |
| `PowerStore.UninstallRemovesLast` | scripts/dw_power_store/history_ops.py:120-127 | the installed tree goes only with the last binding, history never |
| `PowerStore.DoctorSeesOnlyRuntime` | scripts/dw_power_store/install_ops.py:161-170 | while the store keeps track only the runtime path check can fail |
| `PowerStore.DoctorAfterExchange` | scripts/dw_power_store/install_ops.py:161-170 | after a rollback, or an upgrade for another project, the doctor goes on accepting a binding iff the incoming package's runtime root, known before the call, resolves for its project to where the outgoing one's does |
| `PowerStore.LifecycleRooted` | scripts/dw_power_store/common.py:202-249 | while every package installed has the same runtime root, every binding's runtime path is what that root resolves to, through successes and interruptions alike |
| `PowerStore.LifecycleAccepted` | scripts/dw_power_store/install_ops.py:161-170 | over such a lifecycle that leaves no binding behind the doctor accepts every binding |
| `FreshNames.Fresh` | scripts/dw_power_store/package_io.py:155-159 | the first free name of a family of distinct names, which always exists |
| `PowerStoreObject.FreshInstallName` | scripts/dw_power_store/package_io.py:155-159 | the numbered-suffix loop ends in a free name |
| `PowerStoreObject.FreshRollbackName` | scripts/dw_power_store/history_ops.py:69-73 | the growing-name loop ends in a free name |
| `PowerStoreObject.Store.InstallPackageTree` | scripts/dw_power_store/package_io.py:131-167 | the renames, with undo, equal the specified swap |
| `PowerStoreObject.Store.RefreshBindings` | scripts/dw_power_store/common.py:233-249 | exactly the bindings reached before an interruption are rewritten |
| `PowerStoreObject.Store.WriteBinding` | scripts/dw_power_store/common.py:202-230 | one binding is written, keeping its configuration path |
| `PowerStoreObject.Store.InstallPower` | scripts/dw_power_store/install_ops.py:37-67 | the new store and outcome are those of the install operation |
| `PowerStoreObject.Store.SelectHistory` | scripts/dw_power_store/history_ops.py:27-66 | the managed matching rows, newest first |
| `PowerStoreObject.Store.RollbackPower` | scripts/dw_power_store/history_ops.py:57-93 | the new store and outcome are those of the rollback operation |
| `PowerStoreObject.Store.ConfigurePower` | scripts/dw_power_store/install_ops.py:80-137 | the configuration swap with undo, then the binding |
| `PowerStoreObject.Store.UninstallPower` | scripts/dw_power_store/history_ops.py:96-137 | the new store and outcome are those of the uninstall operation; the tree changes iff it is done |
| `BlueprintRoutes.KindsGiveOutcomes` | taskcontroller/compiler.py:202-210 | distinct kinds give distinct outcomes |
| `BlueprintRoutes.RowErrorExactly` | taskcontroller/compiler.py:177-201 | exactly which rows are well formed |
| `BlueprintRoutes.EdgeCarriesRow` | taskcontroller/compiler.py:202-214 | the edge carries every field of its row, with the upper-cased kind as outcome |
| `BlueprintRoutes.AmbiguousExactly` | taskcontroller/compiler.py:215-227 | rows are ambiguous iff two executable ones share a kind of which no executable one has a condition |
| `BlueprintRoutes.AcceptedExactly` | taskcontroller/compiler.py:177-244 | a list of rows is accepted iff every row is well formed, no kind is ambiguous and rows of one kind agree |
| `BlueprintRoutes.RepresentsExactly` | taskcontroller/compiler.py:229-244 | every accepted row has its edge in the slot of its kind, every slot comes from a row, targets are declared |
| `BlueprintRoutes.RowOrderIrrelevant` | taskcontroller/compiler.py:229-244 | permuting rows changes neither acceptance, edges nor the order of the evidence |
| `BlueprintTopology.LastEntryWins` | taskcontroller/compiler.py:153-277 | every entry compiles, and a compiled step is what the last entry touching it says |
| `BlueprintTopology.TerminalExactly` | taskcontroller/compiler.py:160-168 | a terminal entry compiles iff its action is declared and it has neither a next action nor edges, and then has none |
| `BlueprintTopology.NextExactly` | taskcontroller/compiler.py:246-254 | a next action alone compiles iff it is declared or a non-step target, into one executable edge to it |
| `BlueprintTopology.LegacyCarriesItem` | taskcontroller/compiler.py:256-263 | the edge of a mapping item carries target and kind under the upper-cased outcome |
| `BlueprintTopology.RoutesKeptExactly` | taskcontroller/compiler.py:265-277 | every route of every entry is in the plan under its slot iff, for every action, the routes of each of its entries are among those of the last entry touching it |
| `BlueprintTopology.RowsContainedExactly` | taskcontroller/compiler.py:177-244 | for lists of rows: the routes of one are among those of another iff each row describes the edge of some row of the other |
| `BlueprintTopology.OneEntryKeepsRoutes` | taskcontroller/compiler.py:153-277 | with one entry per action no route is dropped |
| `BlueprintTopology.CompiledRepresentsRows` | taskcontroller/compiler.py:152-277 | with one entry per action every accepted list of rows sits in its compiled step, slot by slot |
| `BlueprintTopology.SecondEntryDropsFirst` | taskcontroller/compiler.py:265-277 | two entries for one action: the first route is gone without an error |
| `BlueprintTopology.LegacyMeans` | taskcontroller/compiler.py:256-263 | the older mapping is accepted iff every item has outcome and target texts and an allowed kind; each slot holds the last item of its outcome, letter case aside |
| `BlueprintTopology.LegacyKeptExactly` | taskcontroller/compiler.py:256-263 | no item of the mapping is lost iff items whose outcomes differ at most in letter case describe the same edge |
| `BlueprintTopology.LegacyTargetsExactly` | taskcontroller/compiler.py:256-263 | the mapping yields declared targets only iff the last item of each outcome has one |
| `BlueprintTopology.LegacyOverwrites` | taskcontroller/compiler.py:256-263 | a concrete mapping whose first item is overwritten and whose target nobody declared |
| `BlueprintTopology.CompileRouteRows` | taskcontroller/compiler.py:177-244 | the row loops compute the specified edges or error |
| `BlueprintTopology.FindAmbiguity` | taskcontroller/compiler.py:215-227 | the grouping finds an ambiguity iff some kind has several executable rows, none with a condition |
| `BlueprintTopology.FillSlots` | taskcontroller/compiler.py:231-244 | the slots are filled or a collision is reported |
| `BlueprintTopology.CompileLegacyEdges` | taskcontroller/compiler.py:256-263 | the mapping loop computes the specified slots or first error |
| `BlueprintTopology.CompileSteps` | taskcontroller/compiler.py:153-277 | the topology loop computes the specified plan or first error |
| `AuditLedger.EveryRunNumbered` | taskcontroller/audit/sqlite_writer.py:85-157 | over any interleaving of reads and inserts rows are append-only, each run is numbered 1..n and holds no event twice |
| `AuditLedger.InsertNumbered` | taskcontroller/audit/sqlite_writer.py:111-140 | the uniqueness constraints let through only the number right after the run's last |
| `AuditLedger.AppendExactly` | taskcontroller/audit/sqlite_writer.py:85-157 | alone, an append is refused exactly for a wrong run, a known event or a wrong expectation, and otherwise gets the next number |
| `AuditLedger.ReadsInOrder` | taskcontroller/audit/sqlite_writer.py:159-163 | reading by sequence gives the rows as appended |
| `AuditLedger.Ledger.NextSequence` | taskcontroller/audit/sqlite_writer.py:99-104 | one more than the largest sequence of the run |
| `AuditLedger.Ledger.AppendEvent` | taskcontroller/audit/sqlite_writer.py:85-157 | the new rows and answer are those of the append |
| `AuditLedger.Ledger.Events` | taskcontroller/audit/sqlite_writer.py:159-186 | the run's rows by sequence, which is the order of appending |
| `SemanticAudit.ReferencesStable` | taskcontroller/audit/semantic_events.py:129-143 | checking stored references again accepts them and changes nothing |
| `SemanticAudit.InputAcceptedExactly` | taskcontroller/audit/semantic_events.py:100-171 | exactly which requests the recorder accepts |
| `SemanticAudit.ReferencesExactly` | taskcontroller/audit/semantic_events.py:129-143 | the references kept are exactly the stripped inputs, each once |
| `SemanticAudit.EntryRoundTrip` | taskcontroller/audit/semantic_events.py:193-228 | one recorded event reads back as exactly what was asked for, normalized |
| `SemanticAudit.OpsKeep` | taskcontroller/audit/semantic_events.py:193-228 | over any interleaving of the reads and inserts of any number of writers, the semantic rows of a run are those of its accepted requests in order |
| `SemanticAudit.RecordIsTwoSteps` | taskcontroller/audit/semantic_events.py:207-228 | the recorder alone is its reads and its insert one after the other |
| `SemanticAudit.TimelineIsWhatWasRecorded` | taskcontroller/audit/semantic_events.py:286-334 | over any such interleaving, with refusals and events of other kinds, the timeline is exactly the accepted requests in order, normalized, with first-occurrence evidence |
| `SemanticAudit.ValidateEvidenceRefs` | taskcontroller/audit/semantic_events.py:129-143 | accepted iff every reference is bounded and well formed, then the first occurrences |
| `SemanticAudit.ValidateMetadata` | taskcontroller/audit/semantic_events.py:146-171 | the first offending item's error, or the mapping |
| `SemanticAudit.ProjectEntries` | taskcontroller/audit/semantic_events.py:296-320 | the entries of the semantic rows, skipping other kinds |
| `SemanticAudit.CollectEvidence` | taskcontroller/audit/semantic_events.py:323-329 | each reference once, by first occurrence |
| `SemanticAudit.RecordEvent` | taskcontroller/audit/semantic_events.py:193-228 | the ledger gets the event or stays as it was |
| `SemanticAudit.ReconstructSemanticTimeline` | taskcontroller/audit/semantic_events.py:286-334 | the method computes the specified timeline |

## Left out

- Type and shape guards on untyped inputs (wrong Python types, booleans as integers, missing keys other than those
  of the generation fence): the datatypes rule them out.
- SHA-256 and canonical JSON as byte strings: a digest is a constructor over its content.
- SQLite, file system, zip, HTTP and YAML mechanics; a rename, a tree removal and a transaction are atomic.
- Error message texts and the rendered wording of the operator projection.
- Metadata of a run given as a plain dictionary instead of the runtime record; the two are handled alike.
- PAUSE, RESUME, REPLAN and STOP of the control engine; they appear as writes by the rest of the runtime.
- `compile_bounded_mailbox_request` and agent routing beyond their verdict, their normalized scope and the agent
  they select.
- `LeaseManager` beyond revoke, expire and grant; lease journal records; the list of active leases advertised on the
  run; the optional `expected_identity` and mapping-shaped attempts of `bind_attempt_to_work_lease`.
- Mailbox repositories beyond the scan and the cursor acknowledgement; a poll is proved for every scan an adapter may
  return, and runs of polls for the scan of the in-memory repository.
- Everything of a plan but its steps and edges; upper-casing of outcomes is modelled for the letters a to z.
- The audit event fields that are stored and returned unchanged (raw payload reference, before-state, annotations)
  and entries without a sequence number, which the ledger never returns.
- WakeupDelivery.FreshIntentBounded: assumes that nothing else writes to the intent between the calls and that
  no other intent has taken the attempt identities it will generate.
- WakeupOutcome.DeliveryDecided: likewise assumes that nothing else writes to the intent during the call and that the
  attempt identities it will generate are free.
- Takeover.ExpiryAgreesWithFence: assumes that no readable timestamp has surrounding whitespace or a NUL in it, as ISO
  8601 parsing guarantees; the takeover reads the text as given where the result fence strips it first.
- PowerStore.DoneExactly: gives what a done configure or uninstall needs, not which injected file-system fault stops it;
  what a failed one leaves is in the two frames.
- WakeupOutbox.DeliveredStays: does not say that a delivered intent stays delivered, because recording a further
  attempt is accepted in every state and moves it.
- TakeoverRuns.TwoActiveExactly: takes a grant by another caller as one step; only the grants that end a hand-off are
  split into their store operations.
- LeaseManager.Manager.TakeoverBoundedMailboxRequest: runs without other writers; the interleavings are covered by the
  steps it is proved equal to.
- PowerStoreObject.FreshInstallName: reads the clock once, where the code reads it again for each suffix.
- Admission, rollout, deprecation, contracting, metrics, integrity, decision mapping, external actions and the
  projection of affordances: decision tables that would only add easy members.
- Command line, host adapters, reports, workspace set-up and release assembly.
