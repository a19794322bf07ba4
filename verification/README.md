# Verified model of the console backend

WireGuard Console keeps servers, peers, filter rules, traffic and admin logins in Postgres and pushes the result
to the kernel helper and to the DNS filter. The parts of its backend that are small, stateful and easy to get
wrong are modelled here in Dafny, and what they are for is proved about them. `dafny verify dfyconfig.toml`
checks everything.

Tables are values whose single statements are atomic. Where several requests, goroutines or workers meet, the
model is a state machine whose steps are the critical sections and the statements, and the theorems hold for every
interleaving and every run. Where one piece of code works on its own data step by step, the model is a class or a
method with loops, proved against a function, and the theorems are about that function. Clocks, random tokens,
code and assertion verdicts, and the outcome of every database or network call are parameters.

| file | what it models |
|---|---|
| `ServerSyncQueue.dfy`, `QueueApplies.dfy` | the per-server kernel sync queue: coalescing, one goroutine per server, terminal teardown; that requests get applied |
| `DomainSync.dfy`, `SyncPushes.dfy` | the coalescing single-flight sync of the domain rules under one mutex; that requests get pushed |
| `IPBlockSync.dfy` | the two ways a drop list gets to the kernel, one of them outside the mutex |
| `BrowseImport.dfy`, `QueryLogPages.dfy` | importing the DNS query log backwards under a cursor, with a page cap; its pages when times are equal |
| `IPRules.dfy`, `DomainRules.dfy`, `Canonical.dfy` | compiling scoped rules into flat, canonical lists; pushing one to the DNS filter |
| `PacketDrops.dfy`, `DomainClients.dfy` | what the compiled lists do: which packets are dropped, for whom a domain is blocked |
| `CidrText.dfy`, `CidrReading.dfy` | IPv4 ranges as text (section 3.1 of RFC 4632) and lists of them; which texts are accepted |
| `PeerAddresses.dfy` | the gateway of a network and the first unused address |
| `PeerCreate.dfy`, `PeerAnswers.dfy` | creating peers under an idempotency key, retried and concurrently; what each create is answered and why |
| `LoginSessions.dfy` | from a password through a pending row and a factor to a session, statement by statement |
| `LoginProvenance.dfy`, `LoginTables.dfy` | where each session and each credential comes from; what is in the tables after a run |
| `LoginResets.dfy`, `LoginGuesses.dfy` | what outlives a reset, and enrolments; how many wrong factors can be tried |
| `LoginHandlers.dfy`, `RecoveryCodes.dfy` | the finishing handlers one at a time; recovery codes |
| `MfaFactors.dfy`, `FactorHistory.dfy` | the factor policy, and adding and removing factors; which factors are left after a run |
| `LoginLockout.dfy`, `RateLimiter.dfy` | the per-address lockout and the sliding-window limiter |
| `LockoutHistory.dfy`, `LimiterHistory.dfy` | their answers, told from what was asked and answered before |
| `TrafficCounters.dfy`, `TrafficRollup.dfy` | counter deltas under restarts; the daily roll-up |
| `ConfigFileName.dfy` | the download name, in Go and in TypeScript |

## Where the code and its documentation disagree

- The query-log worker says that a tick stopped by the page cap still converges over several ticks
  (`backend/internal/worker/browse.go:46-49`, `:241-244`). The next tick starts again at the newest entry and stops
  at the moved cursor, so the older part of the backlog is never imported. `BrowseImport.CappedTickSkips` states
  exactly which entries, `SkipsExactlyLargeBacklogs` exactly when there are any, `OldestIsSkipped` shows a run for
  every page size and cap.
- IP rules are said to need serialisation so that concurrent edits cannot race
  (`backend/internal/api/ip_rules.go:25-34`). The per-server queue reads and pushes the drop list outside that mutex
  (`backend/internal/api/wgsync.go:89-105`), so a stale list can replace a newer one: the lists pushed never go back
  exactly when the queue makes no pass (`IPBlockSync.NeverBackExactly`). In one run they go back exactly when a list is
  pushed after a newer one was pushed since its read (`GoesBackExactly`), and one of the two is then the queue's.
- The allocator promises the first unused host address of the network (`backend/internal/api/peers.go:25-26`). It
  varies the last octet alone and keeps its promise exactly for prefixes up to 24 (`PeerAddresses.NeverLeavesExactly`).
- A peer's address is unique per server only as stored, with its mask: the same host under two masks is accepted
  (`PeerCreate.MaskedAddressExample`). No two peers of a server share an address over all runs exactly when clients
  write no mask but the full one (`NeverShareExactly`).
- A peer created with `send_email` is answered "created" whether or not its email is queued
  (`backend/internal/api/peers.go:602-625`); `PeerCreate.CreatedHasEmailExactly` says when it is.
- The roll-up overwrites the daily row and computes its cutoff twice. It conserves the totals exactly when
  no overwritten row held anything and nothing was sampled between the cutoffs (`TrafficRollup.RollupConservesExactly`);
  a cutoff at noon loses a morning (`NoonCutoffLoses`).
- Resetting an admin's factors is said to leave nothing issued under the old ones
  (`backend/internal/api/admin_security.go:193-197`). That holds when it commits. The logins that can insert a session
  after it are exactly those that have deleted their pending row, and passwordless ones that have found their handle
  unchanged (`LoginResets.OutlivesResetExactly`). Such a passwordless login validates against passkeys it loaded before
  the reset, or against one whose registration finishes after it; `SaveAfterLogin` does not ask whether the passkey is
  still there (`backend/internal/auth/webauthn/credentials.go:286-302`).
- A reset is said to clear the factors. An enrolment of an authenticator app that was under way turns it on again
  after the reset (`backend/internal/api/mfa_totp.go:445-452`, `LoginResets.EnablesAfterResetExactly`).
- Five wrong factors are said to end a pending login (`backend/internal/api/mfa_shared.go:409-412`). The factor is judged
  before the failure is recorded, so requests that overlap try any number of codes on one pending row, and a right
  one after them still logs in (`LoginGuesses.AnyNumberOfGuesses`); in turn it is four (`FourInTurn`).
- Only a handler that proves a factor may finish a login (`backend/internal/api/mfa_shared.go:24-26`). Completing an
  enrolment asks only whether the account meets the policy, so a login that waits for enrolment gets its session once
  any other login has enrolled a factor (`LoginResets.EnrolmentMintsExactly`, `OneEnrolmentTwoSessions`).
- An admin must always keep a way to sign in (`backend/internal/api/mfa_totp.go:766-768`). Requests one after the
  other keep it (`MfaFactors.AdminsKeepAFactor`); two that overlap lose it exactly when they remove the only two
  usable factors (`OverlappingRemovals`).
- A recovery code works once; stored under both hash schemes it would work twice (`RecoveryCodes.AcceptedAgain`).

## Model

| member | source | states |
|---|---|---|
| ServerSyncQueue.SyncQueue.RequestServerSync | backend/internal/api/wgsync.go:158-179 | the section's whole effect: turned away during a teardown, else the job exists, is dirty and running, and exactly the request that found it idle starts a goroutine |
| ServerSyncQueue.SyncQueue.RequestServerRemoval | backend/internal/api/wgsync.go:197-215 | marks the job for teardown, keeps a known interface when none is given, starts a goroutine only for an idle job |
| ServerSyncQueue.SyncQueue.BeginPass | backend/internal/api/wgsync.go:219-223 | a pass starts by reading the teardown flag and clearing the dirty flag in one section |
| ServerSyncQueue.SyncQueue.RetireAfterTeardown | backend/internal/api/wgsync.go:231-234 | after a teardown the job stops running and leaves the map in one section |
| ServerSyncQueue.SyncQueue.EndPass | backend/internal/api/wgsync.go:246-259 | loops on a teardown or a dirty flag, else retires the job in the same section that saw it clean |
| ServerSyncQueue.InvKept | backend/internal/api/wgsync.go:158-261 | every step of every goroutine and handler keeps the queue's invariant |
| ServerSyncQueue.OneRunnerPerServer | backend/internal/api/wgsync.go:136-151 | in every run a server has at most one live goroutine, and its job is in the map exactly while that goroutine lives |
| ServerSyncQueue.NoRequestUnseen | backend/internal/api/wgsync.go:155-179 | a job never retires with a request unseen: a pass that starts to read the database later, or the teardown, follows every accepted request; what such a pass then does is `QueueApplies.RequestIsApplied` |
| ServerSyncQueue.DroppedOnlyDuringTeardown | backend/internal/api/wgsync.go:161-166 | a request is turned away only when the server's row is deleted and its teardown is under way |
| ServerSyncQueue.TeardownIsLast | backend/internal/api/wgsync.go:191-196 | the queue never applies a server after tearing it down, stragglers included, and tears down the interface it applied |
| ServerSyncQueue.RemovalCompletes | backend/internal/api/servers.go:314-331 | after the row is deleted and the removal requested, the deleted row's interface is torn down after every apply before the server's last goroutine ends |
| ServerSyncQueue.PassesHavePool | backend/internal/api/wgsync.go:197-204 | no apply pass runs on a job that a removal created without a pool |
| ServerSyncQueue.NewestWins | backend/internal/api/wgsync.go:155-157 | of two applies of one server the later rests on reads that all follow those of the earlier; that passes do apply is `QueueApplies.RequestIsApplied` |
| ServerSyncQueue.GoroutineFinishes | backend/internal/api/wgsync.go:217-261 | every own step brings a goroutine nearer to its end, at most seven steps and two passes' reads away |
| ServerSyncQueue.OnlyRequestsDelay | backend/internal/api/wgsync.go:217-261 | nothing but its own steps and requests for its own server touches a goroutine or its job |
| QueueApplies.RequestIsApplied | backend/internal/api/wgsync.go:155-261 | over every run, a request for a server whose row stays is followed by a pass that reads no earlier than the request and, if its calls succeed, applies the row's interface before any other pass of the server |
| QueueApplies.PassGoesOn | backend/internal/api/wgsync.go:28-110 | until it has applied its server, a pass whose calls succeed is under way, whatever all others do |
| QueueApplies.ApplyCoversReads | backend/internal/api/wgsync.go:155-157 | what is applied saw the database as late as each query of its pass did |
| DomainSync.SyncRequests.Request | backend/internal/api/domain_rules.go:63-73 | the request section: dirty when running, else running and one goroutine started |
| DomainSync.SyncRequests.AfterPass | backend/internal/api/domain_rules.go:79-86 | the end of a pass: another pass exactly when a request came in meanwhile |
| DomainSync.InvKept | backend/internal/api/domain_rules.go:63-89 | every step of requesters, goroutines, workers and manual resyncs keeps the invariant |
| DomainSync.NoRequestUnseen | backend/internal/api/domain_rules.go:60-89 | every request is followed by a pass that starts, and reads the database, after it |
| DomainSync.SingleFlight | backend/internal/api/domain_rules.go:63-89 | there is never more than one background goroutine, and the running flag says whether there is one |
| DomainSync.PushesNeverGoBack | backend/internal/api/domain_rules.go:129-193 | with everybody contending for the mutex, each push rests on reads no older than those of any earlier push |
| DomainSync.ThreadFinishes | backend/internal/api/domain_rules.go:75-88 | every own step but reading on and waiting for the mutex brings a thread nearer to its end, at most ten steps away |
| DomainSync.MutexIsReleased | backend/internal/api/domain_rules.go:130-132 | the holder of the mutex is at most four such steps from releasing it |
| DomainSync.OnlyRequestsDelay | backend/internal/api/domain_rules.go:63-73 | nothing else moves a thread, and nothing but a request gives the goroutine another pass |
| SyncPushes.RequestIsPushed | backend/internal/api/domain_rules.go:60-89 | over every run, when no background goroutine is left, every request was followed by a pass that read no earlier and, unless something of it failed, pushed before any other pass, or is a direct pass that still reads |
| SyncPushes.EveryThreadPasses | backend/internal/api/domain_rules.go:129-135 | no goroutine, worker or manual resync comes to its end without having read the database under the mutex |
| SyncPushes.PushCoversReads | backend/internal/api/domain_rules.go:129-193 | what is pushed saw the database as late as each statement of its pass did |
| IPBlockSync.NeverBackExactly | backend/internal/api/ip_rules.go:31-34 | over all runs with at most a given number of passes of the per-server queue, the drop lists pushed to a server never go back to older rules exactly when that number is 0 |
| IPBlockSync.GoesBackExactly | backend/internal/api/wgsync.go:89-105 | in every run the lists go back exactly when one is pushed after a newer one was pushed since its read |
| IPBlockSync.OvertakingTakesTheQueue | backend/internal/api/ip_rules.go:31-34 | of two such lists one is the queue's |
| IPBlockSync.StaleRunGoesBack | backend/internal/api/wgsync.go:89-105 | a run in which a pass of the queue pushes rules it read before a guarded pass pushed newer ones |
| IPBlockSync.StaleMutexRunGoesBack | backend/internal/api/wgsync.go:366-413 | the other way round: a guarded pass pushes over the queue's newer list |
| BrowseImport.FetchIsSlice | backend/internal/worker/browse.go:170-188 | paging by the oldest time seen reads the log in contiguous slices |
| BrowseImport.FetchIgnoresNewer | backend/internal/worker/browse.go:170-188 | entries that arrive while a tick runs do not disturb its older pages |
| BrowseImport.BrowseWorker.Sync | backend/internal/worker/browse.go:134-256 | one tick: what is newer than the clamped cursor, as far as the cap allows, is imported; a failure keeps the pages before it whole and leaves the cursor; the cursor moves to the newest entry when history was reached and else to the deepest examined |
| BrowseImport.BrowseWorker.WalkPages | backend/internal/worker/browse.go:166-239 | the page loop reports history reached exactly when an entry at or below the cursor, or the end of the log, lies within the cap |
| BrowseImport.BrowseWorker.RowsAbove | backend/internal/worker/browse.go:191-222 | the rows of a page are those of its attributable entries above the first entry not newer than the cursor |
| BrowseImport.BrowseWorker.InsertBatch | backend/internal/worker/browse.go:291-309 | rows already there stay as they are; a batch is one implicit transaction, of which a failure leaves nothing |
| BrowseImport.TakenKeys | backend/internal/worker/browse.go:291-300 | importing adds exactly the keys of the attributable entries, each for the peer the index has for its client, and changes no record that was there |
| BrowseImport.TickIsStep | backend/internal/worker/browse.go:134-256 | whatever the tick method does is a step of the runs below |
| BrowseImport.CursorNeverMovesBack | backend/internal/worker/browse.go:276-288 | over every run of ticks, failed ones included, the cursor never moves back and never passes the newest entry |
| BrowseImport.RecordedExactly | backend/internal/worker/browse.go:134-256 | after any run, capped and failed ticks included, an entry is in the table exactly when some tick covered it and could attribute it |
| BrowseImport.AttributedByFirst | backend/internal/worker/browse.go:203-220 | over every run a record belongs to the peer that its client had at the first tick that covered the entry and could attribute it |
| BrowseImport.EveryEntryIsPassed | backend/internal/worker/browse.go:241-251 | the cursor has passed every entry below it by a tick that found it in the log |
| BrowseImport.PassingCovers | backend/internal/worker/browse.go:139-147 | a tick that reaches history covers what it passes, but for what its retention drops |
| BrowseImport.PassedOnce | backend/internal/worker/browse.go:276-288 | no two ticks pass the same entry |
| BrowseImport.NothingIsLost | backend/internal/worker/browse.go:134-256 | when every successful tick reaches history, every entry up to the cursor was passed by a tick that found it, and is in the table exactly when that tick could attribute it within its retention or a failed tick before had imported it |
| BrowseImport.CaughtUp | backend/internal/worker/browse.go:241-251 | right after a successful tick of such a run this holds for every entry of the log |
| BrowseImport.BelowCursorStaysOut | backend/internal/worker/browse.go:200-203 | what is missing when the cursor has passed it is never imported by any later tick |
| BrowseImport.CappedTickSkips | backend/internal/worker/browse.go:241-251 | of the new entries seen by a capped tick, exactly those at or above the deepest examined are ever imported, whatever ticks follow |
| BrowseImport.SkipsExactlyLargeBacklogs | backend/internal/worker/browse.go:43-51 | a tick has entries to skip exactly when more entries are newer than the cursor than its pages hold |
| BrowseImport.OldestIsSkipped | backend/internal/worker/browse.go:43-51 | for every page size and cap, a run whose first tick meets one entry more than its pages hold, and never imports the oldest |
| QueryLogPages.PagesHoldTheLogExactly | backend/internal/worker/browse.go:166-239 | for every log whose times never increase, every page size and cap, the pages hold everything down to the cap exactly when no page boundary before it lies between two entries of one time |
| QueryLogPages.EqualTimesAcrossPages | backend/internal/worker/browse.go:170-188 | at the first such boundary the entry behind it is on no page |
| IPRules.ExpandIPBlockRules | backend/internal/api/ip_rules.go:244-332 | the drop list is strictly sorted and holds exactly the pairs some rule drops; conflicts and rules without effect are listed exactly and in order |
| IPRules.ExpandRule | backend/internal/api/ip_rules.go:266-322 | one rule adds exactly the pairs it drops, reports its refused destinations, and says whether it had no effect |
| IPRules.AddSources | backend/internal/api/ip_rules.go:290-317 | a destination gets exactly the sources in the rule's scope, peer selection and address family, each once |
| IPRules.ConflictsAreRefusals | backend/internal/api/ip_rules.go:279-288 | the conflicts are exactly the (rule, destination) pairs refused for containing the gateway or the block page, with the reason |
| IPRules.ControlPlaneStaysOpen | backend/internal/api/ip_rules.go:239-243 | no drop covers the tunnel gateway or the block-page address |
| IPRules.ControlPlaneIsReachable | backend/internal/api/ip_validate.go:66-88 | with the backend's own tests on IPv4 text, no dropped network contains the gateway's or the block page's address |
| IPRules.DropListIsCanonical | backend/internal/api/ip_rules.go:325-331 | reordering or repeating rules, their peers, group members or server peers leaves the very same list |
| PacketDrops.RefusedExactly | backend/internal/api/ip_rules.go:279-288 | with the backend's own tests on IPv4 text, a destination is refused exactly when its network holds the gateway's address or the block page's; an unset address refuses nothing |
| PacketDrops.DroppedUnlessProtected | backend/internal/api/ip_rules.go:276-317 | what a rule asks for is in the drop list exactly when its network spares both |
| PacketDrops.PacketDroppedExactly | backend/internal/api/ip_rules.go:236-243 | a packet is dropped exactly when some rule has a range with its destination that spares both addresses and is meant for its source |
| DomainRules.BuildAdGuardRules | backend/internal/api/domain_validate.go:182-264 | fails exactly when the group query or a needed peer lookup fails; else the list is strictly sorted and holds exactly the texts of what some rule blocks, with rejected domains and unexpanded rules reported exactly |
| DomainRules.CompileRule | backend/internal/api/domain_validate.go:198-259 | one rule adds exactly the texts of what it blocks |
| DomainRules.TextIsInjective | backend/internal/api/domain_validate.go:236-258 | the text of a rule determines its domain and its client |
| DomainRules.RuleListKeepsMeaning | backend/internal/api/domain_validate.go:179-181 | among the compiled texts, or what a successful sync reads back, is the text of a (domain, client) pair exactly when some rule blocks the pair |
| DomainRules.RuleListIsCanonical | backend/internal/api/domain_validate.go:262 | reordering or repeating rules, group domains or looked-up peers leaves the very same list |
| DomainClients.HostsExactly | backend/internal/api/domain_validate.go:288-349 | a lookup returns, each once, exactly the addresses of the wanted active peers on active servers |
| DomainClients.AudienceExactly | backend/internal/api/domain_validate.go:219-258 | a rule applies to everybody exactly when it names neither user nor department, and else to the addresses of exactly the peers it is meant for |
| DomainClients.BlockedExactly | backend/internal/api/domain_validate.go:179-264 | compiled from the tables, the list blocks a domain for an address exactly when a rule with the domain is meant for an online peer with it: one of the user's, of the selection if there is one, or of the department |
| DomainRules.DiffRuleSets | backend/internal/api/domain_validate.go:351-371 | returns the sizes of the two set differences |
| DomainRules.NoDifferenceMeansSameRules | backend/internal/api/domain_validate.go:351-371 | both are zero exactly when the two lists hold the same rules |
| DomainRules.RuleSync.SyncDomainRules | backend/internal/api/domain_rules.go:129-221 | a sync succeeds exactly when the rules compile, the filter is healed and takes the list, and then, protected, reads back exactly the texts of what the loaded rules block |
| DomainRules.RuleSync.Push | backend/internal/api/domain_rules.go:148-197 | which requests go out: healing what is off, and the list only to a filter that then filters and protects |
| DomainRules.Verify | backend/internal/api/domain_rules.go:199-217 | the read-back passes exactly for a protected filter with the same rules in any order |
| Canonical.SortSorts | backend/internal/api/ip_rules.go:325-330 | sorting a duplicate-free list orders it strictly and keeps its elements |
| Canonical.SortedIsCanonical | backend/internal/api/ip_rules.go:325-330 | a strictly sorted list is determined by its elements |
| CidrText.SameAddressesSameNetwork | backend/internal/api/ip_validate.go:15-45 | two masked networks that contain the same addresses are the same network |
| CidrText.ParsePrinted | backend/internal/api/ip_validate.go:15-45 | printing a network and parsing the text gives the network back |
| CidrReading.AddressText | backend/internal/api/ip_validate.go:15-45 | an IPv4 address has one text that is accepted, the dotted form that is printed |
| CidrReading.ParsesExactly | backend/internal/api/ip_validate.go:15-45 | a text is read as a network exactly when it is a bare address, or an address of that network, a slash and its length, which may have leading zeros |
| CidrReading.ParseFailsExactly | backend/internal/api/ip_validate.go:15-45 | every other text is an error, which says whether it is empty, no network or no address |
| CidrText.NormalizeIsIdempotent | backend/internal/api/ip_validate.go:15-45 | the canonical form is its own canonical form and covers the same addresses as the input |
| CidrReading.NormalizesExactly | backend/internal/api/ip_validate.go:15-45 | an input gives a canonical text exactly when, without the white space around it, it denotes the network printed there, and that is not everything, unspecified or loopback |
| CidrReading.RefusedExactly | backend/internal/api/ip_validate.go:15-45 | and is refused exactly for not parsing or for the first of these three that holds |
| CidrReading.TrimsExactly | backend/internal/api/ip_validate.go:15-20 | trimming takes away exactly the white space at both ends |
| CidrText.SameTextSameNetwork | backend/internal/api/ip_validate.go:10-14 | two accepted inputs have equal canonical text exactly when they cover the same addresses |
| CidrText.ExpandInput | backend/internal/api/domain_validate.go:121-134 | a pasted list is cut, entry by entry, into its fields |
| CidrText.FieldsHoldEverything | backend/internal/api/domain_validate.go:121-134 | the fields of a text are non-empty and free of separators, and in order they hold every character that is none |
| CidrText.SeparatorEndsField | backend/internal/api/domain_validate.go:121-134 | a text without separators is one field, and a separator ends the field before it |
| CidrText.NormalizeCIDRList | backend/internal/api/ip_groups.go:33-59 | refused exactly for no entries, more than 500, or a refused entry, with the error of the first; else duplicate-free and exactly the canonical texts of the entries, in the order in which they are first given |
| CidrText.ListHasNoTwins | backend/internal/api/ip_groups.go:42-54 | no two entries of a normalised list stand for the same network |
| CidrText.ListCoversInput | backend/internal/api/ip_groups.go:31-32 | a normalised list covers exactly the addresses its input covers |
| PeerAddresses.GatewayForCIDR | backend/internal/api/servers.go:445-457 | the gateway is the address after the network's, its last octet wrapping at 256, with the prefix length; an error exactly for text that is no IPv4 network |
| PeerAddresses.NextAvailableIP | backend/internal/api/peers.go:27-68 | the first candidate with last octet 2 to 254 that is not in use; none left exactly when all are in use |
| PeerAddresses.AllocationIsUnique | backend/internal/api/peers.go:56-67 | that specification leaves no choice of answer |
| PeerAddresses.CandidateInNetwork | backend/internal/api/peers.go:57-66 | exactly which candidates lie in the network, for every prefix length |
| PeerAddresses.AllocationsAreUsable | backend/internal/api/peers.go:25-68 | for prefixes up to 24 an allocated address is in the network, unused, and neither the network's own, the gateway's nor a last octet 255 |
| PeerAddresses.NeverLeavesExactly | backend/internal/api/peers.go:55-67 | over all tables of used addresses, the allocator never leaves the network exactly for prefixes up to 24 |
| PeerAddresses.NeverTakesReservedExactly | backend/internal/api/peers.go:55-67 | and it never hands out the network address or the gateway exactly when the network starts at last octet 0 or 255 |
| PeerAddresses.UpperHalfExample | backend/internal/api/peers.go:55-67 | the first allocation in the upper half of a /24 lies outside it |
| PeerCreate.Find | backend/internal/api/peers.go:84-96 | the replay lookup finds a row exactly when one has the request id |
| PeerCreate.Allocate | backend/internal/api/peers.go:256-262 | the choice made by a create is the allocator's answer |
| PeerCreate.InsertKeepsInv | backend/internal/api/peers.go:272-295 | an insert, successful, lost, refused by an index or failed, keeps what is known of rows, attempts and emails; what each of these answers is `PeerAnswers.AnsweredExactly` |
| PeerCreate.StepKeepsInv | backend/internal/api/peers.go:219-339 | so does every other step of every attempt |
| PeerCreate.OneRowPerRequest | backend/migrations/027_peer_create_request_id.sql:8-19 | whatever interleaves, a request id is in at most one row |
| PeerCreate.OneCreatedPerRequest | backend/internal/api/peers.go:281-295 | at most one attempt with an id is answered "created" |
| PeerCreate.OneEmailPerRequest | backend/internal/api/peers.go:219-230 | and at most one email goes out for it |
| PeerCreate.EmailsGoWithCreated | backend/internal/api/peers.go:309-326 | only attempts answered "created" have sent an email |
| PeerCreate.CreatedHasEmailExactly | backend/internal/api/peers.go:602-625 | a "created" answer has its email exactly when a link to a key made here was asked for and a mail host was set, the user found and the queue took it |
| PeerCreate.SuccessNamesTheRow | backend/internal/api/peers.go:97-106 | every success reply names the key and the address of a row with the attempt's id |
| PeerCreate.SuccessesAgree | backend/internal/api/peers.go:81-83 | all success replies for one id name the same key and host |
| PeerCreate.RowsStay | backend/internal/api/peers.go:376-460 | suspending, resuming and removing change a row's status and nothing else |
| PeerCreate.RetryFindsTheRow | backend/internal/api/peers.go:219-230 | once a row with the id is there, the lookup of a retry, or the one after a conflict, is answered with it, whatever happened in between |
| PeerAnswers.LostRaceIsAnswered | backend/internal/api/peers.go:280-292 | from its insert on, a create whose id is in another's row conflicts, and its lookup answers with that row's key and host, whatever the others do in between |
| PeerAnswers.AnsweredExactly | backend/internal/api/peers.go:219-339 | over every run an attempt is answered "failed", "exists" or "created" exactly when one of its own statements gave that answer, with each cause spelled out |
| PeerAnswers.WithIdFailsExactly | backend/internal/api/peers.go:280-295 | when its calls are answered, a create with an id fails exactly when the network had no address left, or its key or address was another peer's and no row has the id |
| PeerAnswers.CreatedAsChosen | backend/internal/api/peers.go:235-262 | a peer is created under the key and the address given, or else under the key made for it and the lowest address that was then unused on its server |
| PeerAnswers.RowExactly | backend/internal/api/peers.go:270-276 | exactly the attempts whose insert was committed leave a row, a lost answer included |
| PeerAnswers.AllocatesLowest | backend/internal/api/peers.go:42-67 | over the rows of a server the allocator returns the lowest candidate that no row has, and nothing exactly when all have one |
| PeerAnswers.StatusExactly | backend/internal/api/peers.go:376-460 | a peer is active, suspended or removed as was last set |
| PeerCreate.SharedHostsDifferInMask | backend/migrations/001_initial.sql:73-79 | two peers of a server share a host only under different masks, one of which a client wrote |
| PeerCreate.PeersNeverShareAnAddress | backend/internal/api/peers.go:256-295 | with full masks, over all allocations, suspensions, resumes and removals no two peers of a server share an address |
| PeerCreate.NeverShareExactly | backend/migrations/001_initial.sql:73-79 | over all runs in which clients write only the masks of a set, no two peers of a server share an address exactly when the set holds no mask but 32 |
| PeerCreate.ShorterMaskShares | backend/internal/api/peers.go:256-295 | for every shorter mask, a run in which a peer with a written address meets an allocated one |
| PeerCreate.ChosenAddressIsFree | backend/internal/api/peers.go:42-67 | a chosen address is that of no row of its server, removed peers included |
| PeerCreate.MaskedAddressExample | backend/migrations/001_initial.sql:73-79 | for every host and shorter mask, a run in which two peers of a server have that host |
| LoginSessions.StepKeepsOnce | backend/internal/api/mfa_shared.go:528-560 | every step keeps codes, ceremonies and stamps single-use |
| LoginSessions.StepKeepsInv | backend/internal/api/mfa_shared.go:363-438 | every step of every login, step-up and revocation keeps the invariant of rows, flights and proofs |
| LoginSessions.ConsumeKeepsInv | backend/internal/api/mfa_shared.go:363-373 | deleting the pending row hands it to one flight for ever |
| LoginSessions.MintKeepsInv | backend/internal/api/mfa_shared.go:386-407 | inserting the session keeps its flight and its proof its own |
| LoginSessions.AcceptedSessionHasItsProof | backend/internal/api/store.go:405-410 | every row the middleware accepts was preceded by a proof record of its own flight and admin, of the kind the flight needs; that a right factor stands behind the record is `LoginProvenance.EverySessionIsEarned` |
| LoginProvenance.EverySessionIsEarned | backend/internal/api/mfa_shared.go:24-31 | every accepted session is less than a day old and was earned by its own flight in this order: a password, a pending row found within its ten minutes, a factor that was judged right, the row used up; or a ceremony claimed, the account found by its handle, its passkeys loaded, the assertion accepted |
| LoginProvenance.FactorMintsExactly | backend/internal/api/mfa_shared.go:361-407 | when a factor is decided on, the login can still get its session exactly when the factor was right and the pending row is there |
| LoginProvenance.JudgedOnce | backend/internal/api/mfa_totp.go:190-262 | a flight's factor is decided on once |
| LoginProvenance.LoginResolvesExactly | backend/internal/api/mfa_shared.go:250-325 | after a right password a handler goes on exactly when it serves what the policy asked for then, within ten minutes |
| LoginProvenance.RevokedStaysOut | backend/internal/api/mfa_shared.go:389-407 | a session whose row is deleted is never accepted again |
| LoginProvenance.EveryCredentialIsIssued | backend/internal/api/admin_security.go:134-180 | every code, ceremony and stamp, open or spent, was issued by its own step; a stamp only by an assertion that verified, for a session in force |
| LoginProvenance.StepUpStampsExactly | backend/internal/api/mfa_passkey.go:551-591 | an assertion that verifies leaves its session exactly one stamp, one that does not leaves the stamps as they were |
| LoginTables.OpenExactly | backend/internal/api/admin_security.go:134-262 | over every run a code, ceremony or stamp can be used exactly if it was issued and neither used nor withdrawn since |
| LoginTables.AcceptedExactly | backend/internal/api/mfa_shared.go:386-407 | over every run the accepted sessions are exactly those that a finished login inserted less than a day ago and that were neither revoked nor of an admin reset since |
| LoginTables.PendingExactly | backend/internal/api/mfa_shared.go:250-373 | a password step's row is there exactly until its login uses it, the deletion after the fifth failure succeeds, it is deleted, or its admin is reset |
| LoginSessions.SessionsShareNoProof | backend/internal/api/mfa_shared.go:24-31 | two accepted sessions share neither a proof nor the recovery code or ceremony behind it; authenticator codes, which nothing remembers (`backend/internal/auth/totp.go:27-29`), are the exception |
| LoginSessions.PendingRowMintsOnce | backend/internal/api/mfa_shared.go:361-373 | a pending row mints at most one session, and is gone then |
| LoginSessions.CredentialsAreUsedOnce | backend/internal/api/admin_security.go:144-178 | each recovery code, ceremony and step-up stamp is accepted at most once, ceremonies and stamps before they expire |
| LoginSessions.PendingSurvivesFourFailures | backend/internal/api/mfa_shared.go:409-438 | a pending row has at most four recorded failures, save while its deletion is under way or when that deletion failed |
| LoginGuesses.GuessesAreAccountedFor | backend/internal/api/mfa_shared.go:413-438 | over every run, the wrong factors tried on a pending row, enrolment codes included, are those recorded, those waiting to be, and those given up on |
| LoginGuesses.FourInTurn | backend/internal/api/mfa_shared.go:413-438 | with handlers in turn, none of which stopped short, each finds at most four wrong factors tried |
| LoginGuesses.AnyNumberOfGuesses | backend/internal/api/mfa_totp.go:229-260 | for every number, a run in which overlapping handlers try that many wrong codes on one row and a right one after them logs in |
| LoginResets.ResetEndsLogins | backend/internal/api/admin_security.go:240-262 | a reset leaves the admin no row, and later sessions come only from logins that started after it, had deleted their pending row, or were passwordless and had found their handle |
| LoginResets.OutlivesResetExactly | backend/internal/auth/webauthn/service.go:353-416 | after any run, exactly those logins of the admin, when the reset commits, can have a session after it |
| LoginResets.EnablesAfterResetExactly | backend/internal/api/mfa_totp.go:400-452 | after any run, exactly the admin's enrolments of an authenticator app that were neither refused nor done when the reset commits can turn it on after it |
| LoginResets.LoginAcrossReset | backend/internal/api/admin_security.go:240-262 | a run in which a login past its pending row inserts its session after the reset |
| LoginResets.EnrolmentMintsExactly | backend/internal/api/mfa_totp.go:465-505 | after any run, completing a waiting enrolment gives a session exactly when the account's factors meet the policy, whoever enrolled them |
| LoginResets.OneEnrolmentTwoSessions | backend/internal/api/mfa_totp.go:465-505 | a run in which two logins wait for enrolment and one enrolled factor gives both a session |
| LoginHandlers.Store.ConsumeRecoveryCode | backend/internal/api/mfa_shared.go:528-560 | accepts exactly a code stored for the admin under either scheme and removes it; other admins' codes are untouched |
| LoginHandlers.Store.RecordMFAFailure | backend/internal/api/mfa_shared.go:409-438 | counts one failure on a pending row, which goes at the fifth; pending rows always have fewer than five |
| LoginHandlers.Store.FinishMFALogin | backend/internal/api/mfa_shared.go:361-384 | replaces a pending row by one new session of the admin, or changes nothing when there is none |
| LoginHandlers.Store.MFARecoveryCodeVerify | backend/internal/api/mfa_totp.go:265-324 | a session appears exactly for a live pending row and a code of its own admin, using up both; a wrong code costs one attempt |
| LoginHandlers.Store.MFAFactorVerify | backend/internal/api/mfa_totp.go:190-260 | a session appears exactly for a live pending row and a positive verdict; a negative one costs one attempt |
| RecoveryCodes.NormalizeRecoveryCode | backend/internal/api/mfa_shared.go:458-466 | keeps the letters and digits in upper case, in order |
| RecoveryCodes.GroupingIsIgnored | backend/internal/api/mfa_shared.go:467-469 | grouping a code with dashes does not matter, and normalising twice is normalising once |
| RecoveryCodes.CaseIsIgnored | backend/internal/api/mfa_shared.go:458-466 | nor does typing it in small letters |
| RecoveryCodes.AcceptedAgain | backend/internal/api/mfa_shared.go:528-560 | an accepted code, however typed, is accepted again exactly when it was stored under both schemes |
| RecoveryCodes.OthersStay | backend/internal/api/mfa_shared.go:545-549 | using a code leaves every other code as usable as it was |
| MfaFactors.SatisfiedMeansNothingMissing | backend/internal/api/mfa_shared.go:181-217 | for all inputs, exactly when the policy check and the list of missing methods agree |
| MfaFactors.LoadedPolicyAgrees | backend/internal/api/mfa_shared.go:126-179 | for everything the loaders return they agree, and a satisfied policy means a usable factor |
| MfaFactors.EnforcedExactly | backend/internal/api/mfa_shared.go:158-188 | a stored policy is met exactly with some usable factor and the ones it names, a passkey only where there can be one |
| MfaFactors.EnrollingWhatIsMissingSatisfies | backend/internal/api/mfa_shared.go:156-158 | no stored policy makes login impossible: enrolling what is missing satisfies it |
| MfaFactors.AdminTables.DeletePasskey | backend/internal/api/mfa_passkey.go:435-505 | the whole effect of removing a passkey, and each refusal, in the order of the checks |
| MfaFactors.AdminTables.RemoveTotp | backend/internal/api/mfa_totp.go:769-815 | the whole effect of removing the authenticator app, recovery codes included, and each refusal |
| MfaFactors.AdminTables.ResetAdminMFA | backend/internal/api/admin_security.go:215-262 | a verified reset of another admin clears factors, codes and sessions together; anything else changes nothing |
| MfaFactors.RequestKeepsAFactor | backend/internal/api/mfa_passkey.go:460-475 | no self-service request takes the last usable factor |
| MfaFactors.AdminsKeepAFactor | backend/internal/api/mfa_totp.go:766-796 | over any run of everybody's requests an admin with a usable factor keeps one unless somebody else resets them |
| FactorHistory.RemovalDoneExactly | backend/internal/api/mfa_passkey.go:460-475 | a removal goes through exactly when it is confirmed and leaves a usable factor |
| FactorHistory.PasskeysExactly | backend/internal/api/mfa_passkey.go:352-505 | over every run an admin has exactly the passkeys that were there or added and not removed or reset since |
| FactorHistory.SessionsExactly | backend/internal/api/mfa_passkey.go:484-500 | over every run a session lives on exactly if no change of its admin's factors was made from another one and no reset came |
| FactorHistory.TotpStep | backend/internal/api/mfa_totp.go:706-815 | the app is on after a request exactly if it was added, or was on and was not removed or reset |
| FactorHistory.CodesStep | backend/internal/api/mfa_totp.go:769-858 | how many recovery codes a request leaves: ten made anew, none without the app, one less for a code used as the proof |
| FactorHistory.CodeSpentExactly | backend/internal/api/mfa_totp.go:769-815 | a code given as the proof is spent before the app's removal is refused, but not when a passkey's is |
| MfaFactors.ResetClears | backend/internal/api/admin_security.go:193-197 | after any run a reset leaves the target no usable factor, no code and no session, and nobody else is touched |
| MfaFactors.OverlappingRemovals | backend/internal/api/mfa_passkey.go:454-485 | two removals both checked before either takes effect leave no usable factor exactly when there were two and these are they |
| LoginLockout.LoginLockoutTracker.SweepLocked | backend/internal/api/login_lockout.go:36-46 | drops exactly the idle entries that are not locked, at most once per idle period |
| LoginLockout.LoginLockoutTracker.Remaining | backend/internal/api/login_lockout.go:49-70 | the time left, and the clearing of an expired lock or an idle entry; when there is a lock at all is `LockoutHistory.FailLocksExactly` |
| LoginLockout.LoginLockoutTracker.RecordFailure | backend/internal/api/login_lockout.go:75-98 | one failure counted after a sweep, and a lock at the threshold |
| LoginLockout.LoginLockoutTracker.Reset | backend/internal/api/login_lockout.go:101-105 | forgets the address |
| LoginLockout.LockLasts | backend/internal/api/login_lockout.go:72-98 | a lock is reported in full until its end, across all operations and sweeps but a reset |
| LoginLockout.LocksArePaidFor | backend/internal/api/login_lockout.go:86-96 | locks times threshold never exceed the failures counted |
| LoginLockout.SweepIsUnobservable | backend/internal/api/store.go:181-265 | for every interleaving of all callers' sections, when each failure is counted within the idle time of a question for its address that was answered "not locked", all answers are those of a tracker that never sweeps; a pending row's ten minutes and a ceremony's five at an unchanged address are within it |
| LoginLockout.SweepUnobservableExactly | backend/internal/api/login_lockout.go:36-98 | under one policy, over all runs with at most a given number of counts that no such question precedes, the sweep cannot be observed exactly when that number is 0, or the first failure locks, or locks take no time |
| LoginLockout.SweepShowsWithoutAsking | backend/internal/api/login_lockout.go:36-46 | for every other policy, a run with one such count in which a caller that does ask gets another answer |
| LockoutHistory.FailLocksExactly | backend/internal/api/login_lockout.go:75-98 | over every run, swept or not, under any thresholds and whatever comes between, a failure is answered with a lock exactly when with it the address has failed on as often as the threshold says: neighbours no further apart than the idle time unless a lock held, and no reset, lock or question that found a lock over in between |
| LockoutHistory.AskTellsExactly | backend/internal/api/login_lockout.go:49-70 | a question is answered with exactly what is left of the last lock that was not reset |
| LockoutHistory.EnoughExactly | backend/internal/api/login_lockout.go:86-96 | the count the tracker keeps is that of the longest such streak |
| RateLimiter.Limiter.Sweep | backend/internal/api/store.go:542-556 | every key is trimmed to the window and dropped when nothing is left |
| RateLimiter.Limiter.IsLimited | backend/internal/api/store.go:558-590 | one call's answer and the whole state it leaves |
| RateLimiter.AnswersLikeTheReference | backend/internal/api/store.go:558-590 | every call is answered as by a limiter that keeps every accepted time for ever |
| RateLimiter.AtMostMaxPerWindow | backend/internal/api/store.go:584-589 | at most `maxAttempts` attempts per key are accepted in any interval of one window |
| LimiterHistory.RefusedExactly | backend/internal/api/store.go:558-590 | after every run of calls an attempt is refused exactly when as many for its key were let through in the window that ends with it as the limit allows |
| TrafficCounters.DeltaIsExact | backend/internal/worker/traffic.go:24-32 | a delta is non-negative exactly when the counter did not jump by 2^63 at once, and is then the difference, or 0 after a restart |
| TrafficCounters.PeerDeltasAreNonNegative | backend/internal/worker/traffic.go:109-115 | readings that come as non-negative signed numbers give non-negative samples |
| TrafficCounters.TrafficWorker.PollTraffic | backend/internal/worker/traffic.go:73-148 | one poll: a sample for exactly the keys read now and before, and the readings remembered, pruned only on servers that answered |
| TrafficCounters.TrafficWorker.PollServer | backend/internal/worker/traffic.go:103-135 | the same for one server's statistics |
| TrafficCounters.TrafficWorker.Prune | backend/internal/worker/traffic.go:140-146 | forgets exactly the unreported keys of servers that answered |
| TrafficCounters.ReadExactly | backend/internal/worker/traffic.go:103-135 | a poll reads for a key exactly the receive and transmit counters that its own server reports for its peer |
| TrafficCounters.CountersExactly | backend/internal/worker/ipblock.go:91-133 | and for a rule exactly the counters listed for it |
| TrafficCounters.IPBlockHitWorker.Poll | backend/internal/worker/ipblock.go:80-145 | one poll: a row for exactly the counters that advanced, and only the listed counters remembered |
| TrafficCounters.IPBlockHitWorker.Count | backend/internal/worker/ipblock.go:91-133 | one counter: nothing for a first sight, a restart or no change, else the differences |
| TrafficCounters.NeverOvercounts | backend/internal/worker/traffic.go:19-23 | for every sequence of transfers, restarts, lost rows and forgotten keys, stored deltas are non-negative in sum and at most what was transferred since the first reading |
| TrafficCounters.ExactWithoutRestarts | backend/internal/worker/traffic.go:104-124 | without restarts, lost rows and forgotten keys since the first reading the sum is exact at every reading |
| TrafficCounters.PollIsOneEvent | backend/internal/worker/traffic.go:96-146 | a poll is, for each direction of each key, one event of those sequences |
| TrafficCounters.HitPollIsOneEvent | backend/internal/worker/ipblock.go:90-144 | so is a poll of the blocked-packet counters |
| TrafficCounters.HitBytesPollIsOneEvent | backend/internal/worker/ipblock.go:95-105 | and of their byte counters, whose row is dropped when the packet counter restarted |
| TrafficCounters.PollsFollowTrace | backend/internal/worker/traffic.go:73-148 | over every run of polls, what is remembered and stored for a key is what its sequence of events says |
| TrafficCounters.PollsNeverOvercount | backend/internal/worker/traffic.go:19-23 | so over every run of polls a key's stored rows never exceed what was transferred since its first sample |
| TrafficCounters.PollsAreExact | backend/internal/worker/traffic.go:104-124 | and are exact after a poll that reports the key, if since its first sample it never restarted and was always reported and stored when its server answered |
| TrafficCounters.HitPollsFollowTrace | backend/internal/worker/ipblock.go:80-145 | the same connection for the packets and bytes of a block rule |
| TrafficCounters.HitPollsNeverOvercount | backend/internal/worker/ipblock.go:91-133 | so neither is ever overcounted |
| TrafficCounters.HitPollsAreExact | backend/internal/worker/ipblock.go:91-133 | and both are exact after a poll that lists the rule, if since its first listing it never restarted and was always listed and stored |
| TrafficRollup.TrafficTables.Rollup | backend/internal/worker/rollup.go:42-71 | the two statements with a cutoff each, either of which may fail: a failure keeps the samples, and a completed roll-up keeps every peer's total but for what overwritten rows held and what came between the cutoffs |
| TrafficRollup.TrafficTables.Upsert | backend/internal/worker/rollup.go:44-58 | adding the old samples up by peer and day, sample by sample, and replacing those rows gives every day with old samples their sum |
| TrafficRollup.TrafficTables.DeleteOld | backend/internal/worker/rollup.go:60-66 | the samples from the cutoff on stay, in order |
| TrafficRollup.UpsertedRow | backend/internal/worker/rollup.go:44-58 | what the upsert leaves in a day's row: the sum of the day's old samples if there are any, else what it held |
| TrafficRollup.RollupLoses | backend/internal/worker/rollup.go:42-71 | a roll-up loses exactly what the overwritten rows held and what was sampled between its two cutoffs |
| TrafficRollup.RollupConservesExactly | backend/internal/worker/rollup.go:42-71 | it conserves a peer's total exactly when both are nothing |
| TrafficRollup.NoonCutoffLoses | backend/internal/worker/rollup.go:52-57 | two roll-ups, the first with a cutoff at noon, lose a morning |
| TrafficRollup.RunAccountsForEverything | backend/internal/worker/rollup.go:42-71 | with one cutoff at the start of a day, after any run with failures and crashes samples and daily rows add up to all bytes ever taken plus what a crash left in both |
| TrafficRollup.CompletedRollupConserves | backend/internal/api/stats.go:244-255 | the next completed roll-up restores every total, and no day has both samples and a daily row |
| ConfigFileName.ConfigFileName | backend/internal/api/filename.go:27-61 | the backend's loop computes the slug of the name |
| ConfigFileName.BothSidesAgree | frontend/src/lib/filename.ts:24-35 | the frontend's chain gives the same file name for every name, on UTF-16 units and with different white space |
| ConfigFileName.BaseIsSlug | backend/internal/api/filename.go:52-60 | a base is 1 to 64 characters of a-z, 0-9 and dash with no leading, trailing or doubled dash |
| ConfigFileName.SlugIsFixed | backend/internal/api/filename.go:27-61 | slugging a slug changes nothing |
| ConfigFileName.SlugIsIdempotent | backend/internal/api/filename.go:27-61 | the base of a base is that base, for every name |

## Left out

- The startup and reconcile path that applies a server directly (`backend/internal/api/wgsync.go:273-324`) does not
  go through the queue; the queue's theorems are about what the queue issues.
- Two servers that share an interface name, and requests that fail before they reach the queue.
- What the kernel helper, nftables, the DNS filter and the WebAuthn library do with what they are given.
- The time of the last attempt in the domain sync, and the block page's address it sets; its periodic worker is a
  thread that asks directly.
- Query-log entries whose time does not parse, entries that leave the log's own retention, the purge of old records,
  and the normalisation of hosts and client addresses. Times are whole units, as coarse as the table keeps them.
- BrowseImport.NothingIsLost: the times of the log's entries are pairwise distinct. With equal times entries are lost
  exactly when a page boundary lies between two of one time (`QueryLogPages.PagesHoldTheLogExactly`).
- IPv6 text, IPv4-mapped addresses, domain normalisation and the public-suffix list. The rule compilers are
  right for any behaviour of the address tests and of the domain normaliser.
- Deleting a server with its peers: the create protocol is about rows that stay. The kernel and domain syncs a create
  asks for are the two sync models.
- A create carries its idempotency key already trimmed and checked for length.
- Idle timeout, password checks, disabled accounts and other reasons for which a handler stops early are one step that
  abandons a flight, or a row revoked at any time. The grace window of a recent step-up is left out.
- LoginHandlers.Store.MFAFactorVerify: an account without the factor answers before anything is recorded; the model
  starts where the factor is checked.
- Hashes are injective, tokens, ceremonies and generated codes are fresh numbers.
- TrafficCounters.NeverOvercounts: a counter that would leave the signed 64-bit range stands still; the exact limit is
  `DeltaIsExact`.
- LoginLockout.SweepIsUnobservable: callers enter the tracker's sections in the order of the times they bring.
- LockoutHistory.FailLocksExactly: a lock lasts longer than no time, as every configured policy does
  (`backend/internal/api/security_config.go:24-67`).
- PacketDrops.PacketDroppedExactly: destinations are IPv4, as in the text tests.
- DomainClients.BlockedExactly: the queries answer, and the normal form of a domain has no caret.
- RateLimiter.AtMostMaxPerWindow: the interval is open at its start, as the limiter's own comparison is.
- TrafficRollup.RunAccountsForEverything: the worker's own cutoff is thirty days before now and not the start of a
  day; for that the exact loss of each roll-up is stated instead. The third statement, which deletes old hit samples,
  is left out.
- LoginResets.OutlivesResetExactly: a passkey of the account, not which one, decides whether credentials are loaded;
  whether the assertion matches one of them is a verdict from outside. An assertion names a handle given out before.
- LoginResets.EnablesAfterResetExactly: the setup secret may be stored by a request that began before the reset.
- Removing factors and resetting are one step each in the runs; what two overlapping removals do is stated separately.
- HTTP, JSON, cookies, CSRF headers, audit rows, email rendering, backups and the rest of the frontend: plumbing around
  these transitions.
