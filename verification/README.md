# Coordination Loop Harness: a verified model

This project models the parts of the Coordination Loop Harness whose correctness
depends on interleavings, long histories or untrusted input, and proves what they
are for. `dafny verify dfyconfig.toml` checks all of it.

**Lease admission.** Any number of processes run acquire, replace and release on
one lock root. `Admission` is their transition system: a directory creation
serialises them, each has a program counter, every publication is the two-step or
one-step atomic write, and a process may fail or die between any two steps while
time advances freely. The checks the operations make are parameters there
(`Rules`); `Reachability` supplies the real ones, from `Overlap` (shared-read,
exclusive-write claims), `Lifecycle` (document validity, decision binding, terminal
release), `LockRoot` and `Scanning` (how lease files are scanned and observed), `Binding` (the
decision checks as performed) and `Decisions` (the predecessor walk). `Progress` says
what an operation can still do from any reachable state. `Lineage` relates the two
archive walks to the histories the protocol can really produce. `ScopeFixpoints` and
`Coverage` answer whether a decision can cover a lease at all. `Example` exhibits runs:
a v2 lease that is acquired, replaced and released, a v1 lease that is acquired and
released, and the interrupted publications.

**The Windows handoff.** `LocalTime` is the elapsed-time deadline object, `Frames`
the length-prefixed pipe and `FrameSteps` its transfers one by one. `HandoffIssuer`
and `HandoffClient` are the two parties as objects that keep a log of what they say.
`Handoff` is the system of two such parties and the channels between them, and
`HandoffPair` what its theorems say of the two objects.

**Smaller cores.** `AtomicWrite` (crash-safe publication), `Bundles` (sealing and
verifying), `Facade` (the MCP mutation tools of one server), `Servers` (any number of
servers on one fence, step by step), `GitGuard` (native Git lock files) and `Paths`,
`Numerals` (prefix tests and canonical decimal text).

Conventions. A native call, a clock reading, a Git command or a file-system
operation that can go wrong is an arbitrary outcome (`Attempt`, `:= *`), so a
contract holds for every one. SHA-256 and canonical JSON are injective constructors.
Decision and outcome files do not change. Where a claim of the documentation or an
obvious reading of the code is false, the exact condition is proved, with an input at
which the claim fails:

- Observation and the overlap scan agree on terminal records except for a terminal
  v1 record when the repository root given is not a repository: the scan then refuses
  before it looks, observation needs no root (`LockRoot.ObservationAgreesWithScan`,
  `Example.LegacyLivesAndIsReleased`).
- A released record is read as terminal from then on, except a v1 record with a text
  that ends in a newline, which the schema patterns let through and legacy validation,
  matching whole texts, does not: its id and resources are never freed
  (`Reachability.ReleasedStaysFree`, `Example.LegacyLivesAndIsReleased`).
- Both lineage walks accept a reachable lease exactly when every replacement decision
  names its predecessor by the very text the lease carried. Replacement compares the
  resolved files, the walks compare the texts (`Lineage.ReachableLineage`,
  `Example.SpellingDecidesLineage`).
- A process that dies between the link that publishes a record and the removal of its
  temporary name freezes that record. A release whose checks pass can happen exactly
  when the record has one link, a replacement exactly when in addition no interrupted
  archive copy of the record is in its way (`Progress.ReleaseInRun`,
  `Progress.ReplacementInRun`, `Example.CanBeAbandoned`, `Example.CopyCanBeAbandoned`).
- A covering decision exists exactly when every infrastructure identity is canonical
  and no branch reference ends in the newline its schema pattern lets through
  (`Coverage.CoverExistsIff`). An infrastructure identity that reads like a repository
  with the suffix `.git` is not canonical (`Coverage.GitSuffixIsNoEntry`,
  `Example.NoDecisionCovers`).
- Writing the seal makes the sealed run unverifiable exactly when `runs` is a link
  (`Bundles.SealSurvivesItsOwnWriting`, `Bundles.LinkedRunsSealOnce`).
- Left alone, the Git guard restores the metadata tree exactly when no marker was cut
  short (`GitGuard.Guard.Hold`). Among others, its cleanup takes nothing but its own
  exactly when no lock that passes the checks of identity and content is by then a link,
  another file, or rewritten (`GitGuard.CleanupIsExact`, `GitGuard.ForeignFilesAreRemoved`).
- The next payload is promised to a frame reader only until a read has taken bytes and
  returned nothing: a transfer of nothing does not close the pipe, and the next read can
  then return a payload that nobody sent (`Frames.Channel.ReadFrame`,
  `Frames.MisreadAfterEmptyTransfer`).
- A server can still get through to admission exactly when no interrupted call has left
  the fence or a staging directory behind (`Servers.AdmissionPossible`,
  `Servers.CanBeStuck`).

## Model

| member | source | states |
|---|---|---|
| Paths.OverlapIsComponentNesting | src/coordination_loop_harness/leases.py:507-512 | For all strings, the prefix test holds exactly when, one trailing slash dropped, one list of path components is a prefix of the other |
| Paths.SiblingsNeverOverlap | src/coordination_loop_harness/util.py:389-396 | A sibling whose name only extends another's never overlaps it |
| Overlap.Sets | src/coordination_loop_harness/leases.py:436-504 | The merged tables list exactly the raw claims of a record, and mark an identity WRITE exactly when some claim on it is a WRITE |
| Overlap.TablesDecide | src/coordination_loop_harness/leases.py:600-618 | Testing two records' merged tables, product and coordination repositories combined, answers the question about their raw claims |
| Overlap.FindOverlaps | src/coordination_loop_harness/leases.py:560-619 | The findings are exactly the warranted ones of every scanned record, with category, both values and reported id |
| Overlap.Admits | src/coordination_loop_harness/leases.py:577-619 | Lease-id findings aside, nothing is found exactly when no raw claim of the candidate conflicts with one of a scanned record; with them, exactly when in addition no id matches |
| Overlap.WarrantedIffConflict | src/coordination_loop_harness/leases.py:86-87 | Some resource finding is warranted exactly when two claims on one resource, at least one a WRITE, exist; v1 claims always write |
| Overlap.ConflictsSymmetric | src/coordination_loop_harness/leases.py:86-87 | Conflict is symmetric across v1 and v2 records |
| Overlap.ConflictsMonotone | src/coordination_loop_harness/leases.py:72-76 | Adding claims never removes a conflict |
| Overlap.OrderIndependent | src/coordination_loop_harness/leases.py:445-467 | Reordering or repeating list items never changes a verdict |
| Decisions.VerifyPredecessorChain | src/coordination_loop_harness/decisions.py:25-105 | Ends on every finite store, cyclic ones included, and reports nothing exactly when references count down n, ..., 1 over accepted members of the run and only sequence 1 has no predecessor |
| Decisions.ChainIsListed | src/coordination_loop_harness/decisions.py:40-103 | That descent exists exactly when a list of files with those sequences and links does |
| Decisions.ChainIsAcyclic | src/coordination_loop_harness/decisions.py:72-76 | No file occurs twice in such a list, so a repeated file always means there is no chain |
| Decisions.VerifyDecision | src/coordination_loop_harness/decisions.py:108-199 | No finding exactly when the decision is an accepted v2 decision for this run and action, for the lease and generation where the caller names them, with its whole chain behind it |
| Lifecycle.ReleaseRebuildsCurrent | src/coordination_loop_harness/leases.py:1253-1342 | Rebuilding the ACTIVE record from an admissible terminal record gives exactly the record that was current |
| Lifecycle.ReleaseClosesOneRecord | src/coordination_loop_harness/leases.py:1761-1777 | A terminal record can close only one record, at only one generation |
| Lifecycle.ReleaseInstant | src/coordination_loop_harness/leases.py:1345-1364 | The release instant lies between heartbeat and now; NORMAL exactly when now has not passed expiry and then released by expiry, STALE_RECOVERY only after it |
| Lifecycle.ReleaseFollowsCurrentDecision | src/coordination_loop_harness/leases.py:1299-1342 | The release decision directly follows the decision that binds the record it closes |
| Lifecycle.TerminalReleaseStable | src/coordination_loop_harness/leases.py:1253-1275 | A valid terminal record stays valid as time advances |
| Lifecycle.LegacyReleaseIsTerminal | src/coordination_loop_harness/leases.py:126-238 | Releasing a valid v1 lease yields valid terminal evidence, at any time, exactly when none of the texts that legacy validation matches whole ends in a newline |
| Binding.CheckScope | src/coordination_loop_harness/leases.py:1099-1127 | A decision scope passes exactly when its entries are unique canonical identities that name every raw claim of the lease, and its digest is the lease's |
| Binding.CheckBinds | src/coordination_loop_harness/leases.py:1130-1159 | A decision binds a lease exactly when it verifies for that action and generation, covers it, and carries the generation as its sequence |
| Binding.CheckReplacement | src/coordination_loop_harness/leases.py:1162-1210 | Passes exactly when the candidate's decision binds it to expansion and directly follows the decision that binds the current record |
| Binding.CheckTerminalRelease | src/coordination_loop_harness/leases.py:1253-1342 | Passes exactly for a terminal record with bound outcome, a release decision for that action only, and a predecessor that binds the rebuilt ACTIVE record |
| Binding.CheckReleaseAuthority | src/coordination_loop_harness/leases.py:1345-1364 | Passes exactly when the claimed authority is the one the instant demands and the terminal evidence holds |
| LockRoot.ObservationAgreesWithScan | src/coordination_loop_harness/leases.py:1914-1958 | For every lock root, time and root choice, an id is observed TERMINAL_RELEASED exactly when the scan keeps only its id, but for one stated exception |
| Scanning.ActiveLeases | src/coordination_loop_harness/leases.py:353-433 | The scan returns every lease file but the excluded one, read as an opaque, terminal or whole record, or refuses for the two stated reasons only |
| Scanning.FindOverlapsIn | src/coordination_loop_harness/leases.py:560-619 | Over a whole lock root the loops admit a candidate exactly when each file by itself lets it pass, the verdict the protocol is built on |
| AdmissionSafety.NextKeepsInv | src/coordination_loop_harness/leases.py:1599-1695 | Every step of every process keeps mutual exclusion, conflict-freedom, legal histories, the archive and what each process relies on |
| Reachability.MutualExclusion | src/coordination_loop_harness/util.py:399-453 | In every reachable state at most one process is inside, and the mutex is the one it created |
| Reachability.NoConflictingActiveLeases | src/coordination_loop_harness/leases.py:1469-1503 | In every reachable state no two ACTIVE records hold conflicting claims, expired or not, and no two ids differ only in case |
| Reachability.PublicationRaisesGenerationByOne | src/coordination_loop_harness/leases.py:1615-1653 | A step publishes nothing, or one record under one id exactly one generation on; no lease file ever disappears |
| Reachability.OnePublicationPerGeneration | src/coordination_loop_harness/leases.py:1726-1760 | Of all replaces and releases of a run that expect one generation of one lease, at most one publishes |
| Reachability.ReleasedIsAbsorbing | src/coordination_loop_harness/leases.py:1728-1734 | A released lease file never changes again |
| Reachability.AcquiredOnce | src/coordination_loop_harness/leases.py:594-599 | No acquisition ever publishes under a case variant of an id already used |
| Reachability.ArchiveHoldsThePast | src/coordination_loop_harness/leases.py:1541-1576 | While an ACTIVE v2 lease is at generation g the archive holds exactly its published records 1 to g-1, and g itself at most as an equal copy |
| Reachability.ReleasedStaysFree | src/coordination_loop_harness/leases.py:106-123 | Every record a run has released is read as terminal by every later scan, whatever the time, exactly when it is v2 or a v1 record without such a newline; otherwise by none |
| Reachability.AbandonedForever | src/coordination_loop_harness/util.py:121-123 | From any state on, whatever the checks are, a record left with two links by a dead process never changes again |
| Reachability.AbandonedCopyForever | src/coordination_loop_harness/leases.py:1506-1538 | From any state on, an archive copy left with two links lets no later replacement of that generation through |
| Progress.AcquisitionCompletes | src/coordination_loop_harness/leases.py:1443-1503 | From every invariant state with nobody inside, each valid, unexpired first candidate that every stored file lets pass can be published whole with the mutex given back |
| Progress.ReleaseInRun | src/coordination_loop_harness/leases.py:1698-1847 | At any moment of any run with nobody inside, a release whose checks pass then can publish its terminal record exactly when the lease file has one link |
| Progress.ReplacementInRun | src/coordination_loop_harness/leases.py:1579-1695 | Likewise a replacement, exactly when the lease file has one link and no interrupted archive copy of the current record exists |
| Progress.AcquisitionCanBeAbandoned | src/coordination_loop_harness/util.py:121-123 | Wherever an acquisition can be published, it can also end with the record linked twice and nobody inside |
| Progress.ReplacementCanBeAbandoned | src/coordination_loop_harness/leases.py:1541-1576 | Wherever a v2 replacement has its record still to archive, it can end with the archive copy linked twice and nobody inside |
| Example.LivesAndIsReleased | src/coordination_loop_harness/leases.py:1443-1847 | In both host dialects a concrete lease is acquired, replaced and released under three chained decisions, and the last scan reads it as terminal |
| Example.LegacyLivesAndIsReleased | src/coordination_loop_harness/leases.py:230-238 | A concrete v1 lease is acquired and released; it is read as terminal exactly when its run id does not end in a newline, and then refused by a scan, yet observed as terminal, under a root that is no repository |
| Example.SpellingDecidesLineage | src/coordination_loop_harness/leases.py:1203-1210 | In a concrete run whose second decision names the first by its own text or by an alias, replacement goes through either way, and both lineage walks accept exactly the first way |
| Example.CanBeAbandoned | src/coordination_loop_harness/util.py:121-123 | A concrete run ends with a record linked twice that a replacement meeting every check can never replace |
| Example.CopyCanBeAbandoned | src/coordination_loop_harness/leases.py:1541-1576 | A concrete run ends with the archive copy of its ACTIVE record linked twice |
| Example.NoDecisionCovers | src/coordination_loop_harness/leases.py:1099-1121 | Two concrete valid v2 leases that no decision scope covers: a suffixed infrastructure identity, and a READ item whose branch reference ends in a newline |
| Lineage.VerifyLineage | src/coordination_loop_harness/windows_custody.py:337-394 | The Windows walk accepts exactly the archives in which every generation is present, valid, bound by its decision and named by the next one |
| Lineage.VerifyCustody | src/coordination_loop_harness/leases.py:2134-2180 | The POSIX walk accepts exactly the same archives, up to native path syntax |
| Lineage.ReachableLineage | src/coordination_loop_harness/leases.py:1684-1694 | For every reachable ACTIVE v2 lease both walks accept exactly when each replacement decision spells its predecessor as that record did |
| Lineage.InjectiveReferencesAccepted | src/coordination_loop_harness/leases.py:2137-2151 | When no two references resolve to one file, every reachable lineage is accepted |
| Lineage.ChainVisitsHistory | src/coordination_loop_harness/leases.py:1162-1210 | The decision chain of generation k visits exactly the decisions of generations k, ..., 1 of the lease |
| ScopeFixpoints.V2AbsoluteFold | src/coordination_loop_harness/util.py:290-307 | The v2 path grammar does not look at case |
| ScopeFixpoints.RepoFold | src/coordination_loop_harness/util.py:265-282 | The v2 repository identity does not look at case |
| ScopeFixpoints.CanonicalEntryIdempotent | src/coordination_loop_harness/leases.py:1213-1250 | Canonicalising an accepted scope entry again changes nothing |
| Coverage.ReservedAreEntries | src/coordination_loop_harness/leases.py:1112-1121 | Every repository, branch and path a valid v2 lease reserves is already a canonical entry, but exactly a branch whose reference ends in a newline |
| Coverage.CoverExistsIff | src/coordination_loop_harness/leases.py:1099-1121 | Some decision scope covers a valid v2 lease exactly when each of its infrastructure identities is a canonical entry and no branch reference ends in a newline |
| Coverage.GitSuffixIsNoEntry | src/coordination_loop_harness/leases.py:1233-1250 | No owner/name with the suffix .git is a canonical entry |
| LocalTime.Validate | src/coordination_loop_harness/local_time.py:45-60 | A sample passes exactly when boot, process, source, 64-bit counters and the 20 ms window are all in order, and a refusal names a true reason |
| LocalTime.Retain | src/coordination_loop_harness/local_time.py:161-197 | An intent is retained exactly for valid arguments and a valid anchor, with a deadline at most 600 s after the anchor, above it and below 2^64 |
| LocalTime.LocalDeadline.Check | src/coordination_loop_harness/local_time.py:222-263 | Accepts exactly the samples admissible after the last one; anything else latches the one reason the order of the tests gives and leaves the last sample alone |
| LocalTime.LocalDeadline.Invalidate | src/coordination_loop_harness/local_time.py:206-213 | The first reason stays, a blank one is replaced |
| LocalTime.LocalDeadline.ConsumeIssuerClaim | src/coordination_loop_harness/local_time.py:215-220 | Only the first caller succeeds |
| LocalTime.RunIsContinuous | src/coordination_loop_harness/local_time.py:222-256 | Whatever is called in whatever order, the accepted samples form a continuous trail that ends in the last one |
| LocalTime.ElapsedBound | src/coordination_loop_harness/local_time.py:247-254 | After n accepted checks at most 5n seconds have passed, and always less than the cap of at most 600 s |
| LocalTime.TrailMonotone | src/coordination_loop_harness/local_time.py:238-239 | Neither interrupt nor unbiased time runs backwards between any two accepted samples |
| LocalTime.DriftBound | src/coordination_loop_harness/local_time.py:242-252 | However many checks were accepted, interrupt minus unbiased time has drifted at most 60 ms from the anchor |
| LocalTime.DriftBoundIsTight | src/coordination_loop_harness/local_time.py:242-252 | An admissible sample reaches the 60 ms |
| LocalTime.HoldIsPermanent | src/coordination_loop_harness/local_time.py:224-225 | The first failure's reason never changes and no later check is accepted |
| LocalTime.AcceptanceNeedsCleanPast | src/coordination_loop_harness/local_time.py:257-263 | An accepted check shows that every earlier check was accepted and nothing was invalidated |
| LocalTime.ClaimConsumedOnce | src/coordination_loop_harness/local_time.py:215-220 | After one attempt every later one finds the claim consumed |
| Frames.Channel.WriteFrame | src/coordination_loop_harness/windows_capability.py:366-381 | Over any partial writes, success puts exactly one whole frame on the stream, failure less than one and closes; it succeeds whenever every operation moves something |
| Frames.Channel.ReadFrame | src/coordination_loop_harness/windows_capability.py:344-364 | What one read returns, takes and closes is a function of stream and transfers; a returned payload is one whole frame and, until a read has taken bytes and returned nothing, the next one sent; a bad length is refused |
| Frames.WholeFrameIsRead | src/coordination_loop_harness/windows_capability.py:344-364 | Whatever part each transfer moves, a whole frame is read, and no more, whenever every transfer moves something |
| Frames.MisreadAfterEmptyTransfer | src/coordination_loop_harness/windows_capability.py:354-357 | A concrete stream and concrete transfers after which the next read returns the inside of a payload |
| Frames.NextFrameIsNextPayload | src/coordination_loop_harness/windows_capability.py:360-369 | Reading whole frames off a written stream yields in order what was written, a torn last frame included |
| FrameSteps.ReceivedIsPrefix | src/coordination_loop_harness/windows_capability.py:344-381 | With transfers of both sides interleaved inside frames in any way, what was handed over is at every moment a prefix of what was written |
| FrameSteps.BoundNeverCloses | src/coordination_loop_harness/windows_capability.py:360-363 | The length bound never closes a pipe that this writer fills, wherever its transfers were cut |
| FrameSteps.DrainedIsComplete | src/coordination_loop_harness/windows_capability.py:344-381 | Between two frames with an empty stream, every payload written has been handed over, whole |
| Numerals.DeadlineTextIsUnique | src/coordination_loop_harness/windows_capability.py:72-78 | Exactly one text is accepted for each 64-bit deadline, and no other text |
| Numerals.HandleTextIsUnique | src/coordination_loop_harness/windows_capability.py:85-91 | The same for native handles, zero and the invalid handle excluded |
| HandoffIssuer.WindowsIssuer.ClaimOnce | src/coordination_loop_harness/windows_issuer.py:137-338 | Whatever frames arrive, every message sent is in order and answers its own request with a fresh deadline check and custody verification; what it reads is a prefix of the frames; the attempt acknowledges all four stages or latches the deadline; a second attempt changes nothing |
| HandoffIssuer.WindowsIssuer.AcceptBinding | src/coordination_loop_harness/windows_issuer.py:216-291 | Heartbeats never advance the exchange, and one bind frame with the retained identities does |
| HandoffIssuer.WindowsIssuer.OneStage | src/coordination_loop_harness/windows_issuer.py:292-334 | Any number of watchdogs, then exactly this stage, all on the accepted binding |
| HandoffClient.OnWireIsInjective | src/coordination_loop_harness/windows_capability.py:81-82 | The wire form identifies a binding completely |
| HandoffClient.RequestSourceHandoff | src/coordination_loop_harness/windows_capability.py:717-826 | A session is opened exactly on the handoff that repeats an admissible request and names both pinned processes, after claim and acknowledgement; a failure before connecting leaves the deadline alone, any later one latches it |
| HandoffClient.HandoffSession.PreSpawnWatchdog | src/coordination_loop_harness/windows_capability.py:578-606 | Works only on the owning thread before binding, moves nothing on, closes on failure, and says at most its one request |
| HandoffClient.HandoffSession.Bind | src/coordination_loop_harness/windows_capability.py:608-663 | Binds once, only the requested identities, only while the deadline holds, and only when acknowledged |
| HandoffClient.HandoffSession.Checkpoint | src/coordination_loop_harness/windows_capability.py:665-714 | Moves on by exactly the next stage, on the bound handles, after its own acknowledgement; every other outcome keeps the stage, latches the deadline and says at most the one request |
| HandoffClient.HandoffSession.Close | src/coordination_loop_harness/windows_capability.py:562-570 | Closing before the last stage latches the deadline; another thread can only latch it |
| Handoff.Lockstep | src/coordination_loop_harness/windows_capability.py:707-710 | In every reachable state of the two parties and their channels, stages acknowledged by the issuer exceed stages counted by the client by zero or one |
| Handoff.ReachedIsJoined | src/coordination_loop_harness/windows_capability.py:344-381 | In every reachable state each party has received a prefix of what the other sent, and both logs are made of legal steps |
| Handoff.CountedWasAcked | src/coordination_loop_harness/windows_issuer.py:309-334 | In every reachable state a stage the client counted was acknowledged on its own session directly after check, custody verification, observation and check |
| Handoff.SessionsAgree | src/coordination_loop_harness/windows_issuer.py:165-208 | The client works in the session the issuer granted, and the issuer takes no other as acknowledged |
| Handoff.BindingsAgree | src/coordination_loop_harness/windows_issuer.py:226-291 | The binding the issuer accepted is the one the client asked for, in every reachable state |
| Handoff.CompleteExchange | src/coordination_loop_harness/windows_issuer.py:137-338 | For every handoff and binding an exchange exists that brings both parties through all four stages |
| HandoffPair.PartiesAgree | src/coordination_loop_harness/windows_issuer.py:137-338 | For the issuer and session objects at the two ends, whatever they have done: same handoff, stages apart by at most one, and every counted stage answered on the session's own binding |
| AtomicWrite.Directory.WriteAtomic | src/coordination_loop_harness/util.py:78-137 | One call, any step failing: written whole, or refused with the target unchanged and no temporary file, or reported as unsettled with exactly that left over; create_new never replaces |
| AtomicWrite.TargetIsWhole | src/coordination_loop_harness/util.py:99-129 | At every moment of any interleaving with crashes, a reader finds the original or the whole payload of the last publication |
| AtomicWrite.CreateNewPublishesOnce | src/coordination_loop_harness/util.py:111-123 | Of any number of create-new writers at most one publishes, and only where nothing was |
| AtomicWrite.CreateNewNeverOverwrites | src/coordination_loop_harness/util.py:118-123 | No step of a create-new writer changes an existing target |
| AtomicWrite.EndedLeaves | src/coordination_loop_harness/util.py:130-137 | Among any number of writers: a call that returned has published, one that did not publish is not what readers see, and the temporary name is left exactly when its removal failed, on the call's own file, whole if published |
| AtomicWrite.StrandedStays | src/coordination_loop_harness/util.py:130-137 | A temporary name left over stays on that file for the rest of the run, whatever the other writers do |
| Bundles.Walk | src/coordination_loop_harness/bundles.py:52-77 | The stack-driven walk ends, returns every durable file below its base exactly once, and fails exactly when a link lies below it |
| Bundles.DurableFiles | src/coordination_loop_harness/bundles.py:45-78 | The same over the six durable directories of a run |
| Bundles.SealBundle | src/coordination_loop_harness/bundles.py:106-134 | A seal is made exactly for a walkable run with at least one durable file, all decodable and not sensitive, and lists every path, digest and Markdown pair once |
| Bundles.VerifyBundle | src/coordination_loop_harness/bundles.py:137-199 | For every document, genuine or not: verified exactly when valid, for this run, over a walkable tree whose paths, digests and Markdown pairs it lists exactly |
| Bundles.VerifiedIffUnchanged | src/coordination_loop_harness/bundles.py:145-199 | After sealing, whatever happened to the tree, verification succeeds exactly when the run is walkable and its path-to-digest map is unchanged |
| Bundles.SealSurvivesItsOwnWriting | src/coordination_loop_harness/bundles.py:132-134 | Writing the seal changes no durable digest and blocks the run exactly when the runs directory is a link |
| Bundles.LinkedRunsSealOnce | src/coordination_loop_harness/bundles.py:132-134 | A concrete run, walkable and sealable with runs a link, verifies before its seal is written and never after |
| Facade.Server.AdmitWriter | src/coordination_loop_harness/mcp_server.py:183-224 | With any step failing and others writing the lock root meanwhile: REFUSED means this call stored nothing, OK that it stored exactly the candidate read, an ACTIVE v2 record under a new id; a standing fence keeps admission from being reached |
| Facade.Server.ReleaseWriter | src/coordination_loop_harness/mcp_server.py:226-262 | The same for release: OK means it stored exactly the terminal candidate over the ACTIVE record of the expected generation, and that record stands |
| Facade.Server.MutationFailure | src/coordination_loop_harness/mcp_server.py:135-139 | Refuses only when the stored document is provably the one observed before, no fence orphaned |
| Facade.FenceHoldsForever | src/coordination_loop_harness/mcp_server.py:54-72 | Once a fence stands unresolved, no later call of any run reaches admission, stores anything or succeeds |
| Facade.RefusalsChangeNothing | src/coordination_loop_harness/mcp_server.py:22-23 | A run of refusals has stored nothing, and left alone it leaves the documents as they were |
| Facade.AnswersAccountForStores | src/coordination_loop_harness/mcp_server.py:22-23 | Over any run, whatever others store meanwhile, this server stored one record for each OK and at most one more for each UNCERTAIN |
| Servers.NextKeepsInv | src/coordination_loop_harness/mcp_server.py:54-105 | Every step of every server, failures and crashes included, keeps one call behind the fence and what it has put down accounted for |
| Servers.OneInside | src/coordination_loop_harness/mcp_server.py:54-72 | Of any number of servers at most one is behind the fence, and while one is the fence stands |
| Servers.AdmissionPossible | src/coordination_loop_harness/mcp_server.py:54-105 | At any moment of any run some server can still reach admission exactly when no interrupted call has left the fence or a staging directory behind |
| Servers.StuckForever | src/coordination_loop_harness/mcp_server.py:54-72 | Once one has, nothing is admitted on any continuation and the obstacle stays |
| Servers.CanBeStuck | src/coordination_loop_harness/mcp_server.py:54-105 | Both happen: a crash leaves the fence before or after an admission |
| GitGuard.CleanupIsExact | src/coordination_loop_harness/leases.py:965-996 | Whatever others do: cleanup takes nothing but its own exactly when no visit passing both checks then meets a link, another file or rewritten content, and takes all of its own exactly when each passes them |
| GitGuard.ForeignIff | src/coordination_loop_harness/leases.py:972-995 | One visit takes what is not its own exactly in those three cases, and the last two mean a change since the first and the second check |
| GitGuard.CalmCleanupIsExact | src/coordination_loop_harness/leases.py:965-996 | Over any number of locks whose entries nobody replaces while they are checked and removed, cleanup takes every one that is still its own, and nothing else exactly when nothing it takes is a link |
| GitGuard.GoneExactly | src/coordination_loop_harness/leases.py:965-996 | A lock is among the removals exactly when its own visit saw the guard's identity and then its marker, and still met an entry at the unlink |
| GitGuard.ForeignFilesAreRemoved | src/coordination_loop_harness/leases.py:972-995 | Foreign entries go in both ways: a link to the renamed lock put there before the check, and another file put there after it |
| GitGuard.Guard.Lock | src/coordination_loop_harness/leases.py:930-960 | Success adds exactly one handle with this path and marker; left alone, the tree is the base plus own directories and own lock files, whole unless torn is recorded |
| GitGuard.Guard.RemoveFile | src/coordination_loop_harness/leases.py:965-996 | One removal is a function of the trees at the check of identity, the check of content and the unlink; a content that is no text ends the cleanup |
| GitGuard.Guard.Cleanup | src/coordination_loop_harness/leases.py:965-1010 | Among any interference every lock is visited, newest first, unless a content is no text; exactly the locks their visits take are removed, and a directory only if the guard made it and it is empty; left alone, the tree is restored exactly when no marker was cut short |
| GitGuard.Guard.Hold | src/coordination_loop_harness/leases.py:920-1010 | The same for the whole guard, with failure at any acquisition or body step and any interference; success held one whole lock for each path |

## Left out

- Native Windows calls, token and ACL inspection, Job objects, the protected-tree inventory and Git or `gh` commands: arbitrary outcomes where a modelled operation depends on them.
- JSON text, JSON Schema and timestamp syntax: documents are values, schema validity is the part of it the modelled checks rely on, timestamps are instants.
- SHA-256 and canonical encoding: injective constructors.
- Path canonicalisation in `Overlap` and `Lifecycle`: arbitrary host functions, so symbolic links and ambient directories are covered but not described; `ScopeFixpoints` and `Coverage` assume a host whose answers are lexical (`Lexical`).
- Non-ASCII case folding and blanks.
- Case variants of the `.lease.json` suffix, directory-entry aliases and the exclusion of an alias of the replaced file: a lease file is an entry under its exact name.
- The order in which findings are listed.
- Relative v1 local scopes: whatever identities the host function gives them.
- Removal of a left-over mutex by an operator is a step that needs nobody inside; what the operator does to find out is not modelled.
- The Git guard and the writer binding inside the admission protocol: steps that may fail, not further states.
- bootstrap.py, runs.py, binding.py, cli.py, audit.py, status.py, blockers.py, harness_model.py, writer_custody.py, windows_acl.py, repository.py and the MCP transport: they would add only members that follow from one branch.
- Frames.Channel.ReadFrame: an operation never moves more than it was given. `FrameSteps` takes a reader that gave up as closed, as both parties do after such a failure.
- Handoff.Lockstep: the channels carry frames as values, whole and in order, which is what `FrameSteps` proves of bytes; bytes that encode no known message are one value.
- HandoffClient.HandoffSession.PreSpawnWatchdog: consults no latched deadline, as in the code; binding and checkpoints do.
- HandoffIssuer.WindowsIssuer.ClaimOnce: promises no completion, because the peer and every native check may fail.
- HandoffClient.RequestSourceHandoff: one text stands for the fields of a target and one for a decision's reference and digest; digits in account identifiers are ASCII.
- Facade.Server.AdmitWriter: does not promise that a fence stands after UNCERTAIN, because the last directory sync can fail after the fence is gone, and because observation alone can be uncertain. Others only raise generations and never touch a RELEASED record, which `Reachability` proves of the protocol; other servers on the same fence are in `Servers`, whose steps carry no documents.
- Bundles.VerifiedIffUnchanged: the map holds durable files only; a file named `bundle-seal.json` anywhere, and any other suffix, is outside it, and the seal itself is taken as unchanged.
- GitGuard.Guard.Hold: a directory is recognised by its path alone, as in the code, so under interference an empty directory that another process made again at the same path may be removed. A parent directory that is itself a link is refused, where the code follows it; asking an open file for its identity does not fail.
