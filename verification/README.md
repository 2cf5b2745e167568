# stcontrol in Dafny

A model of the decision-making core of stcontrol, the controller and node agents
that keep user data of a SillyTavern cluster available, and proofs of what that
core promises. Each Go function that only computes is a function here, each loop
a method with its invariants, each object updated under a lock a class; every
method is proved against a specification function or predicate, and the results
below are about those. Protocols between several parties are state machines whose
runs interleave every step in every order.

`dafny verify dfyconfig.toml` checks the whole project.

| modules | what they model |
|---|---|
| `OwnershipClaim`, `OwnershipProtocol`, `OwnershipInvariant`, `OwnershipTheorems`, `OwnershipParents`, `OwnershipScenario`, `Quorum` | activity-ownership claims: ranks, the local compare-and-set, quorum reads with read repair, user-confirmed takeovers, restarts |
| `PeerWitness`, `ControlMode`, `ControlModeTheorems`, `ControlModeHistory`, `ControlModeFacts` | the disaster control mode of one Agent and the witness quorum that feeds it |
| `ArchivePath`, `ConflictFiles`, `ConflictMerge`, `ConflictMergeTheorems`, `ConflictChoices`, `ConflictAgreement`, `ConflictSlots`, `ConflictOutcome` | replica conflicts: what the Controller shows and accepts, and the tree the Agent builds from it |
| `EvidencePages`, `EvidencePagesTheorems`, `EvidenceExactness`, `DecisionText`, `DecisionPages`, `DecisionRuns` | conflict evidence and decisions travelling in pages, and one conflict from the request to the merged tree |
| `TransferTable`, `TransferRuns`, `TransferHistory`, `ReceiveRuns` | one-use snapshot transfer capabilities with restarts and concurrent receive handlers |
| `ReplicaCleanup`, `CleanupRuns`, `CleanupOutcomes` | tombstone-based deletion of replicas under crashes |
| `SnapshotArchive`, `SnapshotArchiveTheorems`, `SnapshotIntegrity` | the manifest-first archive: taking, packing, extracting, verifying |
| `InventoryScan`, `InventoryExactness`, `RelayParts`, `TargetChoice` | inventory pages, relay parts, choice of backup targets |
| `Text`, `Json`, `Formats`, `Sets`, `Basics` | decimal text, joins, byte order, sorted listings, lengths of JSON text, syntactic checks, finite sets |

## Where the code and its promises differ

Six promises hold only under a condition; the model keeps the code as it is, shows
the failing case and proves the exact condition.

- The comments of `recordControllerSuccess` say a recovered Controller may not skip
  the draining boundary. The code only rewrites a request for `managed`: an accepted
  request for `controller-unreachable` leaves the boundary at once, and the next one
  reaches `managed`; a whole run does so with a session still open and without ever
  draining (`BoundarySkipped`, `BoundarySkippedRun`). One step leaves the
  boundary improperly if and only if it accepts such a request (`BoundaryStep`).
- `finishTransfer(id, "failed")` does not look at the state it overwrites. When a
  restore capability expires under a live receive handler, a second handler can
  publish the same snapshot and the first one then turns it into `failed` with a
  receipt, which the next startup refuses (`BrokenRun`). All tables of a run are valid
  if and only if no handler fails a published transfer (`TablesValidIff`); one live
  handler per snapshot is enough (`OneHandlerSuffices`).
- Decisions the Controller accepts are sent in pages of one hundred whatever their size, but the
  Agent cuts a Controller response at 1 MiB, and the page is in it encrypted and base64-encoded.
  One hundred conflicting files under six directories with names of 240 `<` are accepted, and
  their page never arrives (`AcceptedNeverDelivered`). Decisions reach the Agent and are read back
  if and only if each page's response is within 1 MiB (`SendAndRead`), that is, if its own text
  is within the room left by the wrapping (`ArrivesIff`); decisions of up to 7858 bytes of text
  always are (`ShortDecisionsDelivered`). The Agent's own 1 MiB limit on page files refuses
  nothing that arrived (`ArrivedFits`).
- A cleanup cut off by a crash is to be finished at startup. When the crash comes after the identity
  file was removed, startup refuses the tombstone and the Agent stays down (`StartupRefused`,
  `StaysStuck`). After any run startup gets past the tombstones if and only if each still has its
  identity and, on a storage node, complete metadata (`StartsIff`).
- `normalizeDisasterPolicy` can return an independence threshold below the unreachable one
  (`ThresholdsInverted`); `Normalize` says exactly when it does not.
- The newline-joined text under a claim ID is ambiguous for arbitrary fields
  (`AmbiguousWithoutChecks`) and injective on claims that pass validation
  (`CanonicalInjective`).

## Reading the hypotheses

- Ownership: membership is fixed, an Agent's peers are exactly the other members,
  signed replies are authentic, saves are durable, and the claims made in a run have
  different SHA-256 digests (`NoCollision`).
- Conflicts: `Indexed` says the sources are the listed nodes and each manifest is keyed
  by its own paths, as the loaders build them (`internal/agent/conflict_resolution.go:560-566`,
  `internal/controller/conflict_resolutions.go:264-283`). `Checked` adds what evidence and
  plan validation guarantee: safe paths other than ".", positive node IDs and a UUID.
- Hash functions, JSON decoding, free disk space, clocks, network replies and adapter answers are
  parameters, quantified over in every result. So is the size of the fields of a leased command
  that differ from lease to lease (attempt, generation, two times; `stamps`), bounded by 128
  bytes only where a result says so. Evidence pages are treated for any text length of an entry,
  then for the one Go writes (`EntryLength`).

## Model

| member | source | states |
|---|---|---|
| `Quorum.MajoritiesMeet` | internal/agent/activity_ownership.go:412 | two sets of nodes that each reach the required count share a node |
| `OwnershipClaim.CanonicalInjective` | internal/agent/activity_ownership.go:107-136 | on well-formed claims the hashed text is equal if and only if all hashed fields are |
| `OwnershipClaim.AmbiguousWithoutChecks` | internal/agent/activity_ownership.go:107-113 | without the field checks two different claims have the same hashed text |
| `OwnershipClaim.IdIdentifiesClaim` | internal/agent/activity_ownership.go:115-136 | valid claims with equal IDs are equal, or a SHA-256 collision is at hand |
| `OwnershipClaim.MakeClaim` | internal/agent/activity_ownership.go:87-105 | a claim is made exactly from well-formed fields, carries them and passes its own validation |
| `OwnershipClaim.RankOrder` | internal/agent/activity_ownership.go:143-163 | ranks are totally ordered, by generation first, then epoch, then takeover sequence |
| `OwnershipClaim.Compare` | internal/agent/activity_ownership.go:143-163 | the loop decides the lexicographic rank, and tells equal claims from two claims of one rank |
| `OwnershipClaim.ApplyClaim` | internal/agent/activity_ownership.go:189-215 | accepted if and only if valid and already stored, or of greater rank and, where the parent is required, on top of that very parent; refusing changes nothing, other handles are untouched and the stored rank never falls |
| `OwnershipClaim.OwnershipAgent.Apply` | internal/agent/activity_ownership.go:189-215 | the in-place update has the effect and the answer of `ApplyClaim` |
| `OwnershipClaim.FoldMaximal` | internal/agent/activity_ownership.go:382-400 | for every visiting order the fold ends with a claim of greatest rank, and reports a conflict exactly when two greatest replies have different IDs |
| `OwnershipClaim.UniqueMaximumId` | internal/agent/activity_ownership.go:382-400 | without a conflict the selected ID does not depend on the order |
| `OwnershipClaim.NoUniqueMaximum` | internal/agent/activity_ownership.go:398-400 | with no reply or with a dispute no claim qualifies as the maximum |
| `OwnershipClaim.CountMatching` | internal/agent/activity_ownership.go:405-411 | counts the node itself and the nodes that answered with that ID, each once |
| `OwnershipClaim.OwnershipAgent.FinishQuery` | internal/agent/activity_ownership.go:382-423 | the tail of a quorum read: conflict, read repair, quorum check, with the store it leaves, and the decision from the owner and its reported availability |
| `OwnershipInvariant.AbsorbingKeeps` | internal/agent/activity_ownership.go:189-215 | accepting a claim at a node keeps the protocol invariant and records the acceptance |
| `OwnershipInvariant.GrantKeeps` | internal/agent/activity_ownership.go:165-187 | a Controller grant keeps the invariant |
| `OwnershipInvariant.ObserveKeeps` | internal/agent/activity_ownership.go:245-270 | observing any message ever sent, late or repeated, keeps the invariant |
| `OwnershipInvariant.AnswerKeeps` | internal/agent/activity_ownership.go:224-243 | a reply is at least as new as all its sender held when the read began |
| `OwnershipInvariant.MatchingHeld` | internal/agent/activity_ownership.go:405-411 | the nodes counted by a read all held the claim it returns |
| `OwnershipInvariant.VerdictMajority` | internal/agent/activity_ownership.go:405-415 | with enough of them a majority held it |
| `OwnershipInvariant.VerdictFresh` | internal/agent/activity_ownership.go:338-423 | a successful read returns a claim at least as great as any claim, granted, taken over or committed, that a majority held when it began |
| `OwnershipInvariant.ConcludeKeeps` | internal/agent/activity_ownership.go:382-423 | concluding a read, with its local adoption, keeps the invariant |
| `OwnershipInvariant.MakeDraftKeeps` | internal/agent/activity_ownership.go:604-619 | a takeover is drafted only from a claim that a majority held |
| `OwnershipInvariant.SwapDraftKeeps` | internal/agent/activity_ownership.go:620-623 | the local compare-and-set keeps the invariant |
| `OwnershipInvariant.CommitKeeps` | internal/agent/activity_ownership.go:649-673 | a takeover is answered as committed only when a majority accepted it |
| `OwnershipInvariant.StepKeeps` | internal/agent/activity_ownership.go:165-673 | every step of every Agent keeps the invariant |
| `OwnershipInvariant.RunKeeps` | internal/agent/activity_ownership.go:165-673 | the invariant holds in every state of every run |
| `OwnershipTheorems.RunGrows` | internal/agent/activity_ownership.go:189-215 | acceptances, claims and commits of a run are never forgotten, and a read started later comes after all earlier acceptances |
| `OwnershipTheorems.Agreement` | internal/agent/activity_ownership.go:143-215 | over a whole run at most one claim per handle and rank is ever held by a strict majority |
| `OwnershipTheorems.OneTakeoverPerParent` | internal/agent/activity_ownership.go:587-673 | two takeovers of one parent never both answer takeover_committed |
| `OwnershipTheorems.DescendsFromMajority` | internal/agent/activity_ownership.go:587-639 | a claim of higher sequence leads back by parent links through majority-held claims |
| `OwnershipTheorems.SingleLineage` | internal/agent/activity_ownership.go:587-639 | every later takeover held by any node descends from a claim a majority ever held; takeovers never fork |
| `OwnershipTheorems.CommittedChain` | internal/agent/activity_ownership.go:649-673 | the committed takeovers of one handle, generation and epoch form a chain |
| `OwnershipTheorems.NoStaleResolve` | internal/agent/activity_ownership.go:338-423 | a read never returns a claim of lower rank than one a majority held before it started |
| `OwnershipTheorems.NoStaleResolveAfterCommit` | internal/agent/activity_ownership.go:649-673 | in particular not after a takeover was answered as committed |
| `OwnershipTheorems.CommittedByMajority` | internal/agent/activity_ownership.go:649-673 | a committed takeover and its parent were both held by a majority |
| `OwnershipTheorems.QueryOutcomeIsStep` | internal/agent/activity_ownership.go:382-423 | what the method that ends a read does is one step of the protocol |
| `OwnershipParents.AcceptsIff` | internal/agent/activity_ownership.go:189-215 | where the parent is required, a takeover new to a node is accepted if and only if the node stores its parent |
| `OwnershipParents.ObservedIff` | internal/agent/activity_ownership.go:245-270 | an observed takeover is accepted and acknowledged exactly by the nodes that store its parent |
| `OwnershipParents.SwappedIff` | internal/agent/activity_ownership.go:620-623 | the taking node itself accepts its draft exactly if it still stores the parent |
| `OwnershipParents.OnlyAfterParent` | internal/agent/activity_ownership.go:189-215 | in every run a node that comes to hold a takeover stored its parent just before, or adopted it as the greatest claim of its own read |
| `OwnershipParents.AcknowledgedAfterParent` | internal/agent/activity_ownership.go:471-506 | every acknowledgement counted towards a commit comes from a node that stored the parent, or the takeover itself |
| `OwnershipParents.TakeoverChangesOwner` | internal/agent/activity_ownership.go:416-422 | in every run a takeover moves the user to another node than the owner of its parent |
| `OwnershipScenario.TakeoverCommits` | internal/agent/activity_ownership.go:587-673 | on three Agents a run grants, reads, takes over and commits, for any valid grant and takeover of it |
| `PeerWitness.QuorumConfirmsLoss` | internal/agent/peer_witness.go:242-258 | true exactly when all peers were heard, no valid one saw the Controller and enough different ones saw it down |
| `PeerWitness.ConfirmedByMajority` | internal/agent/peer_witness.go:242-258 | loss is confirmed if and only if all peers were heard, none saw the Controller and the confirming ones with the asking node are a strict majority of all Agents |
| `ControlMode.Normalize` | internal/agent/control_mode.go:37-53 | good thresholds are kept; independence comes after unreachability exactly when the policy says so or the other threshold is below the default of 900 seconds |
| `ControlMode.ThresholdsInverted` | internal/agent/control_mode.go:42-44 | a policy whose thresholds come out in the wrong order |
| `ControlMode.ControlPlane.JudgeLoss` | internal/agent/control_mode.go:166-196 | the verdict on the counters and clocks of a failure |
| `ControlMode.ControlPlane.RecordFailure` | internal/agent/control_mode.go:144-205 | the in-place update equals the failure step, with the witnesses asked only after a failed probe |
| `ControlMode.ControlPlane.RecordSuccess` | internal/agent/control_mode.go:207-276 | accepts exactly the responses the fences let through, and the whole new state of either outcome |
| `ControlMode.ControlPlane.SyncAdapter` | internal/agent/control_mode.go:278-317 | an adapter report counts only for the mode and generation it was made for |
| `ControlMode.ControlPlane.RecordSessions` | internal/agent/tavern.go:132-146 | counts the open independent sessions and replaces both facts in any mode |
| `ControlMode.ControlPlane.Reload` | internal/agent/runtime_state.go:235-252 | a restart moves an unwitnessed independent mode to draining |
| `ControlModeTheorems.CounterOrder` | internal/agent/control_mode.go:144-165 | peer failures <= health failures <= heartbeat failures, and the confirmed clock runs exactly while peers confirm |
| `ControlModeTheorems.WindowExists` | internal/agent/control_mode.go:144-165 | the counters describe a window of events that happened |
| `ControlModeTheorems.EvidenceHistory` | internal/agent/control_mode.go:144-205 | a step into independent ends an unbroken window of enough confirmed failures, long enough, with no accepted success in it |
| `ControlModeTheorems.EvidenceByMajority` | internal/agent/heartbeat.go:134-139 | in each failure of that window the probe failed, no valid witness saw the Controller and a strict majority saw it down |
| `ControlModeTheorems.WindowCounted` | internal/agent/control_mode.go:144-165 | the counters miss no such window when the clock does not go back |
| `ControlModeTheorems.EvidenceSuffices` | internal/agent/control_mode.go:186-196 | with such a clock the evidence is also sufficient |
| `ControlModeTheorems.GenerationStep` | internal/agent/control_mode.go:197-202 | one event raises the generation exactly when it changes the mode |
| `ControlModeTheorems.GenerationIdentifiesMode` | internal/agent/control_mode.go:230-266 | two states of one run with equal generation have equal mode, across restarts and refused responses |
| `ControlModeTheorems.BoundaryStep` | internal/agent/control_mode.go:233-245 | one step leaves the draining boundary improperly if and only if it accepts a request for controller-unreachable; failures never leave draining |
| `ControlModeTheorems.BoundarySkipped` | internal/agent/control_mode.go:233-245 | from every independent state two accepted responses reach managed, with the session counts as they were |
| `ControlModeTheorems.BoundarySkippedRun` | internal/agent/control_mode.go:233-245 | a run from a fresh Agent that ends managed with an open independent session and never drains |
| `ControlModeTheorems.DrainingBoundary` | internal/agent/control_mode.go:178-274 | without such requests every path from independent to managed ends with a step from draining with no session and no pending sync |
| `ControlModeHistory.OutageClock` | internal/agent/control_mode.go:162-168 | the outage clock shows the first failure since the last accepted response |
| `ControlModeHistory.FailureOutcome` | internal/agent/control_mode.go:144-205 | said from the events: draining stays; independent stays exactly if this very failure is confirmed, else drains; managed that does not become independent becomes unreachable exactly when the outage has lasted long enough |
| `ControlModeHistory.IndependentWitnessed` | internal/agent/control_mode.go:174-181 | a node is independent after a failure only if that failure was confirmed by probe and witnesses |
| `ControlModeHistory.ResponseOutcome` | internal/agent/control_mode.go:207-276 | a response moves the node if and only if it is sound, names another mode the node may go to and carries a newer mode generation, which is taken over; a refused one changes nothing but the fence |
| `ControlModeHistory.AcceptedNotBehind` | internal/agent/control_mode.go:207-210 | in every run no response is accepted from a Controller generation below one configured or seen before |
| `ControlModeHistory.LastAccepted` | internal/agent/control_mode.go:255-261 | the node remembers the time and generation of the last accepted response, whatever came after it |
| `ControlModeHistory.ChangeStamped` | internal/agent/control_mode.go:197-202 | a change of mode is stamped with its time and voids the adapter's confirmation; nothing else moves the stamp |
| `ControlModeHistory.AdapterAgreesIff` | internal/agent/control_mode.go:278-317 | in every run the mode recorded for the adapter is always the node's if and only if no storage node records a mode that is no longer its own |
| `ControlModeHistory.SequentialAgrees` | internal/agent/heartbeat.go:44-160 | since one loop reads, records and counts heartbeats in turn, the two modes always agree, on storage nodes too |
| `ControlModeHistory.FailureReason` | internal/agent/control_mode.go:174-195 | the reason recorded names the move the failure made |
| `ControlModeFacts.RestartOutcome` | internal/agent/runtime_state.go:235-252 | over every run a restart keeps a node independent exactly if the last thing it heard of the Controller is a witnessed failure, else drains it, and changes no other mode |
| `ControlModeFacts.WitnessedIff` | internal/agent/control_mode.go:154-162 | the counter of witnessed failures is positive exactly if the last failure or accepted response was a witnessed failure |
| `ControlModeFacts.OpenCounted` | internal/agent/tavern.go:132-146 | the telemetry loop counts the open independent sessions |
| `ControlModeFacts.FactsAre` | internal/agent/control_mode.go:299-317 | sessions and pending syncs on record are those of the last telemetry or of the last sound adapter answer about the mode and generation the node was in |
| `ControlModeFacts.FactsOrigin` | internal/agent/control_mode.go:299-317 | facts other than zero go back to such a report |
| `ControlModeFacts.ManagedAfterClearReport` | internal/agent/control_mode.go:239-242 | a node leaves draining for managed only if the last report that counted showed no session and no pending sync |
| `ControlModeFacts.ReasonStep` | internal/agent/control_mode.go:262-274 | each kind of move leaves its own reason, and nothing else touches the reason |
| `ControlModeFacts.IndependentSinceHistory` | internal/agent/control_mode.go:186-196 | the record of being independent is that of the first failure, since the node was last managed, at the end of an unbroken, witnessed outage of the required length |
| `ControlModeFacts.RecordStays` | internal/agent/control_mode.go:192-194 | the record stays the same until the node is managed again, however many confirmed failures follow |
| `ArchivePath.FindPreservedPath` | internal/agent/conflict_resolution.go:662-682 | the search returns the first free candidate, or the error the code gives |
| `ArchivePath.CandidateSafe` | internal/agent/conflict_resolution.go:662-682 | every candidate for a safe original is safe, so the search can only run out |
| `ArchivePath.CleanJoin` | internal/agent/snapshot.go:1637-1645 | a clean path under a clean directory is clean |
| `ArchivePath.CleanSuffix` | internal/agent/snapshot.go:1637-1645 | a clean path stays clean when its last name is lengthened |
| `ConflictFiles.VersionInjective` | internal/agent/conflict_resolution.go:602 | equal version strings mean equal digest and size, for any digest text |
| `ConflictFiles.CollectPaths` | internal/agent/conflict_resolution.go:575-584 | gathers the paths of all sources, or finds one missing |
| `ConflictFiles.CollectVersions` | internal/agent/conflict_resolution.go:597-604 | gathers the versions and the holders of a path |
| `ConflictMerge.ChooseSource` | internal/agent/conflict_resolution.go:605-627 | picks the source, or the refusal, the branches give |
| `ConflictMerge.PreserveVersions` | internal/agent/conflict_resolution.go:638-656 | the inner loop equals the recursive specification |
| `ConflictMerge.BuildSelection` | internal/agent/conflict_resolution.go:570-660 | for every map iteration order the result is the one merge of the sorted paths |
| `ConflictMergeTheorems.PreserveKeeps` | internal/agent/conflict_resolution.go:638-656 | preserving a path emits every version once, at fresh paths |
| `ConflictMergeTheorems.MergedStep` | internal/agent/conflict_resolution.go:596-657 | one turn of the path loop keeps all conservation invariants |
| `ConflictMergeTheorems.SortByPathKeeps` | internal/agent/conflict_resolution.go:658 | sorting keeps the files and orders their paths strictly |
| `ConflictMergeTheorems.SortUnique` | internal/agent/conflict_resolution.go:658 | any sorted arrangement of the same files is the same, so an unstable sort makes no difference |
| `ConflictMergeTheorems.Conservation` | internal/agent/conflict_resolution.go:570-660 | output paths distinct; each path of the union at itself with the chosen entry; each output a source entry with only its path changed; one file per distinct content where all are preserved, else one; used decisions counted |
| `ConflictChoices.IndexChoices` | internal/controller/conflict_resolutions.go:299-311 | accepts exactly well-formed choices without a repeated path |
| `ConflictChoices.CheckPaths` | internal/controller/conflict_resolutions.go:318-341 | for every visiting order, true exactly when every path is decided properly |
| `ConflictChoices.Validate` | internal/controller/conflict_resolutions.go:285-353 | accepts exactly the valid choices and returns the same decisions sorted by path |
| `ConflictChoices.BuildDifferences` | internal/controller/conflicts.go:219-268 | the list shown, independent of map order, and its two counts |
| `ConflictChoices.DifferentMeansSeveral` | internal/controller/conflicts.go:235-265 | a path is listed as different exactly when it has several contents, as partial exactly when it has one and some source lacks it |
| `ConflictAgreement.DecidableIffShown` | internal/controller/conflict_resolutions.go:318-341 | one more choice is accepted exactly when its path is listed as different and the chosen source holds it |
| `ConflictAgreement.SearchFailsIff` | internal/agent/conflict_resolution.go:662-682 | for a safe original the search fails exactly when all 1000 candidates are taken |
| `ConflictAgreement.ValidatorImpliesBuilder` | internal/agent/conflict_resolution.go:390-393 | choices the Controller accepts build with every decision used, unless the suffix search is exhausted |
| `ConflictSlots.BaseInjective` | internal/agent/conflict_resolution.go:666 | different sources and paths are preserved at different places |
| `ConflictSlots.NoSlotIff` | internal/agent/conflict_resolution.go:662-682 | a version has no place exactly when its plain candidate is taken and the sources hold all 999 numbered ones |
| `ConflictSlots.SearchFindsSlot` | internal/agent/conflict_resolution.go:662-682 | at its turn in the merge the search finds the place computed from the manifests alone |
| `ConflictSlots.BuildsIffSlots` | internal/agent/conflict_resolution.go:570-682 | accepted choices build if and only if every version to be preserved has a place, and otherwise the search ran out |
| `ConflictSlots.ValidatorImpliesSuccess` | internal/agent/conflict_resolution.go:570-682 | if no source already has files under this conflict's preserved directory, accepted choices always build |
| `ConflictOutcome.DiffersIff` | internal/agent/conflict_resolution.go:597-605 | several version strings mean two sources with different contents |
| `ConflictOutcome.ChosenWins` | internal/agent/conflict_resolution.go:605-627 | the source the branches pick is the user's choice where contents differ, else the base, else the first listed holder |
| `ConflictOutcome.ChoosesIff` | internal/agent/conflict_resolution.go:605-627 | a source is picked exactly where the path is decided: a known decision for a holder, or the base, and no decision where all agree |
| `ConflictOutcome.MergePublishes` | internal/agent/conflict_resolution.go:570-682 | said from manifests, decisions and default alone: the winner's own entry at every path, each other content once where it was to be kept, at the first free place under the first source that brings it, and nothing else |
| `ConflictOutcome.PublishesIff` | internal/agent/conflict_resolution.go:390-393 | a merge that uses every decision comes out if and only if every path is decided, no decision is about another path and every content to be kept has a place |
| `EvidencePages.ReadPage` | internal/agent/conflict_evidence.go:465-488 | the page loop takes the run up to `FitEnd`, by `FitLongest` the longest that fits, and fails as the code does |
| `EvidencePagesTheorems.FitLongest` | internal/agent/conflict_evidence.go:465-482 | a run of entries fits the budget if and only if it ends no later than the page |
| `EvidencePages.ValidateEntries` | internal/controller/conflict_evidence.go:208-235 | accepts exactly ascending, well-formed entries within the totals |
| `EvidencePages.FetchEvidence` | internal/controller/conflict_evidence.go:117-178 | the cursor loop ends for any replies, because the cursor strictly increases, with the specified capture |
| `EvidencePages.LoadEntries` | internal/controller/conflicts.go:169-217 | accepts exactly linked pages of a valid manifest and returns their concatenation |
| `EvidencePagesTheorems.StoredPagesReload` | internal/controller/conflicts.go:169-217 | for any replies, a fetch that ends well stored pages that reload to the same entries |
| `EvidencePagesTheorems.EvidenceRoundTrip` | internal/controller/conflict_evidence.go:117-178 | fetched from the Agent, the entries are exactly its file list, and so are the reloaded ones |
| `EvidencePagesTheorems.OverheadCovers` | internal/agent/conflict_evidence.go:468 | the 256 bytes set aside cover all of a page's JSON text but its entries |
| `EvidencePagesTheorems.AgentAnswers` | internal/agent/conflict_evidence.go:465-488 | a page request succeeds exactly when the next entry fits a page by itself |
| `EvidencePagesTheorems.PrefixesAccepted` | internal/controller/conflict_evidence.go:145-148 | the check after each page refuses no prefix of an acceptable manifest |
| `EvidencePagesTheorems.FetchedIffEntriesFit` | internal/controller/conflict_evidence.go:117-178 | for any page size and text length, an acceptable manifest is fetched if and only if each entry fits a page by itself |
| `EvidencePagesTheorems.EntryFrame` | internal/protocol/protocol.go:685-689 | the fixed part of an entry's JSON text |
| `EvidencePagesTheorems.EntryFits` | internal/controller/conflict_evidence.go:23 | every acceptable entry, with its path escaped, fits a page of 384 KiB |
| `EvidencePagesTheorems.AcceptableFetched` | internal/controller/conflict_evidence.go:117-178 | with the page size the Controller asks for, an acceptable manifest is always fetched, exactly as it is, and reloads |
| `EvidenceExactness.PathRules` | internal/controller/conflict_evidence.go:208-235 | the Controller's path rule is the Agent's archive rule with a length bound, without its ban on colons, NUL and the replica identity file |
| `EvidenceExactness.EntriesAcceptedIff` | internal/controller/conflict_evidence.go:208-235 | the running checks accept exactly at most 100000 good entries, strictly ascending by path, of at most a tebibyte and no more than announced |
| `EvidenceExactness.LoadableIffFetched` | internal/controller/conflicts.go:169-217 | stored pages load if and only if a fetch from an Agent answering with just these pages would end with them |
| `EvidenceExactness.FetchedAsAnnounced` | internal/controller/conflict_evidence.go:117-178 | a capture has exactly the count, total and digest of its receipt |
| `DecisionText.RequestFrames` | internal/protocol/protocol.go:770-780 | the fixed parts of the JSON text of a decision and of a page command |
| `DecisionText.ResponseFrame` | internal/protocol/protocol.go:293-303 | the fixed part of the JSON text of a leased command |
| `DecisionText.ArrivesIff` | internal/controller/commands.go:243-277 | encrypted, encoded and wrapped, a page is within the Agent's 1 MiB if and only if its own text is within the room computed for it |
| `DecisionText.ArrivedFits` | internal/agent/heartbeat.go:310 | a page that arrives can be read back from its file |
| `DecisionText.ShortArrives` | internal/agent/heartbeat.go:310 | up to one hundred decisions of at most 7858 bytes of text arrive |
| `DecisionText.LongNeverArrives` | internal/agent/heartbeat.go:310 | one hundred decisions of at least 7860 bytes of text never arrive |
| `DecisionPages.PreparePlan` | internal/agent/conflict_resolution.go:264-290 | accepts exactly plans within the page and source limits, with distinct positive sources that include the base |
| `DecisionPages.PlanAcceptedIff` | internal/controller/conflict_resolutions.go:55 | the 1000-page limit of the plan is the 100000-decision limit of the request |
| `DecisionPages.PlanDirectory.Apply` | internal/agent/conflict_resolution.go:318-352 | writes exactly valid pages, and never changes a page once written |
| `DecisionPages.SendPages` | internal/controller/conflict_resolutions.go:484-500 | every page of one hundred that arrives is accepted, also after an earlier attempt stopped half way; all are sent exactly when each response, counted from the page's own text, is within 1 MiB |
| `DecisionPages.ReadDecisions` | internal/agent/conflict_resolution.go:684-712 | accepts exactly complete, valid, repetition-free pages within 1 MiB and of the announced count |
| `DecisionPages.DecisionRoundTrip` | internal/agent/conflict_resolution.go:684-712 | pages that all arrived join to the original decisions and are read back |
| `DecisionPages.SendAndRead` | internal/controller/conflict_resolutions.go:484-511 | the Agent reads back exactly the decisions sent, if and only if the response of every page is within 1 MiB |
| `DecisionPages.AppliedReadableIff` | internal/agent/conflict_resolution.go:684-712 | pages each accepted when written are read back if and only if none is missing, no path is decided in two of them and their number is the plan's |
| `DecisionPages.ReadNamesSource` | internal/agent/conflict_resolution.go:326-337 | a decision read back names a source of the plan, a safe path and a known action |
| `DecisionPages.ShortDecisionsDelivered` | internal/controller/conflict_resolutions.go:484-500 | decisions of at most 7858 bytes of text are always delivered |
| `DecisionPages.AcceptedSendable` | internal/agent/conflict_resolution.go:326-337 | decisions the Controller accepted pass the Agent's page checks, and its plan checks exactly within the request's limit |
| `DecisionRuns.Build` | internal/agent/conflict_resolution.go:390-393 | decisions read back build the merge of the sources exactly when every version to be preserved has a place, and all are used |
| `DecisionRuns.Publish` | internal/controller/conflict_resolutions.go:464-511 | accepted choices are planned, sent, read back and built exactly when the sources are within the plan's limits, every page arrives and every version has a place |
| `DecisionRuns.Resolve` | internal/controller/conflict_resolutions.go:49-95 | from the request to the tree: declined exactly when not acceptable, built exactly when it also arrives and fits, and then from the very choices that were validated |
| `DecisionRuns.LongRequestUndelivered` | internal/agent/heartbeat.go:310 | for six to sixteen nested names of 240 escaped characters, no lease of the first page arrives |
| `DecisionRuns.AcceptedNeverDelivered` | internal/controller/conflict_resolutions.go:49-95 | evidence and choices that pass every check, and whose first page never arrives |
| `TransferTable.Agent.PrepareTransfer` | internal/agent/runtime_state.go:392-424 | the four replacement rules, as one verdict and one new table |
| `TransferTable.Agent.PrepareRelayTransfer` | internal/agent/runtime_state.go:367-390 | an idempotent relay prepare hands out the key of the prepared entry |
| `TransferTable.Agent.StartRelay` | internal/agent/runtime_state.go:433-457 | fails a transfer left consumed, else returns a prepared one |
| `TransferTable.Agent.ConsumeTransfer` | internal/agent/runtime_state.go:459-481 | consumes exactly a prepared, unexpired entry whose capability the token opens |
| `TransferTable.Agent.FailTransfer` | internal/agent/runtime_state.go:483-494 | fails a known entry whatever its state |
| `TransferTable.Agent.FailTransferIfIncomplete` | internal/agent/runtime_state.go:496-507 | fails only a prepared or consumed entry |
| `TransferTable.Agent.PublishTransfer` | internal/agent/runtime_state.go:509-521 | publishes only a consumed entry, with its receipt |
| `TransferTable.Agent.LoadTransfers` | internal/agent/runtime_state.go:136-167 | startup accepts exactly valid tables and re-arms or fails each consumed entry |
| `TransferRuns.EntryChanges` | internal/agent/runtime_state.go:361-521 | the only ways one event can change one entry |
| `TransferRuns.ScopeFixed` | internal/agent/runtime_state.go:426-431 | over every run with restarts a snapshot ID keeps its scope |
| `TransferRuns.ArmingBetween` | internal/agent/runtime_state.go:392-424 | an entry becomes prepared only by an effective prepare or a restart re-arm |
| `TransferRuns.ConsumedOncePerArming` | internal/agent/runtime_state.go:459-481 | between two consumes of one snapshot lies an arming |
| `TransferRuns.ConsumedAfterArming` | internal/agent/runtime_state.go:459-481 | the first consume has an arming before it |
| `TransferRuns.ValidStepIff` | internal/agent/runtime_state.go:483-494 | one event keeps the table valid if and only if it does not fail a published transfer |
| `TransferRuns.TablesValidIff` | internal/agent/runtime_state.go:86-105 | every table of a run passes validation if and only if no handler of the run fails a published transfer |
| `TransferRuns.PublishedIsFinal` | internal/agent/runtime_state.go:509-521 | under that condition a published transfer keeps its receipt for ever |
| `TransferRuns.OneHandlerSuffices` | internal/agent/snapshot.go:1220-1292 | the condition holds while no two handlers work on one snapshot |
| `TransferRuns.BrokenRun` | internal/agent/snapshot.go:1224-1291 | a run with two handlers whose last table fails validation |
| `TransferHistory.PreparedFrom` | internal/agent/runtime_state.go:392-424 | in every run an entry has the scope, capability and expiry of the command that last prepared it, also after restarts |
| `TransferHistory.ConsumedIff` | internal/agent/runtime_state.go:459-481 | a capability is consumed if and only if it is prepared and the receiver presents, in time, the workflow and a token that opens the capability of that command |
| `TransferHistory.ConsumedWithToken` | internal/agent/runtime_state.go:459-481 | so every consume of a run had that token |
| `TransferHistory.RestartOutcome` | internal/agent/runtime_state.go:136-167 | a restart re-arms what was consumed and has not expired, fails what has, and leaves the rest |
| `TransferHistory.PrepareIff` | internal/agent/runtime_state.go:392-424 | a prepare command takes effect exactly where the phase in place allows it, and is answered without effect exactly when it repeats it |
| `TransferHistory.PublishedIff` | internal/agent/runtime_state.go:509-521 | a live handler publishes if and only if its transfer is still consumed |
| `ReceiveRuns.LiveWorks` | internal/agent/snapshot.go:1220-1230 | a live handler began with a consume of its snapshot and has not ended since |
| `ReceiveRuns.ReceiptStandsFor` | internal/agent/snapshot.go:1220-1292 | in every run, with restarts and any number of handlers, a receipt in the table is that of an archive accepted for the scope of its own entry |
| `TransferHistory.RelayRepeated` | internal/agent/runtime_state.go:367-390 | a repeated relay prepare keeps the keys first handed out; one for another task gets its own |
| `TransferHistory.RelayFailsIff` | internal/agent/runtime_state.go:433-457 | starting a relay download fails exactly the transfer of that workflow and task that was left consumed |
| `TransferHistory.FailedUnlessPublished` | internal/agent/runtime_state.go:496-507 | after failing an incomplete transfer it is failed, or published exactly if it was |
| `ReplicaCleanup.CheckAllowed` | internal/agent/replica_cleanup.go:181-197 | the guard: managed mode and, for a hot standby, no live lease and no local claim |
| `ReplicaCleanup.ReplicaRoot.DeleteReplica` | internal/agent/replica_cleanup.go:83-176 | outcome and names of an uninterrupted command |
| `ReplicaCleanup.ReplicaRoot.RecoverTombstones` | internal/agent/replica_cleanup.go:222-277 | removes all tombstones if all are valid, else touches none |
| `CleanupRuns.TargetsFree` | internal/agent/replica_cleanup.go:83-151 | the rename never overwrites another tombstone |
| `CleanupRuns.TreesConserved` | internal/agent/snapshot_publish_linux.go:76-118 | a tree disappears only when its tombstone is removed in full or a publication takes its name |
| `CleanupRuns.TombstoneOrigin` | internal/agent/replica_cleanup.go:125-160 | every tombstone, even half removed, comes from the authorised rename of its own cleanup |
| `CleanupRuns.DestroyedOnlyIfAuthorised` | internal/agent/replica_cleanup.go:22-176 | over all interleavings and crashes, cleanup destroys any part of a tree only if that tree matched that cleanup's own request, whose guard held at the rename |
| `CleanupRuns.TagsUnique` | internal/agent/snapshot_publish_linux.go:76-118 | no two places ever hold the same tree |
| `CleanupRuns.ReplacementSurvives` | internal/agent/replica_cleanup.go:85-124 | a tree stays at its public name, whole, through all commands it does not match, crashes and recoveries |
| `CleanupRuns.OtherSnapshotSurvives` | internal/agent/replica_cleanup.go:85-124 | the replica of another snapshot, or one that cannot be identified, survives all retries |
| `CleanupRuns.CommandIsRun` | internal/agent/replica_cleanup.go:22-176 | the uninterrupted command is one of the interleavings |
| `CleanupOutcomes.MatchesIff` | internal/agent/replica_cleanup.go:302-323 | a tree matches exactly if its identity names the request's snapshot, user, handle and kind and this node |
| `CleanupOutcomes.AllowedIff` | internal/agent/replica_cleanup.go:181-197 | the guard holds exactly if the node is managed and, for a hot standby, every lease of the handle has ended and the node does not own it |
| `CleanupOutcomes.OutcomeIff` | internal/agent/replica_cleanup.go:83-176 | when a command answers Deleted, AlreadyAbsent or Superseded, from the tree it is about; Deleted frees exactly that name, every other answer none |
| `CleanupOutcomes.RetryIff` | internal/agent/replica_cleanup.go:83-124 | a repeated command finds nothing left, unless the name was published again before the tombstone was gone; it deletes that tree exactly if it is again the named replica, not in use |
| `CleanupOutcomes.DestroyedReplica` | internal/agent/replica_cleanup.go:22-176 | over all interleavings and crashes, whatever cleanup destroys had named itself the replica of a well-formed request and was renamed away for it while nobody could be writing to it |
| `CleanupOutcomes.StartsIff` | internal/agent/replica_cleanup.go:222-300 | after any run startup accepts the tombstones exactly if each still has its identity and, on a storage node, complete metadata |
| `CleanupOutcomes.StartupRefused` | internal/agent/replica_cleanup.go:350-363 | for any valid request whose guard holds, a run whose crash cuts off the removal after the identity file leaves a tombstone startup refuses |
| `CleanupOutcomes.StaysStuck` | internal/agent/runtime_state.go:118 | an Agent that is down behind such a tombstone does not start by itself |
| `SnapshotArchive.ReadManifest` | internal/agent/snapshot.go:1358-1374 | accepts exactly in-limit manifests without repeated paths; the 64-bit sum never overflows |
| `SnapshotArchive.ReadFiles` | internal/agent/snapshot.go:1388-1427 | counting the entries seen decides whether exactly the listed files are there |
| `SnapshotArchive.Extract` | internal/agent/snapshot.go:1318-1436 | accepts exactly acceptable archives; the staged tree is the manifest, with the declared total |
| `SnapshotArchive.VerifyReplica` | internal/agent/snapshot.go:456-524 | accepts exactly trees that are the manifest beside the metadata file, and returns its total |
| `SnapshotArchiveTheorems.CaptureTree` | internal/agent/snapshot.go:691-775 | captures exactly in-limit trees, as the sorted list of their files without the identity file |
| `SnapshotIntegrity.CapturedIff` | internal/agent/snapshot.go:691-775 | a tree is captured exactly if it has at most 100000 files, each with a safe path and of at most 10 GiB, and at most 100 GiB in all |
| `SnapshotArchiveTheorems.CreateArchive` | internal/agent/snapshot.go:777-834 | packs the manifest first and then the listed files, or fails when one changed |
| `SnapshotArchiveTheorems.CapturedAccepted` | internal/agent/snapshot.go:1358-1374 | a captured list passes the receiver's manifest checks |
| `SnapshotArchiveTheorems.RoundTrip` | internal/agent/snapshot.go:777-834 | a captured tree is packed, accepted and staged exactly as it was |
| `SnapshotArchiveTheorems.CapturedRoundTrip` | internal/agent/snapshot.go:691-834 | what was captured of a live tree is packed, accepted and staged as that tree without the identity file |
| `SnapshotArchiveTheorems.PublishedVerifies` | internal/agent/snapshot.go:456-524 | whatever was extracted and published passes the deep verification |
| `SnapshotArchiveTheorems.ExtractedVerifies` | internal/agent/snapshot.go:1318-1454 | an archive that extracts is, once published, accepted by deep verification with exactly the receipt's count and total |
| `SnapshotArchiveTheorems.DeepImpliesLight` | internal/agent/snapshot.go:448-454 | what passes the deep verification passes the light one |
| `SnapshotIntegrity.SameDigestIff` | internal/agent/snapshot.go:1551-1556 | valid digests are the same exactly if they stand for the same bytes |
| `SnapshotIntegrity.ManifestAcceptedIff` | internal/agent/snapshot.go:1358-1374 | the loop's checks accept exactly at most 100000 good entries with different paths and at most 100 GiB |
| `SnapshotIntegrity.AffordableIff` | internal/agent/snapshot.go:1375-1386 | the expansion and free-space limits without division |
| `SnapshotIntegrity.AcceptedForTransfer` | internal/agent/snapshot.go:1318-1384 | an accepted archive begins with a manifest made for this very transfer, expands at most two hundred times beyond a gibibyte and leaves a gibibyte and a tenth free |
| `SnapshotIntegrity.ExtractedIsTree` | internal/agent/snapshot.go:1318-1436 | however an archive was tampered with, if it is accepted against a manifest taken from a tree it stages that tree, or two contents share a digest |
| `SnapshotIntegrity.VerifiedIsTree` | internal/agent/snapshot.go:456-524 | a replica that passes the deep verification is that tree beside its metadata file |
| `SnapshotIntegrity.LightIff` | internal/agent/snapshot.go:456-524 | the light verification finds exactly the paths and sizes |
| `InventoryScan.ScanDiskPage` | internal/agent/scan.go:194-227 | the page of a sorted listing, or a refusal |
| `InventoryScan.Scan.AppendPage` | internal/controller/imports.go:306-350 | accepts exactly consistent pages, with the state they leave |
| `InventoryScan.ScanInventory` | internal/controller/imports.go:256-304 | the bounded loop equals its specification for any replies |
| `InventoryScan.CompletedScan` | internal/controller/imports.go:256-350 | from any replies a completed scan is strictly ascending, valid, of one source and of the declared total |
| `InventoryScan.DiskScanComplete` | internal/agent/scan.go:175-228 | a stable listing is read in full within the page bound |
| `InventoryExactness.HonestRead` | internal/controller/imports.go:256-304 | an Agent that answers every request from one good inventory is read in full |
| `InventoryExactness.ScannedFrom` | internal/controller/imports.go:306-350 | whatever was answered, the pages that led to a result are those of that result as an inventory at one revision |
| `InventoryExactness.ScanIff` | internal/controller/imports.go:256-350 | a scan ends with a list if and only if it is a good inventory and the pages were answered from exactly it: fifty users each, and the rest, up to 250, in the last |
| `RelayParts.PartBounds` | internal/agent/relay_multipart.go:347-365 | part sizes are positive, at most 16 MiB, and full except the last |
| `RelayParts.PartsSum` | internal/agent/relay_multipart.go:347-365 | part sizes add up to the ciphertext length |
| `RelayParts.SplitUpload` | internal/agent/relay_multipart.go:134-154 | the parts uploaded join to the ciphertext |
| `RelayParts.DownloadReader.Read` | internal/agent/relay_multipart.go:460-479 | one read equals its specification, also when a download fails |
| `RelayParts.ReadDelivers` | internal/agent/relay_multipart.go:460-479 | a read delivers the next bytes and leaves exactly the rest |
| `RelayParts.ReadsArePrefix` | internal/agent/relay_multipart.go:460-485 | any sequence of calls returns a prefix of the joined parts, and the end only after all of them |
| `RelayParts.ReadOutcome` | internal/agent/relay_multipart.go:460-485 | a read answers closed exactly if the reader was closed, the end exactly if nothing is left, and fails exactly if nothing is left over and the next download fails |
| `RelayParts.ReadsComplete` | internal/agent/relay_multipart.go:460-485 | if downloads succeed and buffers are not empty, after as many reads as there are bytes all have been delivered and the next read reports the end |
| `RelayParts.UploadAndRead` | internal/agent/relay_multipart.go:134-154 | uploaded in parts and read by any caller whose downloads succeed, the ciphertext comes out whole, and then the end |
| `TargetChoice.HintPositions` | internal/controller/backup.go:775-778 | the last place of an ID in the hint counts |
| `TargetChoice.ChooseRepairTarget` | internal/controller/backup.go:774-818 | returns an eligible node that no eligible node beats, or none when there is none |
| `TargetChoice.ChoiceUnique` | internal/controller/backup.go:774-818 | that node is unique and the same for every order of the list |
| `TargetChoice.PositionMeans` | internal/controller/backup.go:775-778 | the position of an ID is its last place in the hint, or the hint's length |
| `TargetChoice.ChosenMeans` | internal/controller/backup.go:774-818 | the node chosen can take the copy; no other that can is open if it is not, stands before it in the hint, or, both not being there, has a smaller ID |
| `TargetChoice.ChoiceExistsIff` | internal/controller/backup.go:774-818 | there is a choice if and only if some node can take the copy |
| `TargetChoice.SortTargets` | internal/controller/node_retirements.go:272-278 | the nested swap loop sorts in place and keeps the nodes |
| `TargetChoice.OrderedTargets` | internal/controller/node_retirements.go:254-280 | a sorted arrangement of exactly the eligible nodes |
| `TargetChoice.TargetsAre` | internal/controller/node_retirements.go:254-271 | the targets are exactly the ready, not full, reachable, not excluded nodes of the role, and of storage nodes the backup targets |
| `TargetChoice.SortedMeans` | internal/controller/node_retirements.go:282-287 | no busy target comes before an open one, and of two alike the smaller ID comes first |
| `TargetChoice.RepairIsFirstRetirement` | internal/controller/backup.go:774-818 | with no hint the repair target is the first retirement target for role storage without the source |

## Left out

- Store, HTTP handlers, OAuth, cookies, admin pages, AI providers, agent upgrade, metrics and audit files: input and output only.
- Encryption, signatures and SHA-256: what was encrypted is decrypted again and is longer by a nonce and a tag, signed replies are authentic, digests are parameters.
- Failing saves of the runtime state, fsync and directory syncs: saves are durable, a failed sync appears as an abandoned command.
- Files on disk: trees are maps from path to content; symbolic links, special files and a file path that is a directory prefix of another are not modelled.
- Go strings: characters stand for bytes, paths are valid UTF-8 as JSON decoding leaves them, and lower case and white space follow the ASCII rules.
- OwnershipClaim.Compare: `ObservedAt` is not part of a claim, since neither the ID nor the rank uses it.
- Liveness: that a takeover or a cleanup is ever finished.
- SnapshotArchive.Extract: the digest of the packed archive is not part of the receipt, since packing and compression are not modelled.
- ReceiveRuns.ReceiptStandsFor: progress reports and the managed-mode check before publication only make a handler fail, which it may do at any time here.
- ControlMode.ControlPlane.RecordSuccess: takeover acknowledgements and activity leases enter as the verdicts of their checks.
- ConflictChoices.Validate: the texts of the refusals are not told apart, since which one is returned depends on map order.
- DecisionPages.PreparePlan: identifiers and the reloading of each source's evidence are not part of the plan.
- DecisionRuns.Resolve: upgrades of old Agents, the transfer of the sources' evidence and the size limits of the merged tree are not part of it; a command that is not cut off is carried out.
- EvidencePages.ReadPage: the JSON text of a page is counted for an evidence ID that needs no escapes, as every UUID is.
- `loadConflictResolutionSource`, `verifyConflictEvidence` and the totals of `publishConflictResolution`: they repeat checks shown for archives and evidence pages.
- InventoryScan.ScanDiskPage: adapter pages are covered only as arbitrary replies.
- RelayParts.PartBounds: lengths within one part of 2^63 bytes, where the Go sum would wrap, are taken as unbounded integers.
- Retry delays, back-off, login lockout, version comparison and command caching: easy members.
