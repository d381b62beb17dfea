# Finality-provider voting engine: a verified model

A finality provider polls a chain, votes once on every block for which it has voting power, catches
up in batches when it lags, commits one-time randomness ahead of time, and keeps its progress in
memory and in a store. This project models that engine in Dafny 4.11 and proves what holds in every
interleaving of its goroutines, over every sequence of replies of the chain, across crashes and
restarts. `dafny verify dfyconfig.toml` verifies all of it.

## How the model is built

| file | contents |
|---|---|
| `Progress.dfy` | the last voted and last processed heights, held in memory and in the store |
| `Providers.dfy` | the provider database, the status rules, the in-memory adapter |
| `Eligibility.dfy` | which heights get a vote, pages, batched against block-by-block voting |
| `Retry.dfy`, `Instance.dfy` | the vote retry loop, a polled block, fast sync, as methods on an instance |
| `Engine.dfy` | poller, submission loop and lag checker as one step system with crashes and restarts |
| `ChainPoller.dfy` | the poller as an object, proved against the engine's poller steps |
| `PollerInvariant.dfy`, `LagInvariant.dfy` | what every step keeps about the poller and the lag hand-over |
| `StepLaws.dfy` | where steps lead: sync ranges, launch height, skip target, lag, failures |
| `VoteOrder.dfy`, `Revotes.dfy` | the two copies agree, votes move forward, and exactly when not |
| `Coverage.dfy`, `Shutdown.dfy` | no eligible block is passed over, and exactly when a shutdown loses one |
| `Liveness.dfy`, `Witnesses.dfy` | the one stuck state, skip requests; concrete runs for the failing cases |
| `SyncRefinement.dfy` | the interleaved fast sync has the effect of the `FastSync` method |
| `Encoding.dfy`, `Randomness.dfy` | byte encodings, randomness lists, the proof store |
| `Commitments.dfy`, `StoredProofs.dfy`, `CommitRounds.dfy` | runs of commitment attempts |
| `Batch.dfy`, `Gaps.dfy` | pairing of blocks, randomness, proofs and signatures; what a gapped page does to a restart |
| `StatusMachine.dfy`, `Manager.dfy` | provider statuses and the single instance slot |
| `Arithmetic.dfy` | division rounded up |

Operations that change fields are classes with `modifies` clauses, each method tied to a function of
the old state; the goroutines are a step system whose actions carry the replies of the chain.

What is assumed about the environment:

* The chain is fork-free: hash and voting power are functions of the height, the finalized height
  never decreases, and a block query for a range returns consecutive blocks, as many as
  clientcontroller/babylon.go:332-335 asks for.
* A transaction takes effect or not before the next query; its reply may be lost. A vote counts as
  acknowledged when the reply arrives, and acknowledging and recording it is one step.
* The keyed hash (HMAC, section 2 of RFC 2104), the curve point, the signature and the Merkle tree are
  symbolic constructors: different inputs give different outputs.
* A reported critical error ends the submission loop.
* The timer of the poller's select is armed when the select is entered (chain_poller.go:268-297), so that
  it does not fire before a skip request or a closed quit channel that is ready. With a poll interval
  near zero it might; the model covers both, as a property of the world (`racyTimer`), and the theorems
  hold for both or say which they need. The failing runs use a timer that is not racy.
* A fast sync that fails at start-up fails the start: no error of the block, power or batch calls is
  marked as expected (clientcontroller/babylon.go:248-254), so the exception of fp_instance.go:148 does
  not arise.
* Heights are unbounded naturals in the engine. The encodings see them modulo 2^64, and statements
  about randomness carry the 64-bit bound they need.

Where the naive claim is false of the code, the exact condition is proved and a failing run is given:

* A fast sync that casts no vote writes height 0 into memory (fastsync.go:31,92). The two progress
  copies agree throughout a run exactly when this never happens after something was processed
  (`VoteOrder.CopiesAgreeIff`). The rule of docs/fp-core.md that the last processed height is at least
  the last voted height always holds in the store; in memory it holds throughout a run exactly when no
  sync ends without a vote while a vote is in memory (`VoteOrder.MemoryRuleHoldsIff`).
* Acknowledged heights strictly increase, at every point and however a run goes on without another
  voteless sync, exactly when no sync ends without a vote while some earlier vote is not finalized or
  the poller may still deliver a powered height at or below it (`Revotes.VotesIncreaseIff`). The theorem
  has a floor: powered heights up to it, which may be all that was stored before the run, count as voted.
  In a running session, before a stop, past activation and with room in the buffer, the condition is
  that every such height is finalized and below the poller's front (`Revotes.ExposesInSession`); at
  start-up with automatic scanning, that it is finalized (`Revotes.ExposesAtStart`). Two failing runs show the two ways (`Witnesses.ForgettingIsReachable`,
  `Witnesses.BufferedVoteIsRepeated`).
* After the instance's quit channel is closed, the `select` may still receive a block. The stored
  progress stands for settled heights throughout a run exactly when no block is recorded above a height
  whose vote was cut short (`Shutdown.NothingIsLostIff`, `Witnesses.LateReceiptLosesABlock`).
* Poller and consumer can block each other for good before shutdown, for every buffer size
  (`Liveness.OnlyEmbraceIsStuck`, `Liveness.EmbraceIsReachable`). A pending skip request is answered under
  every schedule exactly when the poller has room for its next block and its timer is not racy
  (`Liveness.SkipIsAnswered`, `Liveness.EmbraceAheadIff`).
* A batch uses the randomness of consecutive heights even if its blocks are not consecutive. The batch of
  a page is aligned exactly when no powerless block of the page lies between two eligible ones, and
  accepted exactly when moreover every stored proof matches its commitment (`Batch.PageAlignedIff`,
  `Batch.PageAcceptedIff`, `Batch.GappedPageIsMisaligned`). A provider that restarts with such a gap in its
  first page stays down as long as finalization stays below the gap and every start finds a tip beyond
  the gap that counts as lagging (`Gaps.RestartIsBlocked`, `Gaps.ClearRestartSucceeds`).
* The proof store keeps the first proof of a height (`StoredProofs.ProofMatchesIff`,
  `StoredProofs.StaleFirstCommit`).
* A registration event handled late takes a slashed provider back to REGISTERED
  (`StatusMachine.SlashedStaysIff`, `StatusMachine.LateEventRevivesSlashed`).
* The status diagram of docs/fp-core.md, read with its box Registered/Inactive as two statuses and the
  arrows into it as arrows to INACTIVE, is followed exactly by the steps that are not listed in
  `StatusMachine.Strays` (`StatusMachine.RunFollowsDiagramIff`); a provider jailed before it was ever seen
  with power leaves it (`StatusMachine.JailedBeforeActive`).
* A failed start leaves an instance that counts as started and has no poller; removing it panics
  (`StatusMachine.FailedStartPanicsOnRemoval`).
* With a retry limit of the uint32 maximum the retry loop never gives up
  (`Retry.GivesUpIffLimitBelowMaximum`).

Code and documentation also differ in two places where the model follows the code: fast sync starts
when the tip is at least the gap ahead, not more than the gap (docs/fp-core.md:80), and with no history
the poller starts at 2 (`Coverage.HeightOneIsPassedOver`). The documented rule for `next_height` is read as
the rule for the height at which the poller starts: a running poller is ahead of the processed height.

## Model

| member | source | states |
|---|---|---|
| Progress.StoredNeverDecreases | finality-provider/store/fpstore.go:143-172 | under every sequence of setter calls the stored heights never decrease |
| Progress.StoredProcessedCoversVoted | finality-provider/store/fpstore.go:145-158 | the stored processed height is always at least the stored voted height |
| Progress.StoredIsHistoryMaximum | finality-provider/store/fpstore.go:145-172 | the stored heights are the maxima of the initial ones and of everything written |
| Progress.CopiesAgreeIffNeverLowered | finality-provider/service/fp_store_adapter.go:90-103 | memory and store agree after every call if and only if no call writes below the current in-memory processed height |
| Progress.MemoryRuleKeptIff | finality-provider/service/fp_store_adapter.go:90-103 | exactly which write keeps processed at least voted in memory |
| VoteOrder.MemoryRuleHoldsIff | docs/fp-core.md:38-42 | over every run processed is at least voted in memory at every point if and only if no sync ends without a vote while a vote is in memory |
| VoteOrder.StepRuledIff | finality-provider/service/fastsync.go:92 | the one step that breaks the rule in memory; the store always keeps it |
| Progress.VotelessSyncLowersMemoryOnly | finality-provider/service/fastsync.go:92 | writing height 0 lowers the memory, not the store, and a reload restores it |
| Providers.StatusFromPower | finality-provider/store/fpstore.go:117-141 | SLASHED stays, CREATED is never the result, power above 0 gives ACTIVE and only that does, JAILED is left only for ACTIVE |
| Providers.FinalityProviderStore.CreateFinalityProvider | finality-provider/store/fpstore.go:72-88 | a duplicate is refused and changes nothing; otherwise a CREATED record with zero heights is added |
| Providers.FinalityProviderStore.SetFpLastVotedHeight | finality-provider/store/fpstore.go:145-158 | raises both heights of the record, never lowers them, leaves status and other records alone, reports a missing record |
| Providers.FinalityProviderStore.SetFpLastProcessedHeight | finality-provider/store/fpstore.go:162-172 | raises the processed height only, never lowers it, leaves status and other records alone |
| Providers.FinalityProviderStore.UpdateFpStatusFromVotingPower | finality-provider/store/fpstore.go:117-141 | returns and stores the status chosen from the power; a slashed provider is not written |
| Providers.NewInstanceState | finality-provider/service/fp_instance.go:57-80 | a new instance's memory equals the stored record; none without a record or with a status that does not allow a start |
| Providers.FpState.SetStatus | finality-provider/service/fp_store_adapter.go:83-88 | status set in memory and store, heights and other records untouched |
| Providers.FpState.SetLastProcessedHeight | finality-provider/service/fp_store_adapter.go:90-95 | overwrites memory, raises the store, nothing else changes |
| Providers.FpState.SetLastProcessedAndVotedHeight | finality-provider/service/fp_store_adapter.go:97-103 | overwrites both in-memory heights, raises both stored ones, nothing else changes |
| Eligibility.EligibleIsExact | finality-provider/service/fastsync.go:50-67 | the filter keeps exactly the heights of the range above the processed height with power, once each and ascending |
| Eligibility.SyncStart | finality-provider/service/fp_instance.go:380-387 | a sync starts one above the maximum of last finalized and last processed |
| Eligibility.PagesIsCeiling | clientcontroller/babylon.go:332-335 | walking a range takes its size divided by the limit, rounded up, page queries |
| Eligibility.PageStartClosedForm | finality-provider/service/fastsync.go:35-45 | page k starts at start + k * limit, or past the end |
| Eligibility.LoopOverShape | finality-provider/service/fp_instance.go:202-227 | from any ledger the block-by-block loop votes the eligible heights, ends at the range's last height in memory, and raises the store to it unless the range was processed before |
| Eligibility.SyncRefinesLoop | finality-provider/service/fastsync.go:51-92 | from any ledger, agreeing or not, fast sync over a range casts the same votes with the same last voted heights as the block-by-block loop and differs only in the last processed height, equal exactly when the last vote is the last processed height |
| Retry.RetryIsBounded | finality-provider/service/fp_instance.go:444-501 | at most MaxSubmissionRetries + 1 submissions; at most one is acknowledged, the last one, exactly on the successful exit |
| Retry.RetryIsDetermined | finality-provider/service/fp_instance.go:444-501 | the replies determine the number of submissions and the exit |
| Retry.RetryExitMeans | finality-provider/service/fp_instance.go:457-500 | which last reply each exit stands for: acknowledged, expected, unrecoverable, one failure too many, finalized, a failed finality query, or quit |
| Retry.GivesUpIffLimitBelowMaximum | finality-provider/service/fp_instance.go:470-473 | on a chain that always fails transiently the loop gives up if and only if the limit is below the uint32 maximum |
| Instance.FinalityProviderInstance.RetrySubmit | finality-provider/service/fp_instance.go:444-501 | follows the retry rules on every reply script; progress and votes change only on the acknowledged exit |
| Instance.FinalityProviderInstance.HandlePolledBlock | finality-provider/service/fp_instance.go:201-233 | a polled block is skipped, recorded as powerless, or tried as the retry rules say on the scripted replies; nothing is recorded on any failing exit |
| Instance.FinalityProviderInstance.FastSync | finality-provider/service/fastsync.go:20-99 | succeeds if and only if no page breaks it, and then votes exactly the eligible heights of the range with the exact numbers of page queries and batches, independent of paging; otherwise ends with the error of the first page that breaks it, having voted exactly the pages before; inSync is restored |
| Instance.FinalityProviderInstance.SyncRange | finality-provider/service/fastsync.go:31-98 | the paging loop: the same exact outcome for every limit, including 0 |
| Instance.FinalityProviderInstance.SyncPage | finality-provider/service/fastsync.go:50-81 | a page fails exactly when a power query of an unprocessed block fails or there is something to vote on and the batch is not accepted; it votes all its eligible heights or none |
| Instance.FinalityProviderInstance.FilterPage | finality-provider/service/fastsync.go:50-67 | keeps exactly the eligible heights; fails exactly when a power query of an unprocessed block fails |
| Instance.FinalityProviderInstance.TryFastSync | finality-provider/service/fp_instance.go:358-396 | a sync is attempted exactly when none is running, a block is finalized and the start is not beyond the target; it has the outcome of a fast sync and never meets the already-in-sync or empty-range errors |
| Instance.AddPage | finality-provider/service/fastsync.go:35-88 | recording page after page equals recording the whole range: page cuts make no difference |
| ChainPoller.ChainPoller.Start | finality-provider/service/chain_poller.go:72-94 | height 0 and heights beyond the next tip are refused; the first tip answer decides, and the poller keeps asking exactly while all replies fail; nextHeight is set only on success |
| ChainPoller.ChainPoller.WaitForActivation | finality-provider/service/chain_poller.go:205-226 | the first answer raises nextHeight to the activation height and never lowers it |
| ChainPoller.ChainPoller.Retrieve | finality-provider/service/chain_poller.go:238-266 | success puts the block at nextHeight in hand and moves on; more than 20 failures in a row are fatal |
| ChainPoller.ChainPoller.ClearChanBufferUpToHeight | finality-provider/service/chain_poller.go:330-337 | the loop drops the front of the channel as the drain function says |
| ChainPoller.ChainPoller.AnswerSkipRequest | finality-provider/service/chain_poller.go:271-293 | accepted exactly above nextHeight; with only polled heights in the channel nothing is left in it; nextHeight never decreases |
| PollerInvariant.DrainEmptiesIff | finality-provider/service/chain_poller.go:330-337 | draining leaves nothing exactly when no block before the last reaches the target's predecessor |
| PollerInvariant.AcceptedSkipEmpties | finality-provider/service/chain_poller.go:275-288 | an accepted skip empties the buffer, so the early break never stops it short |
| PollerInvariant.DeliveryKeeps | finality-provider/service/fp_instance.go:194-199 | receiving takes the front of the contiguous line, from the buffer or straight from the poller |
| PollerInvariant.RunKeeps | finality-provider/service/chain_poller.go:205-299 | in every reachable state buffer plus block in hand is a contiguous run ending at nextHeight - 1, delivered heights strictly increase, and the skip handshake is consistent |
| PollerInvariant.LaterDeliveries | finality-provider/service/chain_poller.go:228-299 | while the loops run, nextHeight and the front never move back and later deliveries are at or above the present front |
| PollerInvariant.SkipBoundsDeliveries | finality-provider/service/chain_poller.go:284-293 | after an accepted skip to t every later delivery is at least t |
| LagInvariant.HandOver | finality-provider/service/fp_instance.go:318-361 | isLagging is set exactly while one target is about to be sent, queued or being synced; never two; the send never blocks; the already-in-sync errors are unreachable |
| StepLaws.SkipLandsAtProgress | finality-provider/service/fp_instance.go:263-267 | in every run a skip request aims one above the processed height; once accepted the poller is exactly there with an empty channel, once refused it is past it and unchanged |
| StepLaws.LaunchHeight | finality-provider/service/fp_instance.go:782-812 | the poller starts one above the higher of processed and finalized height, at 2 if both are 0, one above the configured height with static scanning, exactly if that is at most one above the tip |
| StepLaws.TargetIsSyncedIff | finality-provider/service/fp_instance.go:358-396 | in every run a lag target leads to a sync from one above the higher of processed and finalized height exactly when a finalized block is known and both are below the target |
| StepLaws.StartSyncsIff | finality-provider/service/fp_instance.go:136-160 | in every run a start tries a sync exactly when the tip is at least the gap above the processed height, and what each failure leads to |
| StepLaws.TargetIsOfferedIff | finality-provider/service/fp_instance.go:334-350 | the measured tip is offered as target exactly when it is at least the gap above the processed height |
| StepLaws.LagCheckerGoesOn | finality-provider/service/fp_instance.go:329-354 | in every run the lag checker can take a step; a tick leads to a measurement exactly when no target is outstanding, a failed one back to the ticks |
| StepLaws.FailedPage | finality-provider/service/fp_instance.go:241-256 | a failing page records nothing, fails the start at start-up, and halts a running loop exactly when the provider is slashed |
| StepLaws.VerdictLeads | finality-provider/service/fp_instance.go:201-239 | which verdicts on a polled block are recorded, as what, and which halt the loop |
| VoteOrder.StepAgreesIff | finality-provider/service/fastsync.go:92 | from agreeing copies a step makes them differ exactly when it completes a voteless sync after something was processed |
| VoteOrder.CopiesAgreeIff | finality-provider/service/fp_store_adapter.go:90-103 | over every run memory equals store at every point if and only if no voteless sync completes after something was processed |
| VoteOrder.RestartReadsTheStore | finality-provider/service/fp_instance.go:69-80 | a provider that is down restarts from the stored progress, which undoes a voteless sync |
| VoteOrder.StepGuardedIff | finality-provider/service/fp_instance.go:398-410 | a step uncovers a vote exactly when it completes a voteless sync after a vote |
| VoteOrder.VotesStayGuardedIff | finality-provider/service/fp_instance.go:398-410 | over every run the processed heights cover every vote at every point if and only if no voteless sync completes after a vote, and then votes strictly increase |
| VoteOrder.VotesAboveStored | finality-provider/service/fp_instance.go:202-220 | while the copies agree every vote of a run is above the progress stored before the run |
| Revotes.VotesIncreaseIff | finality-provider/service/fp_instance.go:189-280 | over every run with polled votes, batches, crashes and restarts, either timer and every floor up to the stored progress: acknowledged heights strictly increase above the floor, there and in every continuation without another voteless sync, if and only if no sync ends without a vote while a height voted or stored before is not finalized or within the poller's reach |
| Revotes.StepKeepsSafe | finality-provider/service/fp_instance.go:202-220 | every step but an exposing one keeps the votes ascending and each one covered by the memory or out of reach |
| Revotes.ExposedOrderBreaks | finality-provider/service/fastsync.go:92 | after a voteless sync, at start-up or in a session, that exposes a vote a continuation without another sync end breaks the order, with no timer ahead of a ready channel unless the timer is racy |
| Revotes.ExposesInSession | finality-provider/service/fp_instance.go:241-274 | in a session before a stop a height is exposed exactly when it is not finalized or at or above the poller's front |
| Revotes.ExposesAtStart | finality-provider/service/fp_instance.go:136-160 | at start-up with automatic scanning, exactly when it is not finalized |
| Revotes.PollShrinks | finality-provider/service/chain_poller.go:228-299 | no poller step puts a height back within reach |
| Revotes.VoteByPolling | finality-provider/service/fp_instance.go:194-239 | an idle loop whose memory is behind can be continued to a vote at or below any powered height the poller may deliver |
| Revotes.VoteBySyncing | finality-provider/service/fp_instance.go:318-396 | an idle loop with empty memory can be continued to a sync that votes at or below any powered unfinalized height |
| Coverage.EveryHeightIsAccountedFor | finality-provider/service/fp_instance.go:189-280 | in every interleaving every height up to the front, and up to the stored progress, is voted, powerless, finalized, below activation, declared not needed, recorded before, or cut short by a shutdown |
| Coverage.VotesComeInTurn | docs/fp-core.md:19-24 | in every run a vote, polled or in a batch, is cast only when every lower height from the origin is voted, in the same batch at the latest, or needs no vote |
| Coverage.SkipDiscardsNothingEligible | finality-provider/service/fp_instance.go:265-267 | every height drained or jumped over by an accepted skip is accounted for |
| Coverage.HeightOneIsPassedOver | finality-provider/service/fp_instance.go:782-812 | in every run nothing below the origin is delivered; with automatic scanning height 1 is never delivered and never voted, whatever its power |
| Shutdown.NothingIsLostIff | finality-provider/service/fp_instance.go:219-227 | over every run every height up to the stored progress is settled at every point if and only if no block is recorded above a height whose vote was cut short by a shutdown |
| Shutdown.StepKeptIff | finality-provider/service/fp_instance.go:192-227 | the one step that loses a vote: recording a block above an owed height |
| Shutdown.FrontIsSettled | finality-provider/service/fp_instance.go:189-239 | in such a run every height below the front is settled while the loops run and are not quitting |
| Shutdown.OnTimeReceiptsLoseNothing | finality-provider/service/fp_instance.go:192-199 | a run without a receipt after quit loses nothing |
| Revotes.EligibleHeightsAreVotedOnce | docs/fp-core.md:19-24 | in every run that loses no vote and exposes none, every eligible height up to the stored progress was voted exactly once |
| Liveness.OnlyEmbraceIsStuck | finality-provider/service/chain_poller.go:258-297 | before a stop and without a critical error, poller and consumer are stuck if and only if the buffer is full, the poller is at its send and the consumer waits in SkipToHeight |
| Liveness.EmbraceLastsUntilStop | finality-provider/service/chain_poller.go:301-324 | only a crash or a stop request ends that state, and the stop request does |
| Liveness.SkipIsAnswered | finality-provider/service/chain_poller.go:268-293 | with a timer that is not racy, under every schedule and every chain reply a skip request that finds room is answered within five poller steps, with nextHeight at or above the target, and until then the poller has a step to take |
| Liveness.EmbraceAheadIff | finality-provider/service/chain_poller.go:258-297 | a schedule from a pending request into the stuck state exists if and only if the poller has no room or its timer is racy |
| Liveness.EmbraceIsReachable | finality-provider/service/chain_poller.go:258-261 | for every buffer size and page limit there is a run into the stuck state |
| Witnesses.LateReceiptLosesABlock | finality-provider/service/fp_instance.go:192-227 | a run in which a block received after quit makes the stored progress pass an unvoted block |
| Witnesses.ForgettingIsReachable | finality-provider/service/fastsync.go:31-92 | a run from a fresh provider that votes block 3 twice after a restart |
| Witnesses.BufferedVoteIsRepeated | finality-provider/service/fp_instance.go:241-274 | a run without restart or stop whose finalized votes 2, 3 are followed by 2 again, from the buffer |
| SyncRefinement.InterleavedSyncIsSyncOver | finality-provider/service/fastsync.go:35-98 | whatever the other goroutines do, an interleaved sync that completes has the effect of the whole-range sync |
| SyncRefinement.JudgedIsLoopBody | finality-provider/service/fp_instance.go:201-233 | the engine's step on a polled block is one turn of the loop body |
| Encoding.RoundTrip | eotsmanager/randgenerator/randgenerator.go:18 | big-endian decoding inverts encoding for every number that fits |
| Encoding.RoundTripBytes | finality-provider/service/eots_manager_adapter.go:30-57 | encoding inverts decoding on every byte string, so the two are bijective on a width |
| Encoding.MessageLayouts | finality-provider/service/eots_manager_adapter.go:30-57 | bytes 0 to 8 are the height or start, bytes 8 to 16 of a commit message the count, and the rest is the hash, chain or commitment |
| Encoding.PrefixedIsInjective | finality-provider/service/eots_manager_adapter.go:55-57 | an 8-byte height followed by a payload determines both, for all uint64 heights |
| Encoding.CommitHashInput | finality-provider/service/eots_manager_adapter.go:30-42 | the hasher is fed start, count and commitment in this order, each number in 8 big-endian bytes |
| Encoding.EncodingsAreInjective | finality-provider/service/eots_manager_adapter.go:30-57 | vote message, seed and commit message are injective in all their parts |
| Encoding.EncodingWraps | eotsmanager/randgenerator/randgenerator.go:18 | heights 2^64 apart collide: the bound is needed |
| Randomness.PubAtIsInjective | eotsmanager/randgenerator/randgenerator.go:15-29 | public randomness is injective in key, chain and uint64 height |
| Randomness.RandomnessLayout | eotsmanager/randgenerator/randgenerator.go:15-18 | the hash is keyed with the private key and fed the 8-byte height followed by the chain |
| Randomness.CreateRandomnessPairList | eotsmanager/localmanager.go:170-186 | the list holds the randomness of consecutive heights from the start; fails exactly on a missing key |
| Randomness.PubListIsInjective | finality-provider/service/eots_manager_adapter.go:14-27 | lists over different ranges differ |
| Randomness.CommittedEntry | finality-provider/service/fp_instance.go:639-652 | randomness regenerated at vote time is the committed entry, is the public half of what the signer uses, and its proof verifies |
| Randomness.OnlyCommittedEntryVerifies | types/pub_rand_commit.go:11-17 | no other randomness and no other proof verifies at the place of a committed height |
| Randomness.AddAllLookup | finality-provider/store/pub_rand.go:63-72 | after adding distinct keys an old proof survives and a new key has its own proof |
| Randomness.PubRandProofStore.AddPubRandProofList | finality-provider/store/pub_rand.go:37-76 | lists of different length are refused; otherwise first write wins, key by key |
| Randomness.PubRandProofStore.GetPubRandProof | finality-provider/store/pub_rand.go:78-101 | found exactly when stored, with the stored proof |
| Randomness.PubRandProofStore.GetPubRandProofList | finality-provider/store/pub_rand.go:103-134 | all stored proofs in order, or not found exactly when one is missing |
| Commitments.Committer.CommitPubRand | finality-provider/service/fp_instance.go:576-635 | one attempt updates store and chain as chosen from the last commitment, tip and gap, in every failure case; success means something was committed or enough was, an acknowledged commitment is a success, and a failure leaves the chain alone unless the reply was lost |
| Commitments.SucceedsMeans | finality-provider/service/fp_instance.go:590-627 | what success and failure of an attempt say about the chain |
| StoredProofs.AttemptWrites | finality-provider/service/fp_instance.go:604-627 | proofs are stored for the whole chosen range before signing and sending, whatever becomes of the commitment; the range is on chain exactly if accepted; otherwise nothing changes |
| Commitments.Committer.RetryCommit | finality-provider/service/fp_instance.go:514-571 | the retry loop is a sequence of attempts at one tip; all but the last failed and led on, the last one decides the exit |
| Commitments.CommitRetryIsBounded | finality-provider/service/fp_instance.go:540-543 | with a retry limit below the uint32 maximum at most MaxSubmissionRetries attempts lead to another one, so at most MaxSubmissionRetries + 1 are made |
| Commitments.AfterFailureMeans | finality-provider/service/fp_instance.go:528-566 | which failures end the commit loop, and how |
| Commitments.CommitExitMeans | finality-provider/service/fp_instance.go:526-546 | what the loop's exit says about its last attempt and the chain |
| Commitments.FirstOnChain | finality-provider/service/fp_instance.go:583-585 | finds the first attempt that took effect, none exactly when there is none |
| Commitments.CommitsTile | finality-provider/service/fp_instance.go:582-627 | over every run of attempts the ranges on chain are adjacent and the first starts one above the tip of the first attempt that took effect |
| Commitments.TilesCoverOneInterval | finality-provider/service/fp_instance.go:814-834 | tiling ranges cover one interval ending at the last committed height, every height exactly once |
| StoredProofs.StoredProofIsFirstWritten | finality-provider/store/pub_rand.go:57-75 | over every run the stored proof of a height is that of the first stored range covering it |
| StoredProofs.ProofMatchesIff | finality-provider/service/fp_instance.go:604-627 | a committed height has a stored proof, and it verifies against the chain if and only if no other range stored that height first |
| StoredProofs.SteadyMatchesIff | finality-provider/service/fp_instance.go:582-627 | with one list size and tips that do not go back, it verifies if and only if every range stored with an earlier start ends at or before the height |
| StoredProofs.LaterCommitmentsAlwaysMatch | finality-provider/service/fp_instance.go:586-589 | then every commitment after the first on chain is matched at every height |
| StoredProofs.StaleFirstCommit | finality-provider/store/pub_rand.go:64-67 | a failed attempt at tip 10 and an accepted one at tip 11 leave only the last of five heights matched |
| CommitRounds.RoundsFromHistory | finality-provider/service/fp_instance.go:582-598 | with a last committed height L the rounds at a fixed tip are ceil(max(0, tip + gap - L) / N) |
| CommitRounds.RoundsFromNothing | finality-provider/service/fp_instance.go:583-585 | with no history the rounds are max(1, ceil(gap / N)) |
| CommitRounds.CommitsStopAfterRounds | finality-provider/service/fp_instance.go:576-635 | acknowledged attempts at a fixed tip commit exactly that often and never again |
| CommitRounds.SufficientStaysSufficient | finality-provider/service/fp_instance.go:590-598 | once sufficient for a tip, no attempt at or below that tip changes anything |
| CommitRounds.AdmissibleDoesNotWrap | finality-provider/service/fp_instance.go:586-589 | no uint64 sum wraps when tip + gap + N and L + N fit |
| CommitRounds.WrappedGapLooksSufficient | finality-provider/service/fp_instance.go:586 | exactly when a wrapped sum hides a shortage |
| Batch.BuildBatch | finality-provider/service/fp_instance.go:681-714 | the four error cases exactly, and every message of a sent batch with its block, randomness, proof and signature |
| Batch.SignAll | finality-provider/service/fp_instance.go:703-711 | one signature per block, in order |
| Batch.Pair | clientcontroller/babylon.go:229-246 | one message per index, refused when blocks and signatures differ in number |
| Batch.BatchAlignedIffConsecutive | finality-provider/service/fp_instance.go:690-714 | in an ascending batch message i is aligned exactly when its height is the first height plus i; all are if and only if the heights are consecutive |
| Batch.AcceptedIff | clientcontroller/babylon.go:229-246 | the chain accepts a message against a commitment over its height exactly when it is aligned and its stored proof matches |
| Batch.BatchAcceptedIff | finality-provider/service/fp_instance.go:576-714 | over every run of attempts the chain accepts every message of an ascending batch of committed blocks if and only if the heights are consecutive and each stored proof matches its commitment |
| Batch.BatchAcceptedIffConsecutive | finality-provider/service/fp_instance.go:681-714 | with one list size and tips that do not go back, under commitments after the first, if and only if the heights are consecutive |
| Batch.SingleVoteIsAligned | finality-provider/service/fp_instance.go:638-664 | a vote cast alone is always aligned |
| Batch.RandomnessReuse | eotsmanager/localmanager.go:188-204 | two signatures share randomness exactly when the heights agree and sign the same message exactly when the blocks agree |
| Batch.PageConsecutiveIff | finality-provider/service/fastsync.go:47-67 | the votes of a page are consecutive if and only if no powerless block lies between two eligible ones |
| Batch.PageAlignedIff | finality-provider/service/fp_instance.go:681-714 | every message of a page's batch is aligned if and only if no powerless block of the page lies between two eligible ones |
| Batch.PageAcceptedIff | finality-provider/service/fastsync.go:69-81 | over every run of attempts the chain accepts the whole batch of a page of committed blocks if and only if the page has no such gap and each stored proof matches |
| Batch.SteadyPageAcceptedIff | finality-provider/service/fastsync.go:69-81 | with one list size and tips that do not go back, under commitments after the first, the gap alone decides |
| Gaps.RestartIsBlocked | finality-provider/service/fp_instance.go:136-160 | a provider that is down with a gap within one page above its progress never comes up, votes nothing and keeps its progress in any run in which gapped pages are refused, finalization stays below the gap and every start finds itself lagging behind a tip beyond it |
| Gaps.ClearRestartSucceeds | finality-provider/service/fp_instance.go:136-160 | with no gap up to the tip the same start completes on the same chain |
| Batch.GappedPageIsMisaligned | finality-provider/service/fp_instance.go:692 | blocks 5 and 7 make a batch whose second message carries the randomness of 6 |
| StatusMachine.RunKeeps | finality-provider/service/fp_manager.go:84-232 | in every run spawned loops go with an allowed status, a stored SLASHED is slashed on chain and leaves no instance |
| StatusMachine.LoopsNeedAllowedStatus | finality-provider/store/storedfp.go:81-94 | no loops run while the instance or its stored record is CREATED, JAILED or SLASHED |
| StatusMachine.RegistrationMeans | finality-provider/service/app.go:598-606 | what create, registration request, failure and event, and a restart change |
| StatusMachine.RemovalMeans | finality-provider/service/fp_manager.go:220-232 | removing an instance frees the slot, and ends the program if its loops were never spawned, as any other critical error does |
| StatusMachine.CreatedIsNeverReentered | finality-provider/store/fpstore.go:72-141 | over every run CREATED is never re-entered and no provider disappears |
| StatusMachine.SlashedLeftIff | finality-provider/service/app.go:598-606 | a step takes a provider out of SLASHED exactly when it is a registration event of that provider |
| StatusMachine.SlashedIsAbsorbing | finality-provider/service/fp_manager.go:220-225 | SLASHED is absorbing in every run whose registration events find the provider CREATED |
| StatusMachine.RunFollowsDiagramIff | docs/fp-core.md:9-13 | at every step of every run a provider stays put or follows the documented diagram if and only if the step is not one of the listed stray steps |
| StatusMachine.JailedBeforeActive | finality-provider/service/fp_manager.go:193-203 | a run with every step on time that goes from REGISTERED to JAILED |
| StatusMachine.SlashedStaysIff | finality-provider/service/app.go:598-606 | once SLASHED a provider stays so throughout the run if and only if no registration event of it is handled any more |
| StatusMachine.LateEventRevivesSlashed | finality-provider/service/app.go:623-675 | a run in which a late event makes a slashed provider REGISTERED |
| StatusMachine.FailedStartPanicsOnRemoval | finality-provider/service/fp_instance.go:95-118 | a start leaves an instance whose removal panics exactly when it did not spawn the loops |
| Manager.FinalityProviderManager.StartSlot | finality-provider/service/fp_instance.go:95-134 | succeeds exactly for the first start of an instance that is not jailed and boots; a failed start still counts as started; found jailed at start-up it is JAILED in memory and store |
| Manager.FinalityProviderManager.StartInstance | finality-provider/service/fp_manager.go:352-370 | creates an instance only for an allowed stored status, otherwise starts the one in the slot |
| Manager.FinalityProviderManager.SyncProvider | finality-provider/service/app.go:247-292 | a running or unknown provider is left alone; otherwise the status follows the power and an allowed one is started; reports whether it runs |
| Manager.FinalityProviderManager.MonitorTick | finality-provider/service/fp_manager.go:141-213 | the resulting status in each case: power gives ACTIVE, slashed and jailed are recorded and free the slot, ACTIVE without power becomes INACTIVE, else nothing changes; no height changes; panics exactly when it removes an instance without loops |
| Manager.FinalityProviderManager.HandleCriticalError | finality-provider/service/fp_manager.go:91-114 | slashing and jailing errors are recorded and free the slot, others end the program, none matters without an instance |
| Manager.FinalityProviderManager.HandleRegistered | finality-provider/service/app.go:598-606 | the event sets REGISTERED whatever the status was, and reports an unknown provider |
| Manager.FinalityProviderManager.Terminate | finality-provider/service/fp_manager.go:220-232 | status recorded in the store, slot freed; panics exactly for an instance without loops or a slot emptied in the meantime |
| Manager.FinalityProviderManager.RemoveInstance | finality-provider/service/fp_manager.go:335-349 | the slot is free afterwards; reports a missing instance; stopping panics exactly for a started instance without loops |
| Manager.FinalityProviderManager.Unjail | finality-provider/service/app.go:375-403 | only an accepted unjail of a known provider sets the stored status to INACTIVE; the slot is untouched |

## Left out

- gRPC servers and clients, CLI, configuration loading, logging, metrics, keyring and key creation: no hard property.
- Real cryptography and the Merkle library: symbolic constructors instead, so nothing is said about collisions.
- Protobuf and database encoding, database failures: the stores are maps with atomic transactions.
- `retry.Do` wrappers and timers: one reply per query; time only decides which step is enabled.
- uint64 wrap-around of heights in the engine and in fast sync: heights are naturals there.
- Votes and batches the chain accepts although the reply is lost: they are not acknowledged in the engine; lost replies are modelled for randomness commitments.
- What the loop does between a critical-error report and the manager's stop: the report ends the loop.
- The poller's exit after too many failures: a crash step of the engine at any time.
- The poller's drain loop as several steps: answering a skip request is one step. During a stop the consumer could empty the channel between the length test and the receive of the drain (chain_poller.go:331-332), and the poller would then block in it.
- Refusal of gapped batches inside the engine's own runs: replies to a page are free there, and `Gaps` restricts them.
- Interleavings inside one status operation, such as the moment between recording SLASHED and stopping the loops.
- A page limit of 0 as the chain's pagination would treat it: the model returns no blocks and the sync ends without votes.
- TestSubmitFinalitySignatureAndExtractPrivKey, covenant, delegation and BTC-header helpers, description editing.
